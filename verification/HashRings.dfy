/** The consistent hash ring of iotronic/common/hash_ring.py.

    MD5 is a parameter: `digest` maps a text to the integer its digest denotes.
    A ring is a table from points to hosts; a lookup walks the points clockwise. */
module HashRings {
  import opened Collections

  type Host = string
  type Digest = string -> nat
  type Table = map<int, Host>

  // ---------- Specification: what ring a host list builds ----------

  function Pow2(e: nat): (r: nat)
    ensures r >= 1
  {
    if e == 0 then 1 else 2 * Pow2(e - 1)
  }

  function Repeat(s: string, n: nat): string {
    if n == 0 then "" else Repeat(s, n - 1) + s
  }

  // What the hash object has been fed when point p is read: the key goes in once on creation
  // and once more before every digest.
  function Fed(host: Host, p: nat): string {
    Repeat(host, p + 2)
  }

  function Point(digest: Digest, host: Host, p: nat): int {
    digest(Fed(host, p))
  }

  function Points(digest: Digest, host: Host, n: nat): set<int> {
    set p | 0 <= p < n :: Point(digest, host, p)
  }

  function PlaceHost(digest: Digest, table: Table, host: Host, n: nat): Table {
    if n == 0 then table
    else PlaceHost(digest, table, host, n - 1)[Point(digest, host, n - 1) := host]
  }

  // Hosts are placed in list order, so a later host overwrites a colliding point.
  function Place(digest: Digest, hosts: seq<Host>, n: nat): Table {
    if hosts == [] then map[]
    else PlaceHost(digest, Place(digest, hosts[..|hosts| - 1], n), hosts[|hosts| - 1], n)
  }

  datatype Ring = Ring(hosts: set<Host>, replicas: int, table: Table)

  function Build(digest: Digest, hosts: seq<Host>, requested: int, exponent: nat): Ring {
    Ring(Elements(hosts),
         if requested <= |hosts| then requested else |hosts|,
         Place(digest, hosts, Pow2(exponent)))
  }

  // ---------- Specification: what a lookup returns ----------

  function Above(x: int): int -> bool { p => x < p }

  function AtOrBelow(x: int): int -> bool { p => p <= x }

  // All points in the order met when going up from just above x and wrapping once.
  function Clockwise(points: seq<int>, x: int): seq<int> {
    Filter(points, Above(x)) + Filter(points, AtOrBelow(x))
  }

  lemma ClockwiseMembers(points: seq<int>, x: int)
    ensures forall i :: 0 <= i < |Clockwise(points, x)| ==> Clockwise(points, x)[i] in points
    ensures forall p :: p in points ==> p in Clockwise(points, x)
  {
    var high, low := Filter(points, Above(x)), Filter(points, AtOrBelow(x));
    FilterMembers(points, Above(x));
    FilterMembers(points, AtOrBelow(x));
    assert forall i :: 0 <= i < |high| ==> high[i] in high;
    assert forall i :: 0 <= i < |low| ==> low[i] in low;
  }

  function OwnersAlong(table: Table, points: seq<int>): (r: seq<Host>)
    requires forall i :: 0 <= i < |points| ==> points[i] in table
    ensures |r| == |points|
  {
    seq(|points|, i requires 0 <= i < |points| => table[points[i]])
  }

  // The first meetings along a walk: every owner once, where it is first met, without the ignored ones.
  function FirstMet(owners: seq<Host>, ignored: set<Host>): seq<Host> {
    if owners == [] then []
    else
      var met, h := FirstMet(owners[..|owners| - 1], ignored), owners[|owners| - 1];
      if h in met || h in ignored then met else met + [h]
  }

  function Wanted(ring: Ring, ignored: set<Host>): int {
    Min(ring.replicas, |ring.hosts - ignored|)
  }

  lemma WalkPoints(table: Table, x: int)
    ensures var parts := SortedSeq(table.Keys);
            Ascending(parts) && forall i :: 0 <= i < |parts| ==> parts[i] in table
    ensures var turn := Clockwise(SortedSeq(table.Keys), x);
            && (forall i :: 0 <= i < |turn| ==> turn[i] in table)
            && (forall p :: p in table ==> p in turn)
  {
    var parts := SortedSeq(table.Keys);
    var turn := Clockwise(parts, x);
    SortedSeqFacts(table.Keys);
    ClockwiseMembers(parts, x);
    assert forall i :: 0 <= i < |parts| ==> parts[i] in parts;
  }

  // The owners of all points, in the order met from just above x.
  function Walk(ring: Ring, x: int): seq<Host> {
    WalkPoints(ring.table, x);
    OwnersAlong(ring.table, Clockwise(SortedSeq(ring.table.Keys), x))
  }

  function Lookup(ring: Ring, x: int, ignored: set<Host>): seq<Host> {
    Take(FirstMet(Walk(ring, x), ignored), Wanted(ring, ignored))
  }

  function Owners(table: Table): set<Host> {
    set k | k in table :: table[k]
  }

  function LiveOwners(ring: Ring, ignored: set<Host>): set<Host> {
    Owners(ring.table) - ignored
  }

  // The probe loop ends exactly when enough distinct live owners exist.
  predicate CanServe(ring: Ring, ignored: set<Host>) {
    Wanted(ring, ignored) <= |LiveOwners(ring, ignored)|
  }

  ghost predicate EveryHostOwnsAPoint(ring: Ring) {
    Owners(ring.table) == ring.hosts
  }

  ghost predicate PointsDisjoint(digest: Digest, hosts: set<Host>, n: nat) {
    forall g, h :: g in hosts && h in hosts && g != h ==> Points(digest, g, n) !! Points(digest, h, n)
  }

  // ---------- The class ----------

  class HashRing {
    const digest: Digest
    var hosts: set<Host>
    var replicas: int
    var hostHashes: Table
    var partitions: seq<int>

    ghost function View(): Ring
      reads this
    {
      Ring(hosts, replicas, hostHashes)
    }

    ghost predicate Valid()
      reads this
    {
      && partitions == SortedSeq(hostHashes.Keys)
      && Owners(hostHashes) <= hosts
      && (replicas > 0 ==> hostHashes != map[])
    }

    constructor (digest: Digest, hosts: seq<Host>, requested: Option<int>, configured: int, exponent: nat)
      ensures Valid()
      ensures this.digest == digest
      ensures View() == Build(digest, hosts, if requested.Some? then requested.value else configured, exponent)
    {
      var wanted := if requested.Some? then requested.value else configured;
      this.digest := digest;
      this.hosts := Elements(hosts);
      this.replicas := if wanted <= |hosts| then wanted else |hosts|;
      var table: Table := map[];
      for i := 0 to |hosts|
        invariant table == Place(digest, hosts[..i], Pow2(exponent))
      {
        ghost var before := table;
        for p := 0 to Pow2(exponent)
          invariant table == PlaceHost(digest, before, hosts[i], p)
        {
          table := table[Point(digest, hosts[i], p) := hosts[i]];
        }
        assert hosts[..i + 1][..i] == hosts[..i];
      }
      assert hosts[..|hosts|] == hosts;
      this.hostHashes := table;
      this.partitions := SortedSeq(table.Keys);
      PlaceOwners(digest, hosts, Pow2(exponent));
      if |hosts| > 0 {
        assert hosts[0] in hosts && Point(digest, hosts[0], 0) in Points(digest, hosts[0], Pow2(exponent));
        assert Point(digest, hosts[0], 0) in table;
      }
    }

    // Index of the first point strictly above the key's hash, or 0 past the end.
    method GetPartition(data: Option<string>) returns (r: Result<nat>)
      requires Valid()
      ensures data.None? ==> r.Err?
      ensures data.Some? ==>
                && r.Ok? && r.value <= |partitions| && (partitions != [] ==> r.value < |partitions|)
                && partitions[r.value..] + partitions[..r.value] == Clockwise(partitions, digest(data.value))
    {
      if data.None? {
        return Err("Invalid data supplied to HashRing.get_hosts.");
      }
      var x := digest(data.value);
      SortedSeqFacts(hostHashes.Keys);
      var position := Bisect(partitions, x);
      RotationIsClockwise(partitions, x, position);
      assert partitions[0..] + partitions[..0] == partitions[position..] + partitions[..position]
        || position < |partitions|;
      r := Ok(if position < |partitions| then position else 0);
    }

    function GetHost(partition: int): Host
      requires Valid()
      requires 0 <= partition < |partitions|
      reads this
    {
      WalkPoints(hostHashes, 0);
      hostHashes[partitions[partition]]
    }

    // Linear probing (the inner loop of get_hosts): the first partition from the current one
    // whose host is neither chosen nor ignored. Ghost state: owners[at] is the host probed,
    // `found` accounts for the first `seen` owners of the walk that began at partition `start`.
    method Probe(from: int, found: seq<Host>, ignore: set<Host>,
                 ghost owners: seq<Host>, ghost start: nat, ghost from': nat, ghost seen': nat)
      returns (partition: int, host: Host, ghost at: nat)
      requires Valid() && Standing(partitions, hostHashes, owners, start)
      requires from' < |owners| && from == Wrap(start + from', |partitions|)
      requires Probing(owners, ignore, found, from', seen')
      requires |found| < |FirstMet(owners, ignore)|
      ensures at < |owners| && partition == Wrap(start + at, |partitions|)
      ensures host == owners[at] && host !in found && host !in ignore
      ensures exists seen :: Probing(owners, ignore, found, at, seen)
    {
      partition, at := from, from';
      ghost var seen: nat := seen';
      host := GetHost(partition);
      assert OwnerAt(partitions, hostHashes, owners, start, at);
      while host in found || host in ignore
        invariant at < |owners| && partition == Wrap(start + at, |partitions|) && host == owners[at]
        invariant Probing(owners, ignore, found, at, seen)
        decreases |owners| - at
      {
        ProbeSkips(owners, ignore, found, at, seen);
        partition := partition + 1;
        if partition >= |partitions| {
          partition := 0;
        }
        at, seen := at + 1, at + 1;
        host := GetHost(partition);
        assert OwnerAt(partitions, hostHashes, owners, start, at);
      }
    }

    // The loops of get_hosts, over the walk that starts at partition `start`.
    method Serve(start: nat, ignore: set<Host>, ghost owners: seq<Host>) returns (found: seq<Host>)
      requires Valid() && Standing(partitions, hostHashes, owners, start)
      requires partitions != [] ==> start < |partitions|
      requires ignore <= hosts && Min(replicas, |hosts| - |ignore|) <= |FirstMet(owners, ignore)|
      ensures found <= FirstMet(owners, ignore)
      ensures |found| == Max(Min(replicas, |hosts| - |ignore|), 0)
    {
      found := [];
      var partition: int := start;
      ghost var at: nat, seen: nat := 0, 0;
      IntersectionCount(hosts, ignore);
      for replica := 0 to Max(replicas, 0)
        invariant |found| == replica <= |hosts| - |ignore|
        invariant Probing(owners, ignore, found, at, seen)
        invariant replicas > 0 ==> at < |owners| && partition == Wrap(start + at, |partitions|)
      {
        if |found| + |ignore| == |hosts| {
          break;
        }
        var host;
        partition, host, at := Probe(partition, found, ignore, owners, start, at, seen);
        seen :| Probing(owners, ignore, found, at, seen);
        ProbeTakes(owners, ignore, found, at, seen);
        found := found + [host];
        seen := at + 1;
      }
      FirstMetPrefix(owners, seen, ignore);
    }

    method GetHosts(data: Option<string>, ignoreHosts: Option<seq<Host>>) returns (r: Result<seq<Host>>)
      requires Valid()
      requires CanServe(View(), if ignoreHosts.Some? then set h | h in ignoreHosts.value else {})
      ensures data.None? ==> r.Err?
      ensures data.Some? ==>
                r == Ok(Lookup(View(), digest(data.value),
                               if ignoreHosts.Some? then set h | h in ignoreHosts.value else {}))
      ensures r.Ok? && ignoreHosts.Some? ==> forall h :: h in r.value ==> h !in ignoreHosts.value
      ensures r.Ok? ==> Distinct(r.value) && forall h :: h in r.value ==> h in hosts
    {
      var ignored: set<Host> := if ignoreHosts.Some? then set h | h in ignoreHosts.value else {};
      var start := GetPartition(data);
      if start.Err? {
        return Err(start.reason);
      }
      var found := HostsFrom(start.value, ignored, digest(data.value));
      r := Ok(found);
    }

    // get_hosts from the partition of the key on.
    method HostsFrom(start: nat, ignored: set<Host>, ghost x: int) returns (found: seq<Host>)
      requires Valid() && CanServe(View(), ignored)
      requires start <= |partitions| && (partitions != [] ==> start < |partitions|)
      requires partitions[start..] + partitions[..start] == Clockwise(partitions, x)
      ensures found == Lookup(View(), x, ignored)
      ensures Distinct(found) && forall h :: h in found ==> h in hosts && h !in ignored
    {
      WalkReady(View(), partitions, x, start, ignored);
      found := Serve(start, ignored * hosts, Walk(View(), x));
      LookupFound(View(), x, ignored, found);
      LookupMembers(View(), x, ignored);
    }
  }

  // What Serve needs to know of the walk from the first partition above x.
  lemma WalkReady(ring: Ring, parts: seq<int>, x: int, start: nat, ignored: set<Host>)
    requires Owners(ring.table) <= ring.hosts && CanServe(ring, ignored) && parts == SortedSeq(ring.table.Keys)
    requires start <= |parts| && parts[start..] + parts[..start] == Clockwise(parts, x)
    ensures Standing(parts, ring.table, Walk(ring, x), start)
    ensures Min(ring.replicas, |ring.hosts| - |ignored * ring.hosts|) <= |FirstMet(Walk(ring, x), ignored * ring.hosts)|
  {
    WalkStands(ring, x, start);
    WalkCounts(ring, x, ignored);
  }

  // owners lists the hosts of all partitions in turn, from partition `start` on.
  ghost predicate Standing(partitions: seq<int>, table: Table, owners: seq<Host>, start: nat) {
    && |owners| == |partitions|
    && start <= |partitions|
    && forall k :: 0 <= k < |partitions| ==> OwnerAt(partitions, table, owners, start, k)
  }

  ghost predicate OwnerAt(partitions: seq<int>, table: Table, owners: seq<Host>, start: nat, k: int)
    requires start <= |partitions| == |owners| && 0 <= k < |partitions|
  {
    var p := partitions[Wrap(start + k, |partitions|)];
    p in table && owners[k] == table[p]
  }

  lemma LookupFound(ring: Ring, x: int, ignored: set<Host>, found: seq<Host>)
    requires Owners(ring.table) <= ring.hosts
    requires found <= FirstMet(Walk(ring, x), ignored * ring.hosts)
    requires |found| == Max(Min(ring.replicas, |ring.hosts| - |ignored * ring.hosts|), 0)
    ensures found == Lookup(ring, x, ignored)
  {
    WalkCounts(ring, x, ignored);
  }

  lemma LookupMembers(ring: Ring, x: int, ignored: set<Host>)
    requires Owners(ring.table) <= ring.hosts
    ensures var found := Lookup(ring, x, ignored);
            Distinct(found) && forall h :: h in found ==> h in ring.hosts && h !in ignored
  {
    WalkMeetsLiveOwners(ring, x, ignored);
    TakeDistinct(FirstMet(Walk(ring, x), ignored), Wanted(ring, ignored));
    var found := Lookup(ring, x, ignored);
    forall h | h in found ensures h in ring.hosts && h !in ignored {
      assert h in Elements(found);
    }
  }

  lemma RotationIndex(parts: seq<int>, start: nat, k: nat)
    requires start <= |parts| && k < |parts|
    ensures (parts[start..] + parts[..start])[k] == parts[Wrap(start + k, |parts|)]
  {
  }

  lemma WalkStands(ring: Ring, x: int, start: nat)
    requires var parts := SortedSeq(ring.table.Keys);
             start <= |parts| && parts[start..] + parts[..start] == Clockwise(parts, x)
    ensures Standing(SortedSeq(ring.table.Keys), ring.table, Walk(ring, x), start)
  {
    WalkPoints(ring.table, x);
    RotationStands(ring.table, SortedSeq(ring.table.Keys), Clockwise(SortedSeq(ring.table.Keys), x), start);
  }

  lemma RotationStands(table: Table, parts: seq<int>, turn: seq<int>, start: nat)
    requires start <= |parts| && turn == parts[start..] + parts[..start]
    requires forall i :: 0 <= i < |parts| ==> parts[i] in table
    requires forall i :: 0 <= i < |turn| ==> turn[i] in table
    ensures Standing(parts, table, OwnersAlong(table, turn), start)
  {
    var owners := OwnersAlong(table, turn);
    forall k | 0 <= k < |parts|
      ensures OwnerAt(parts, table, owners, start, k)
    {
      RotationIndex(parts, start, k);
      assert owners[k] == table[turn[k]];
    }
  }

  lemma WalkCounts(ring: Ring, x: int, ignored: set<Host>)
    requires Owners(ring.table) <= ring.hosts
    ensures var owners, ignore := Walk(ring, x), ignored * ring.hosts;
            && |FirstMet(owners, ignore)| == |LiveOwners(ring, ignored)|
            && FirstMet(owners, ignored) == FirstMet(owners, ignore)
            && |ring.hosts - ignored| == |ring.hosts| - |ignore|
  {
    var ignore := ignored * ring.hosts;
    WalkPoints(ring.table, x);
    WalkCount(ring, Clockwise(SortedSeq(ring.table.Keys), x), ignored);
    FirstMetIgnoring(Walk(ring, x), ring.hosts, ignored);
    assert ring.hosts - ignore == ring.hosts - ignored;
    IntersectionCount(ring.hosts, ignore);
  }

  // `found` lists the owners met among the first `seen`; the probe stands at index `at`.
  ghost predicate Probing(owners: seq<Host>, ignore: set<Host>, found: seq<Host>, at: nat, seen: nat) {
    && at <= seen <= |owners| && seen <= at + 1
    && found == FirstMet(owners[..seen], ignore)
    && (at < seen ==> owners[at] in found || owners[at] in ignore)
  }

  lemma ProbeSkips(owners: seq<Host>, ignore: set<Host>, found: seq<Host>, at: nat, seen: nat)
    requires at < |owners| && Probing(owners, ignore, found, at, seen)
    requires owners[at] in found || owners[at] in ignore
    requires |found| < |FirstMet(owners, ignore)|
    ensures at + 1 < |owners| && Probing(owners, ignore, found, at + 1, at + 1)
  {
    assert owners[..at + 1][..at] == owners[..at];
    assert owners[..|owners|] == owners;
  }

  lemma ProbeTakes(owners: seq<Host>, ignore: set<Host>, found: seq<Host>, at: nat, seen: nat)
    requires at < |owners| && Probing(owners, ignore, found, at, seen)
    requires owners[at] !in found && owners[at] !in ignore
    ensures Probing(owners, ignore, found + [owners[at]], at, at + 1)
  {
    assert owners[..at + 1][..at] == owners[..at];
  }

  function Max(a: int, b: int): int { if a <= b then b else a }

  // Index i of a ring of n partitions after at most one trip round.
  function Wrap(i: int, n: int): int { if i < n then i else i - n }

  // bisect.bisect on an ascending list: everything before the result is at most x.
  function Bisect(points: seq<int>, x: int): (r: nat)
    requires Ascending(points)
    ensures r <= |points|
    ensures forall i :: 0 <= i < r ==> points[i] <= x
    ensures forall i :: r <= i < |points| ==> x < points[i]
  {
    if points == [] || points[|points| - 1] <= x then |points|
    else Bisect(points[..|points| - 1], x)
  }

  lemma RotationIsClockwise(points: seq<int>, x: int, position: nat)
    requires Ascending(points)
    requires position == Bisect(points, x)
    ensures points[position..] + points[..position] == Clockwise(points, x)
  {
    var low, high := points[..position], points[position..];
    assert points == low + high;
    HalvesClockwise(low, high, x);
  }

  lemma HalvesClockwise(low: seq<int>, high: seq<int>, x: int)
    requires forall i :: 0 <= i < |low| ==> low[i] <= x
    requires forall i :: 0 <= i < |high| ==> x < high[i]
    ensures Clockwise(low + high, x) == high + low
  {
    assert Filter(low + high, Above(x)) == high by {
      FilterAppend(low, high, Above(x));
      FilterAll(high, Above(x));
      FilterNone(low, Above(x));
    }
    assert Filter(low + high, AtOrBelow(x)) == low by {
      FilterAppend(low, high, AtOrBelow(x));
      FilterAll(low, AtOrBelow(x));
      FilterNone(high, AtOrBelow(x));
    }
  }

  lemma IntersectionCount(all: set<Host>, part: set<Host>)
    requires part <= all
    ensures |all - part| == |all| - |part|
  {
    assert all == (all - part) + part;
  }

  // The hosts met are exactly the owners not ignored, each once.
  lemma {:induction false} FirstMetOwners(owners: seq<Host>, ignored: set<Host>)
    ensures Distinct(FirstMet(owners, ignored))
    ensures forall h :: h in FirstMet(owners, ignored) <==> h in owners && h !in ignored
  {
    if owners != [] {
      var front, last := owners[..|owners| - 1], owners[|owners| - 1];
      FirstMetOwners(front, ignored);
      assert owners == front + [last];
    }
  }

  lemma {:induction false} FirstMetIgnoring(owners: seq<Host>, hosts: set<Host>, ignored: set<Host>)
    requires Elements(owners) <= hosts
    ensures FirstMet(owners, ignored) == FirstMet(owners, ignored * hosts)
  {
    if owners != [] {
      assert owners[|owners| - 1] in Elements(owners);
      FirstMetIgnoring(owners[..|owners| - 1], hosts, ignored);
    }
  }

  lemma OwnerListed(table: Table, k: int)
    requires k in table
    ensures table[k] in Owners(table)
  {
  }

  lemma WalkCount(ring: Ring, points: seq<int>, ignored: set<Host>)
    requires forall p :: p in ring.table ==> p in points
    requires forall i :: 0 <= i < |points| ==> points[i] in ring.table
    ensures Elements(OwnersAlong(ring.table, points)) == Owners(ring.table)
    ensures |FirstMet(OwnersAlong(ring.table, points), ignored)| == |LiveOwners(ring, ignored)|
    ensures Elements(FirstMet(OwnersAlong(ring.table, points), ignored)) == LiveOwners(ring, ignored)
  {
    var owners := OwnersAlong(ring.table, points);
    assert forall i :: 0 <= i < |points| ==> points[i] in points;
    forall i | 0 <= i < |owners| ensures owners[i] in Owners(ring.table) {
      OwnerListed(ring.table, points[i]);
    }
    forall h | h in Owners(ring.table) ensures h in owners {
      var k :| k in ring.table && ring.table[k] == h;
      var i :| 0 <= i < |points| && points[i] == k;
      assert owners[i] == h;
    }
    FirstMetOwners(owners, ignored);
    DistinctCount(FirstMet(owners, ignored));
    assert Elements(FirstMet(owners, ignored)) == LiveOwners(ring, ignored);
  }

  lemma {:induction false} FirstMetPrefix(owners: seq<Host>, k: nat, ignored: set<Host>)
    requires k <= |owners|
    ensures FirstMet(owners[..k], ignored) <= FirstMet(owners, ignored)
  {
    if k == |owners| {
      assert owners[..k] == owners;
    } else {
      var front := owners[..|owners| - 1];
      FirstMetPrefix(front, k, ignored);
      assert front[..k] == owners[..k];
    }
  }

  // ---------- What the table holds ----------

  lemma {:induction false} PlaceHostTable(digest: Digest, table: Table, host: Host, n: nat)
    ensures PlaceHost(digest, table, host, n).Keys == table.Keys + Points(digest, host, n)
    ensures forall k :: k in PlaceHost(digest, table, host, n) ==>
              PlaceHost(digest, table, host, n)[k] == (if k in Points(digest, host, n) then host else table[k])
  {
    if n > 0 {
      PlaceHostTable(digest, table, host, n - 1);
      assert Points(digest, host, n) == Points(digest, host, n - 1) + {Point(digest, host, n - 1)};
    }
  }

  // Every point of a listed host is on the ring, and every entry is a point of its owner.
  lemma {:induction false} PlaceOwners(digest: Digest, hosts: seq<Host>, n: nat)
    ensures forall k :: k in Place(digest, hosts, n) ==>
              var owner := Place(digest, hosts, n)[k];
              owner in hosts && k in Points(digest, owner, n)
    ensures forall h, k :: h in hosts && k in Points(digest, h, n) ==> k in Place(digest, hosts, n)
  {
    if hosts != [] {
      var front, last := hosts[..|hosts| - 1], hosts[|hosts| - 1];
      PlaceOwners(digest, front, n);
      PlaceHostTable(digest, Place(digest, front, n), last, n);
      assert hosts == front + [last];
    }
  }

  // ---------- Main results ----------

  // With a point for every host, a lookup returns as many live hosts as asked for and available,
  // pairwise distinct and none of them ignored.
  lemma LookupServesLiveHosts(ring: Ring, x: int, ignored: set<Host>)
    requires EveryHostOwnsAPoint(ring)
    ensures CanServe(ring, ignored)
    ensures |Lookup(ring, x, ignored)| == Max(0, Min(ring.replicas, |ring.hosts - ignored|))
    ensures Distinct(Lookup(ring, x, ignored))
    ensures Elements(Lookup(ring, x, ignored)) <= ring.hosts - ignored
  {
    WalkMeetsLiveOwners(ring, x, ignored);
    TakeDistinct(FirstMet(Walk(ring, x), ignored), Wanted(ring, ignored));
  }

  // How many hosts a lookup returns, whenever it ends: the number asked for, up to the live hosts.
  lemma LookupCount(digest: Digest, hosts: seq<Host>, requested: int, exponent: nat, x: int, down: set<Host>)
    requires CanServe(Build(digest, hosts, requested, exponent), down)
    ensures var live := |set h | h in hosts && h !in down|;
            |Lookup(Build(digest, hosts, requested, exponent), x, down)| ==
            if requested <= 0 then 0 else if requested <= live then requested else live
  {
    var ring := Build(digest, hosts, requested, exponent);
    assert (set h | h in hosts && h !in down) == Elements(hosts) - down;
    ElementsCount(hosts);
    SubsetCount(Elements(hosts), down);
    assert Wanted(ring, down) == Min(requested, |Elements(hosts) - down|);
    LookupLength(ring, x, down);
  }

  lemma LookupLength(ring: Ring, x: int, ignored: set<Host>)
    requires CanServe(ring, ignored)
    ensures |Lookup(ring, x, ignored)| == if Wanted(ring, ignored) <= 0 then 0 else Wanted(ring, ignored)
  {
    WalkMeetsLiveOwners(ring, x, ignored);
  }

  // With disjoint points every lookup ends, so that is the number for every key and every down set.
  lemma DisjointLookupCount(digest: Digest, hosts: seq<Host>, requested: int, exponent: nat, x: int, down: set<Host>)
    requires PointsDisjoint(digest, Elements(hosts), Pow2(exponent))
    ensures var live := |set h | h in hosts && h !in down|;
            |Lookup(Build(digest, hosts, requested, exponent), x, down)| ==
            if requested <= 0 then 0 else if requested <= live then requested else live
  {
    DisjointRingOwnsAll(digest, hosts, requested, exponent);
    LookupServesLiveHosts(Build(digest, hosts, requested, exponent), x, down);
    LookupCount(digest, hosts, requested, exponent, x, down);
  }

  // A text that repeats h exactly k times.
  predicate RepeatsText(text: string, h: Host, k: nat) {
    |text| == k * |h| && forall i :: 0 <= i < |text| ==> text[i] == h[i % |h|]
  }

  lemma {:induction false} RepeatIsText(h: Host, k: nat)
    ensures RepeatsText(Repeat(h, k), h, k)
  {
    if k > 0 {
      RepeatIsText(h, k - 1);
      var front := Repeat(h, k - 1);
      assert k * |h| == (k - 1) * |h| + |h|;
      forall i | 0 <= i < |Repeat(h, k)| ensures Repeat(h, k)[i] == h[i % |h|] {
        if i >= |front| {
          WithinLast(i, k - 1, |h|);
        }
      }
    }
  }

  lemma WithinLast(i: nat, k: nat, n: nat)
    requires n > 0 && k * n <= i < k * n + n
    ensures i % n == i - k * n
  {
    assert i == n * k + (i - k * n);
    DivisionUnique(i, n, k, i - k * n);
  }

  lemma DivisionUnique(i: nat, n: nat, q: nat, m: nat)
    requires n > 0 && i == n * q + m && m < n
    ensures i % n == m
  {
    var d := i / n - q;
    assert i == n * (i / n) + i % n;
    assert n * (i / n) == n * q + n * d;
    assert n * d == m - i % n;
    Multiples(n, d);
  }

  lemma Multiples(n: nat, d: int)
    ensures d >= 1 ==> n * d >= n
    ensures d <= -1 ==> n * d <= -(n as int)
  {
  }

  // The points of a ring, without reference to how the digests are fed: the digests of the texts
  // that repeat a listed host at least twice and at most one time more than 2 to the exponent.
  lemma RingPoints(digest: Digest, hosts: seq<Host>, requested: int, exponent: nat, k: int)
    ensures k in Build(digest, hosts, requested, exponent).table <==>
            exists h, times: nat, text ::
              h in hosts && 2 <= times < Pow2(exponent) + 2 && RepeatsText(text, h, times) && digest(text) == k
  {
    var n := Pow2(exponent);
    PlaceOwners(digest, hosts, n);
    if k in Place(digest, hosts, n) {
      var h := Place(digest, hosts, n)[k];
      var p: nat :| p < n && Point(digest, h, p) == k;
      RepeatIsText(h, p + 2);
      assert RepeatsText(Fed(h, p), h, p + 2) && digest(Fed(h, p)) == k;
    }
    if h, times: nat, text :| h in hosts && 2 <= times < n + 2 && RepeatsText(text, h, times) && digest(text) == k {
      RepeatIsText(h, times);
      SameText(text, Fed(h, times - 2), h, times);
      assert Point(digest, h, times - 2) in Points(digest, h, n);
    }
  }

  lemma SameText(a: string, b: string, h: Host, k: nat)
    requires RepeatsText(a, h, k) && RepeatsText(b, h, k)
    ensures a == b
  {
  }

  // Pow2 is the power of two.
  lemma {:induction false} PowersMultiply(a: nat, b: nat)
    ensures Pow2(0) == 1 && Pow2(1) == 2
    ensures Pow2(a + b) == Pow2(a) * Pow2(b)
  {
    if b > 0 {
      PowersMultiply(a, b - 1);
      assert Pow2(a + b) == 2 * Pow2(a + b - 1);
      DoubleProduct(Pow2(a), Pow2(b - 1));
    }
  }

  lemma DoubleProduct(x: nat, y: nat)
    ensures 2 * (x * y) == x * (2 * y)
  {
  }

  lemma TakeDistinct(met: seq<Host>, k: int)
    requires Distinct(met)
    ensures Distinct(Take(met, k)) && Elements(Take(met, k)) <= Elements(met)
  {
  }

  lemma WalkMeetsLiveOwners(ring: Ring, x: int, ignored: set<Host>)
    ensures var met := FirstMet(Walk(ring, x), ignored);
            Distinct(met) && Elements(met) == LiveOwners(ring, ignored) && |met| == |LiveOwners(ring, ignored)|
  {
    WalkPoints(ring.table, x);
    var turn := Clockwise(SortedSeq(ring.table.Keys), x);
    WalkCount(ring, turn, ignored);
    FirstMetOwners(OwnersAlong(ring.table, turn), ignored);
  }

  // Declarative reading of FirstMet: the i-th host is found at index at[i] of the walk, the indices
  // go up, and everything walked before is ignored or already found.
  ghost predicate MetAt(owners: seq<Host>, ignored: set<Host>, met: seq<Host>, at: seq<nat>) {
    && |at| == |met|
    && (forall i :: 0 <= i < |at| ==> at[i] < |owners| && owners[at[i]] == met[i] && met[i] !in ignored)
    && (forall i, j :: 0 <= i < j < |at| ==> at[i] < at[j])
    && (forall i, k :: 0 <= i < |at| && 0 <= k < at[i] ==> owners[k] in ignored || owners[k] in met[..i])
  }

  lemma {:induction false} FirstMetWitness(owners: seq<Host>, ignored: set<Host>) returns (at: seq<nat>)
    ensures MetAt(owners, ignored, FirstMet(owners, ignored), at)
  {
    at := [];
    if owners != [] {
      var front, last := owners[..|owners| - 1], owners[|owners| - 1];
      at := FirstMetWitness(front, ignored);
      FirstMetOwners(front, ignored);
      assert owners == front + [last];
      MetAtExtends(front, last, ignored, FirstMet(front, ignored), at);
      if last !in FirstMet(front, ignored) && last !in ignored {
        at := at + [|front|];
      }
    }
  }

  lemma MetAtExtends(front: seq<Host>, last: Host, ignored: set<Host>, met: seq<Host>, at: seq<nat>)
    requires MetAt(front, ignored, met, at)
    requires forall h :: h in met <==> h in front && h !in ignored
    ensures MetAt(front + [last], ignored, met, at)
    ensures last !in ignored ==> MetAt(front + [last], ignored, met + [last], at + [|front|])
  {
    var met', at' := met + [last], at + [|front|];
    assert met'[..|met|] == met;
    assert forall i :: 0 <= i < |met| ==> met'[..i] == met[..i];
    forall k | 0 <= k < |front| ensures front[k] in ignored || front[k] in met {
      assert front[k] in front;
    }
  }

  // A lookup answers with the nearest distinct live owners above the key, nearest first.
  lemma LookupIsNearestLiveOwners(ring: Ring, x: int, ignored: set<Host>) returns (at: seq<nat>)
    ensures MetAt(Walk(ring, x), ignored, Lookup(ring, x, ignored), at)
  {
    at := FirstMetWitness(Walk(ring, x), ignored);
    var met, n := FirstMet(Walk(ring, x), ignored), |Lookup(ring, x, ignored)|;
    at := at[..n];
    assert forall i :: 0 <= i < n ==> met[..n][..i] == met[..i];
  }

  // When too few live hosts own points, choosing all of them still leaves the request short while
  // every partition is skipped, so the probe loop of get_hosts cannot end.
  lemma ProbeNeverEnds(ring: Ring, x: int, ignored: set<Host>)
    requires !CanServe(ring, ignored) && Owners(ring.table) <= ring.hosts
    ensures var found := FirstMet(Walk(ring, x), ignored);
            && |found| < Wanted(ring, ignored)
            && forall k :: k in ring.table ==> ring.table[k] in found || ring.table[k] in ignored
  {
    var found := FirstMet(Walk(ring, x), ignored);
    WalkMeetsLiveOwners(ring, x, ignored);
    forall k | k in ring.table ensures ring.table[k] in found || ring.table[k] in ignored {
      OwnerListed(ring.table, k);
      assert ring.table[k] in Elements(found) || ring.table[k] in ignored;
    }
  }

  // The table with the points of some hosts taken out.
  function Without(table: Table, down: set<Host>): Table {
    map k | k in table && table[k] !in down :: table[k]
  }

  // With disjoint point sets the table is determined by the set of hosts alone.
  lemma PlaceDetermined(digest: Digest, hosts: seq<Host>, survivors: seq<Host>, down: set<Host>, n: nat)
    requires PointsDisjoint(digest, Elements(hosts), n)
    requires Elements(survivors) == Elements(hosts) - down
    ensures Place(digest, survivors, n) == Without(Place(digest, hosts, n), down)
  {
    PlaceOwners(digest, hosts, n);
    PlaceOwners(digest, survivors, n);
    var all, left := Place(digest, hosts, n), Place(digest, survivors, n);
    forall k | k in left ensures k in all && all[k] == left[k] && all[k] !in down {
      assert left[k] in Elements(survivors);
      assert left[k] in hosts && k in all && all[k] in hosts;
      SharedPoint(digest, Elements(hosts), n, left[k], all[k], k);
    }
    forall k | k in all && all[k] !in down ensures k in left {
      assert all[k] in Elements(hosts) - down;
      assert all[k] in survivors;
    }
  }

  lemma SharedPoint(digest: Digest, hosts: set<Host>, n: nat, g: Host, h: Host, k: int)
    requires PointsDisjoint(digest, hosts, n)
    requires g in hosts && h in hosts && k in Points(digest, g, n) && k in Points(digest, h, n)
    ensures g == h
  {
    assert g != h ==> Points(digest, g, n) !! Points(digest, h, n);
  }

  function OwnerUp(table: Table, down: set<Host>): int -> bool {
    k => k in table && table[k] !in down
  }

  lemma ClockwiseFilter(points: seq<int>, x: int, keep: int -> bool)
    ensures Clockwise(Filter(points, keep), x) == Filter(Clockwise(points, x), keep)
  {
    FilterCommute(points, keep, Above(x));
    FilterCommute(points, keep, AtOrBelow(x));
    FilterAppend(Filter(points, Above(x)), Filter(points, AtOrBelow(x)), keep);
  }

  // Skipping the down hosts while walking equals walking only the points that are up.
  lemma {:induction false} FirstMetRestricted(table: Table, left: Table, points: seq<int>, down: set<Host>)
    requires forall i :: 0 <= i < |points| ==> points[i] in table
    requires left == Without(table, down)
    ensures var up := Filter(points, OwnerUp(table, down));
            && (forall i :: 0 <= i < |up| ==> up[i] in left)
            && FirstMet(OwnersAlong(left, up), {}) == FirstMet(OwnersAlong(table, points), down)
  {
    if points != [] {
      var front, last := points[..|points| - 1], points[|points| - 1];
      FirstMetRestricted(table, left, front, down);
      var upFront, up := Filter(front, OwnerUp(table, down)), Filter(points, OwnerUp(table, down));
      assert OwnersAlong(table, points)[..|points| - 1] == OwnersAlong(table, front);
      if table[last] in down {
        assert up == upFront;
      } else {
        assert up == upFront + [last] && last in left;
        assert OwnersAlong(left, up)[..|up| - 1] == OwnersAlong(left, upFront);
      }
    }
  }

  lemma {:induction false} ElementsCount(s: seq<Host>)
    ensures |Elements(s)| <= |s|
  {
    if s != [] {
      ElementsCount(s[..|s| - 1]);
      assert Elements(s) == Elements(s[..|s| - 1]) + {s[|s| - 1]};
    }
  }

  // Consistent hashing: skipping hosts that are down gives every key exactly the answer
  // of a ring rebuilt, in any order, without them.
  lemma IgnoringEqualsRebuilding(digest: Digest, hosts: seq<Host>, survivors: seq<Host>, down: set<Host>,
                                 requested: int, exponent: nat, x: int)
    requires PointsDisjoint(digest, Elements(hosts), Pow2(exponent))
    requires Elements(survivors) == Elements(hosts) - down
    ensures Lookup(Build(digest, hosts, requested, exponent), x, down) ==
            Lookup(Build(digest, survivors, requested, exponent), x, {})
  {
    var ring, rebuilt := Build(digest, hosts, requested, exponent), Build(digest, survivors, requested, exponent);
    PlaceDetermined(digest, hosts, survivors, down, Pow2(exponent));
    WalkRestricted(ring, rebuilt, x, down);
    SameWanted(digest, hosts, survivors, down, requested, exponent);
  }

  lemma SameWanted(digest: Digest, hosts: seq<Host>, survivors: seq<Host>, down: set<Host>,
                   requested: int, exponent: nat)
    requires Elements(survivors) == Elements(hosts) - down
    ensures Wanted(Build(digest, hosts, requested, exponent), down) ==
            Wanted(Build(digest, survivors, requested, exponent), {})
  {
    ElementsCount(hosts);
    ElementsCount(survivors);
    SubsetCount(Elements(hosts), down);
    assert Elements(survivors) - {} == Elements(hosts) - down;
  }

  lemma SubsetCount(hosts: set<Host>, down: set<Host>)
    ensures |hosts - down| <= |hosts|
  {
    assert hosts == (hosts - down) + (hosts * down);
  }

  lemma WalkRestricted(ring: Ring, rebuilt: Ring, x: int, down: set<Host>)
    requires rebuilt.table == Without(ring.table, down)
    ensures FirstMet(Walk(rebuilt, x), {}) == FirstMet(Walk(ring, x), down)
  {
    var up := OwnerUp(ring.table, down);
    assert rebuilt.table.Keys == set k | k in ring.table.Keys && up(k);
    SortedSeqFilter(ring.table.Keys, up);
    ClockwiseFilter(SortedSeq(ring.table.Keys), x, up);
    WalkPoints(ring.table, x);
    FirstMetRestricted(ring.table, rebuilt.table, Clockwise(SortedSeq(ring.table.Keys), x), down);
  }

  lemma OrderIrrelevant(digest: Digest, hosts: seq<Host>, other: seq<Host>, n: nat)
    requires PointsDisjoint(digest, Elements(hosts), n) && multiset(other) == multiset(hosts)
    ensures Place(digest, other, n) == Place(digest, hosts, n)
  {
    assert forall h :: h in other <==> h in multiset(other);
    assert forall h :: h in hosts <==> h in multiset(hosts);
    assert Elements(other) == Elements(hosts) - {};
    PlaceDetermined(digest, hosts, other, {}, n);
  }

  // Two hosts sharing a point: the one listed last gets it.
  lemma LastWriterWins(digest: Digest, hosts: seq<Host>, h: Host, k: int, n: nat)
    requires h in hosts && k in Points(digest, h, n)
    ensures var table := Place(digest, MoveLast(hosts, h), n); k in table && table[k] == h
  {
    var last := MoveLast(hosts, h);
    PlaceHostTable(digest, Place(digest, last[..|last| - 1], n), h, n);
  }

  // The table is the same for every order of the hosts exactly when no two hosts share a point.
  lemma OrderIrrelevantIffDisjoint(digest: Digest, hosts: seq<Host>, n: nat)
    ensures PointsDisjoint(digest, Elements(hosts), n) <==>
            forall other :: multiset(other) == multiset(hosts) ==> Place(digest, other, n) == Place(digest, hosts, n)
  {
    if PointsDisjoint(digest, Elements(hosts), n) {
      forall other | multiset(other) == multiset(hosts)
        ensures Place(digest, other, n) == Place(digest, hosts, n)
      {
        OrderIrrelevant(digest, hosts, other, n);
      }
    } else {
      var g, h :| g in Elements(hosts) && h in Elements(hosts) && g != h
                  && !(Points(digest, g, n) !! Points(digest, h, n));
      var k :| k in Points(digest, g, n) && k in Points(digest, h, n);
      LastWriterWins(digest, hosts, g, k, n);
      LastWriterWins(digest, hosts, h, k, n);
      assert Place(digest, MoveLast(hosts, g), n) != Place(digest, MoveLast(hosts, h), n);
    }
  }

  // Rebuilding without some hosts takes out their points and no others, for every choice of
  // hosts and every order of the rest, exactly when no two hosts share a point.
  lemma RebuildingTakesOutPointsIffDisjoint(digest: Digest, hosts: seq<Host>, n: nat)
    ensures PointsDisjoint(digest, Elements(hosts), n) <==>
            forall down, survivors :: Elements(survivors) == Elements(hosts) - down ==>
              Place(digest, survivors, n) == Without(Place(digest, hosts, n), down)
  {
    var table := Place(digest, hosts, n);
    if PointsDisjoint(digest, Elements(hosts), n) {
      forall down, survivors | Elements(survivors) == Elements(hosts) - down
        ensures Place(digest, survivors, n) == Without(table, down)
      {
        PlaceDetermined(digest, hosts, survivors, down, n);
      }
    } else {
      OrderIrrelevantIffDisjoint(digest, hosts, n);
      var other :| multiset(other) == multiset(hosts) && Place(digest, other, n) != table;
      assert forall h :: h in other <==> h in multiset(other);
      assert forall h :: h in hosts <==> h in multiset(hosts);
      assert Elements(other) == Elements(hosts) - {};
      assert Without(table, {}) == table;
    }
  }

  function MoveLast(hosts: seq<Host>, h: Host): (r: seq<Host>)
    requires h in hosts
    ensures multiset(r) == multiset(hosts)
    ensures r != [] && r[|r| - 1] == h
  {
    if hosts[0] == h then
      assert hosts == [h] + hosts[1..];
      hosts[1..] + [h]
    else
      assert hosts == [hosts[0]] + hosts[1..];
      [hosts[0]] + MoveLast(hosts[1..], h)
  }

  function NotDown(down: set<Host>): Host -> bool { h => h !in down }

  lemma {:induction false} FirstMetSkips(owners: seq<Host>, down: set<Host>)
    ensures FirstMet(owners, down) == Filter(FirstMet(owners, {}), NotDown(down))
  {
    if owners != [] {
      var front, last := owners[..|owners| - 1], owners[|owners| - 1];
      FirstMetSkips(front, down);
      FilterMembers(FirstMet(front, {}), NotDown(down));
      assert (FirstMet(front, {}) + [last])[..|FirstMet(front, {})|] == FirstMet(front, {});
    }
  }

  // Losing hosts that do not serve a key leaves the key's answer alone, if enough hosts remain:
  // only the keys of lost hosts move when the ring is rebuilt without them.
  lemma RemovalMovesOnlyServedKeys(digest: Digest, hosts: seq<Host>, survivors: seq<Host>, down: set<Host>,
                                   requested: int, exponent: nat, x: int)
    requires PointsDisjoint(digest, Elements(hosts), Pow2(exponent))
    requires Elements(survivors) == Elements(hosts) - down
    requires requested <= |Elements(survivors)|
    requires Elements(Lookup(Build(digest, hosts, requested, exponent), x, {})) !! down
    ensures Lookup(Build(digest, survivors, requested, exponent), x, {}) ==
            Lookup(Build(digest, hosts, requested, exponent), x, {})
  {
    var ring := Build(digest, hosts, requested, exponent);
    IgnoringEqualsRebuilding(digest, hosts, survivors, down, requested, exponent, x);
    ElementsCount(hosts);
    SubsetCount(ring.hosts, down);
    assert ring.hosts - {} == ring.hosts;
    FirstMetSkips(Walk(ring, x), down);
    TakeSkips(FirstMet(Walk(ring, x), {}), down, requested);
  }

  lemma TakeSkips(met: seq<Host>, down: set<Host>, k: int)
    requires Elements(Take(met, k)) !! down
    ensures Take(Filter(met, NotDown(down)), k) == Take(met, k)
  {
    var answer := Take(met, k);
    assert met == answer + met[|answer|..];
    assert forall i :: 0 <= i < |answer| ==> answer[i] in Elements(answer);
    FilterAppend(answer, met[|answer|..], NotDown(down));
    FilterAll(answer, NotDown(down));
  }

  // ---------- When point sets are disjoint ----------

  lemma DisjointRingOwnsAll(digest: Digest, hosts: seq<Host>, requested: int, exponent: nat)
    requires PointsDisjoint(digest, Elements(hosts), Pow2(exponent))
    ensures EveryHostOwnsAPoint(Build(digest, hosts, requested, exponent))
  {
    var n := Pow2(exponent);
    var table := Place(digest, hosts, n);
    PlaceOwners(digest, hosts, n);
    forall h | h in hosts ensures h in Owners(table) {
      var k := Point(digest, h, 0);
      assert k in Points(digest, h, n) && k in table;
      assert table[k] in Elements(hosts) && h in Elements(hosts);
      SharedPoint(digest, Elements(hosts), n, h, table[k], k);
    }
  }

  lemma {:induction false} RepeatTwice(s: string, m: nat, k: nat)
    ensures Repeat(Repeat(s, m), k) == Repeat(s, m * k)
  {
    if k > 0 {
      RepeatTwice(s, m, k - 1);
      RepeatSum(s, m * (k - 1), m);
      assert m * (k - 1) + m == m * k;
    }
  }

  lemma {:induction false} RepeatSum(s: string, i: nat, j: nat)
    ensures Repeat(s, i + j) == Repeat(s, i) + Repeat(s, j)
  {
    if j > 0 {
      RepeatSum(s, i, j - 1);
    }
  }

  // Whatever the digest, a host named by repeating another host's name shares a point with it.
  lemma AliasedNamesCollide(digest: Digest, hosts: set<Host>, h: Host, m: nat, n: nat)
    requires h in hosts && Repeat(h, m) in hosts && Repeat(h, m) != h
    requires m >= 1 && 2 * m - 2 < n
    ensures !PointsDisjoint(digest, hosts, n)
  {
    var g := Repeat(h, m);
    RepeatTwice(h, m, 2);
    assert Point(digest, g, 0) == Point(digest, h, 2 * m - 2);
    assert Point(digest, g, 0) in Points(digest, g, n) && Point(digest, h, 2 * m - 2) in Points(digest, h, n);
  }

  // A host listed first keeps none of the points it shares with a later one.
  lemma {:induction false} LaterTakesOver(digest: Digest, g: Host, rest: seq<Host>, n: nat, x: Host, k: int)
    requires x in rest && k in Points(digest, x, n)
    ensures k in Place(digest, [g] + rest, n) && Place(digest, [g] + rest, n)[k] in rest
  {
    var front, last := rest[..|rest| - 1], rest[|rest| - 1];
    assert rest == front + [last] && [g] + rest == [g] + front + [last];
    PlaceSnoc(digest, [g] + front, last, n);
    PlaceHostTable(digest, Place(digest, [g] + front, n), last, n);
    if k !in Points(digest, last, n) {
      LaterTakesOver(digest, g, front, n, x, k);
    }
  }

  // A name that repeats h twice feeds the digest what h and longer repetitions of it do.
  lemma DoubleCovered(digest: Digest, h: Host, n: nat, p: nat)
    requires n >= 4 && p < n
    ensures var x := if p == 0 then h else Repeat(h, p + 2);
            Point(digest, Repeat(h, 2), p) in Points(digest, x, n)
  {
    RepeatTwice(h, 2, p + 2);
    if p == 0 {
      assert Point(digest, Repeat(h, 2), 0) == Point(digest, h, 2);
    } else {
      RepeatTwice(h, p + 2, 2);
      assert Point(digest, Repeat(h, 2), p) == Point(digest, Repeat(h, p + 2), 0);
    }
  }

  // Such a ring exists for every digest: a host named h twice over, listed before h and its longer
  // repetitions, owns no point, so asking for all hosts never ends.
  lemma CrowdedRingNeverServes(digest: Digest, h: Host, rest: seq<Host>, exponent: nat)
    requires exponent >= 2 && Distinct(rest) && Repeat(h, 2) !in rest && h in rest
    requires forall q :: 3 <= q <= Pow2(exponent) + 1 ==> Repeat(h, q) in rest
    ensures !CanServe(Build(digest, [Repeat(h, 2)] + rest, |rest| + 1, exponent), {})
  {
    var n, g := Pow2(exponent), Repeat(h, 2);
    var hosts := [g] + rest;
    var table := Place(digest, hosts, n);
    assert n >= 4 by { assert Pow2(2) == 4; PowGrows(2, exponent); }
    PlaceOwners(digest, hosts, n);
    forall k | k in table ensures table[k] in rest {
      if table[k] == g {
        var p: nat :| p < n && Point(digest, g, p) == k;
        DoubleCovered(digest, h, n, p);
        LaterTakesOver(digest, g, rest, n, if p == 0 then h else Repeat(h, p + 2), k);
      }
    }
    CrowdedCount(Build(digest, hosts, |rest| + 1, exponent), g, rest);
  }

  lemma CrowdedCount(ring: Ring, g: Host, rest: seq<Host>)
    requires Distinct(rest) && g !in rest && ring.hosts == Elements([g] + rest) && ring.replicas == |rest| + 1
    requires forall k :: k in ring.table ==> ring.table[k] in rest
    ensures !CanServe(ring, {})
  {
    DistinctCount(rest);
    assert ring.hosts - {} == Elements(rest) + {g};
    assert Owners(ring.table) <= Elements(rest);
    SubsetCount(Elements(rest), Elements(rest) - LiveOwners(ring, {}));
    assert Elements(rest) - (Elements(rest) - LiveOwners(ring, {})) == LiveOwners(ring, {});
  }

  lemma {:induction false} PowGrows(a: nat, b: nat)
    requires a <= b
    ensures Pow2(a) <= Pow2(b)
  {
    if a < b {
      PowGrows(a, b - 1);
    }
  }

  // With a collision-free digest nothing else makes two hosts collide.
  lemma DisjointIffNoCommonRepetition(digest: Digest, hosts: set<Host>, n: nat)
    requires forall s, t :: digest(s) == digest(t) ==> s == t
    ensures PointsDisjoint(digest, hosts, n) <==>
            forall g, h, p: nat, q: nat :: g in hosts && h in hosts && g != h && p < n && q < n ==>
              Fed(g, p) != Fed(h, q)
  {
    if PointsDisjoint(digest, hosts, n) {
      forall g, h, p: nat, q: nat | g in hosts && h in hosts && g != h && p < n && q < n
        ensures Fed(g, p) != Fed(h, q)
      {
        assert Point(digest, g, p) in Points(digest, g, n) && Point(digest, h, q) in Points(digest, h, n);
        assert Points(digest, g, n) !! Points(digest, h, n);
      }
    } else {
      var g, h :| g in hosts && h in hosts && g != h && !(Points(digest, g, n) !! Points(digest, h, n));
      var k :| k in Points(digest, g, n) && k in Points(digest, h, n);
      var p: nat :| p < n && Point(digest, g, p) == k;
      var q: nat :| q < n && Point(digest, h, q) == k;
      assert Fed(g, p) == Fed(h, q);
    }
  }

  // ---------- When they are not ----------

  // The head of a lookup is the owner of the nearest live point above the key.
  lemma NearestFirst(ring: Ring, x: int, ignored: set<Host>, k: int)
    requires k in ring.table && x < k && ring.table[k] !in ignored && Wanted(ring, ignored) >= 1
    requires forall j :: j in ring.table && x < j < k ==> ring.table[j] in ignored
    ensures var r := Lookup(ring, x, ignored); r != [] && r[0] == ring.table[k]
  {
    WalkPoints(ring.table, x);
    var turn := Clockwise(SortedSeq(ring.table.Keys), x);
    var i := NearestIndex(ring.table, x, k);
    forall j | 0 <= j < i ensures Walk(ring, x)[j] in ignored {
      assert turn[j] in ring.table;
    }
    FirstMetHead(Walk(ring, x), ignored, i);
  }

  lemma NearestIndex(table: Table, x: int, k: int) returns (i: nat)
    requires k in table && x < k
    ensures var turn := Clockwise(SortedSeq(table.Keys), x);
            i < |turn| && turn[i] == k && forall j :: 0 <= j < i ==> x < turn[j] < k
  {
    var parts := SortedSeq(table.Keys);
    var above := Filter(parts, Above(x));
    SortedSeqFacts(table.Keys);
    FilterMembers(parts, Above(x));
    FilterAscending(parts, Above(x));
    assert k in above;
    i :| 0 <= i < |above| && above[i] == k;
    assert forall j :: 0 <= j < |above| ==> above[j] in above;
  }

  lemma {:induction false} FirstMetHead(owners: seq<Host>, ignored: set<Host>, i: nat)
    requires i < |owners| && owners[i] !in ignored && forall j :: 0 <= j < i ==> owners[j] in ignored
    ensures FirstMet(owners, ignored) != [] && FirstMet(owners, ignored)[0] == owners[i]
  {
    var front := owners[..|owners| - 1];
    if i < |front| {
      FirstMetHead(front, ignored, i);
    } else {
      NoneMet(front, ignored);
    }
  }

  lemma {:induction false} NoneMet(owners: seq<Host>, ignored: set<Host>)
    requires forall j :: 0 <= j < |owners| ==> owners[j] in ignored
    ensures FirstMet(owners, ignored) == []
  {
    if owners != [] {
      NoneMet(owners[..|owners| - 1], ignored);
    }
  }

  // The exact law. With the survivors in the order of the list, a rebuilt ring keeps every live
  // point and may regain points that a lost host had taken over. It answers every key as the
  // whole ring does exactly when each regained point belongs to the next live owner clockwise.

  function Survivors(hosts: seq<Host>, down: set<Host>): seq<Host> {
    Filter(hosts, NotDown(down))
  }

  lemma SurvivorElements(hosts: seq<Host>, down: set<Host>)
    ensures Elements(Survivors(hosts, down)) == Elements(hosts) - down
  {
    FilterMembers(hosts, NotDown(down));
  }

  predicate Regained(ring: Ring, rebuilt: Ring, down: set<Host>, k: int) {
    k in rebuilt.table && k in ring.table && ring.table[k] in down
  }

  // The first live host met when walking up from k.
  predicate NextLive(ring: Ring, down: set<Host>, k: int, h: Host) {
    var met := FirstMet(Walk(ring, k), down);
    met != [] && met[0] == h
  }

  ghost predicate RegainedFitIn(ring: Ring, rebuilt: Ring, down: set<Host>) {
    forall k :: Regained(ring, rebuilt, down, k) ==> NextLive(ring, down, k, rebuilt.table[k])
  }

  // The rebuilt table extends the live part of the whole one, on points of the whole one.
  ghost predicate Extends(table: Table, left: Table, down: set<Host>) {
    && (forall k :: k in left ==> k in table)
    && (forall k :: k in table && table[k] !in down ==> k in left && left[k] == table[k])
  }

  lemma {:induction false} SurvivorsExtend(digest: Digest, hosts: seq<Host>, down: set<Host>, n: nat)
    ensures Extends(Place(digest, hosts, n), Place(digest, Survivors(hosts, down), n), down)
  {
    if hosts != [] {
      var front, last := hosts[..|hosts| - 1], hosts[|hosts| - 1];
      SurvivorsExtend(digest, front, down, n);
      ExtendsSnoc(digest, front, last, down, n);
      assert hosts == front + [last];
    }
  }

  lemma ExtendsSnoc(digest: Digest, front: seq<Host>, last: Host, down: set<Host>, n: nat)
    requires Extends(Place(digest, front, n), Place(digest, Survivors(front, down), n), down)
    ensures Extends(Place(digest, front + [last], n), Place(digest, Survivors(front + [last], down), n), down)
  {
    var kept := Survivors(front, down);
    FilterSnoc(front, last, NotDown(down));
    PlaceSnoc(digest, front, last, n);
    PlaceSnoc(digest, kept, last, n);
    ExtendsPlaced(digest, Place(digest, front, n), Place(digest, kept, n), down, last, n);
  }

  lemma PlaceSnoc(digest: Digest, front: seq<Host>, last: Host, n: nat)
    ensures Place(digest, front + [last], n) == PlaceHost(digest, Place(digest, front, n), last, n)
  {
    assert (front + [last])[..|front|] == front;
  }

  lemma ExtendsPlaced(digest: Digest, table: Table, left: Table, down: set<Host>, last: Host, n: nat)
    requires Extends(table, left, down)
    ensures Extends(PlaceHost(digest, table, last, n),
                    if last in down then left else PlaceHost(digest, left, last, n), down)
  {
    PlaceHostTable(digest, table, last, n);
    PlaceHostTable(digest, left, last, n);
  }

  function Placed(table: Table): int -> bool { k => k in table }

  // Walking from a point of the ring: what was met before comes after the rest.
  lemma ClockwiseFrom(points: seq<int>, x: int, n: nat)
    requires Ascending(points) && n < |Clockwise(points, x)|
    ensures var turn := Clockwise(points, x); Clockwise(points, turn[n]) == turn[n + 1..] + turn[..n + 1]
  {
    var position := Bisect(points, x);
    RotationIsClockwise(points, x, position);
    assert points == points[..position] + points[position..];
    RotateFrom(points[..position], points[position..], n);
  }

  lemma RotateFrom(low: seq<int>, high: seq<int>, n: nat)
    requires Ascending(low + high) && n < |high + low|
    ensures var turn := high + low; Clockwise(low + high, turn[n]) == turn[n + 1..] + turn[..n + 1]
  {
    var m := if n < |high| then |low| + n else n - |high|;
    if n < |high| {
      RotateInHigh(low, high, n);
    } else {
      RotateInLow(low, high, m);
    }
    ClockwiseSplit(low + high, m);
  }

  lemma RotateInHigh(low: seq<int>, high: seq<int>, n: nat)
    requires n < |high|
    ensures var points, turn, m := low + high, high + low, |low| + n;
            points[m] == turn[n] && points[m + 1..] + points[..m + 1] == turn[n + 1..] + turn[..n + 1]
  {
    var points, turn, m := low + high, high + low, |low| + n;
    assert turn[..n + 1] == high[..n + 1] && turn[n + 1..] == high[n + 1..] + low;
    assert points[..m + 1] == low + high[..n + 1] && points[m + 1..] == high[n + 1..];
  }

  lemma RotateInLow(low: seq<int>, high: seq<int>, m: nat)
    requires m < |low|
    ensures var points, turn, n := low + high, high + low, |high| + m;
            points[m] == turn[n] && points[m + 1..] + points[..m + 1] == turn[n + 1..] + turn[..n + 1]
  {
    var points, turn, n := low + high, high + low, |high| + m;
    assert turn[..n + 1] == high + low[..m + 1] && turn[n + 1..] == low[m + 1..];
    assert points[..m + 1] == low[..m + 1] && points[m + 1..] == low[m + 1..] + high;
  }

  lemma ClockwiseSplit(points: seq<int>, m: nat)
    requires Ascending(points) && m < |points|
    ensures Clockwise(points, points[m]) == points[m + 1..] + points[..m + 1]
  {
    HalvesClockwise(points[..m + 1], points[m + 1..], points[m]);
    assert points[..m + 1] + points[m + 1..] == points;
  }

  // Along one turn: where the next live owner after index n stands, if it is h.
  ghost predicate Ahead(owners: seq<Host>, down: set<Host>, n: nat, h: Host) {
    exists j :: n <= j < |owners| && owners[j] == h && h !in down && forall i :: n <= i < j ==> owners[i] in down
  }

  lemma NextLiveAlong(owners: seq<Host>, down: set<Host>, n: nat, h: Host)
    requires n < |owners| && owners[n] in down
    requires var met := FirstMet(owners[n + 1..] + owners[..n + 1], down); met != [] && met[0] == h
    ensures Ahead(owners, down, n + 1, h) || h in FirstMet(owners[..n], down)
  {
    var walk := owners[n + 1..] + owners[..n + 1];
    var at := FirstMetWitness(walk, down);
    var i := at[0];
    assert walk[i] == h && h !in down && forall k :: 0 <= k < i ==> walk[k] in down;
    if i < |owners| - (n + 1) {
      assert owners[n + 1 + i] == h;
      forall k | n + 1 <= k < n + 1 + i ensures owners[k] in down {
        assert walk[k - (n + 1)] == owners[k];
      }
    } else {
      var k := i - (|owners| - (n + 1));
      assert owners[k] == h && k < n;
      assert owners[..n][k] == h;
      FirstMetOwners(owners[..n], down);
    }
  }

  // What the rebuilt walk has met by index n: the same hosts, or those and the next live owner.
  ghost predicate InPhase(met: seq<Host>, also: seq<Host>, owners: seq<Host>, down: set<Host>, n: nat) {
    also == met || exists o :: also == met + [o] && o !in met && Ahead(owners, down, n, o)
  }

  // One point further: p is the rebuilt ring's owner of it, if it has one.
  lemma PhaseStep(met: seq<Host>, also: seq<Host>, owners: seq<Host>, down: set<Host>, n: nat, p: Option<Host>)
    requires n < |owners| && InPhase(met, also, owners, down, n)
    requires owners[n] !in down ==> p == Some(owners[n])
    requires owners[n] in down && p.Some? ==> Ahead(owners, down, n + 1, p.value) || p.value in met
    ensures InPhase(if owners[n] in met || owners[n] in down then met else met + [owners[n]],
                    if p.None? || p.value in also then also else also + [p.value], owners, down, n + 1)
  {
    if also != met {
      var o :| also == met + [o] && o !in met && Ahead(owners, down, n, o);
      var j :| n <= j < |owners| && owners[j] == o && o !in down && forall i :: n <= i < j ==> owners[i] in down;
      if owners[n] !in down {
        assert j == n;
      } else if p.Some? && p.value !in met {
        AheadUnique(owners, down, n + 1, o, p.value);
      }
    }
  }

  lemma AheadUnique(owners: seq<Host>, down: set<Host>, n: nat, g: Host, h: Host)
    requires Ahead(owners, down, n, g) && Ahead(owners, down, n, h)
    ensures g == h
  {
    var i :| n <= i < |owners| && owners[i] == g && g !in down && forall k :: n <= k < i ==> owners[k] in down;
    var j :| n <= j < |owners| && owners[j] == h && h !in down && forall k :: n <= k < j ==> owners[k] in down;
    assert i == j;
  }

  // The points that are in a table.
  function Kept(points: seq<int>, table: Table): (kept: seq<int>)
    ensures forall i :: 0 <= i < |kept| ==> kept[i] in table
  {
    FilterMembers(points, Placed(table));
    var kept := Filter(points, Placed(table));
    assert forall i :: 0 <= i < |kept| ==> kept[i] in kept;
    kept
  }

  // What the rebuilt ring's walk meets along some points of the whole ring.
  function RebuiltMet(left: Table, points: seq<int>): seq<Host> {
    FirstMet(OwnersAlong(left, Kept(points, left)), {})
  }

  lemma RebuiltMetSnoc(left: Table, points: seq<int>, k: int)
    ensures RebuiltMet(left, points + [k]) ==
            if k in left && left[k] !in RebuiltMet(left, points) then RebuiltMet(left, points) + [left[k]]
            else RebuiltMet(left, points)
  {
    FilterSnoc(points, k, Placed(left));
    if k in left {
      var before, after := Kept(points, left), Kept(points + [k], left);
      assert OwnersAlong(left, after) == OwnersAlong(left, before) + [left[k]];
      assert OwnersAlong(left, after)[..|before|] == OwnersAlong(left, before);
    }
  }

  // The rebuilt ring's owner of the i-th point, if any, is the live owner there or the next one.
  ghost predicate FitsAt(owners: seq<Host>, left: Table, down: set<Host>, turn: seq<int>, i: nat)
    requires i < |turn| == |owners|
  {
    if owners[i] in down then
      turn[i] in left ==>
        Ahead(owners, down, i + 1, left[turn[i]]) || left[turn[i]] in FirstMet(owners[..i], down)
    else turn[i] in left && left[turn[i]] == owners[i]
  }

  // Along one turn the rebuilt ring's walk stays in phase with the whole ring's.
  lemma {:induction false} PhaseAlong(owners: seq<Host>, left: Table, down: set<Host>, turn: seq<int>, n: nat)
    requires n <= |turn| == |owners|
    requires forall i :: 0 <= i < |turn| ==> FitsAt(owners, left, down, turn, i)
    ensures InPhase(FirstMet(owners[..n], down), RebuiltMet(left, turn[..n]), owners, down, n)
  {
    if n == 0 {
      assert Kept(turn[..0], left) == [];
    } else {
      var k := turn[n - 1];
      assert FitsAt(owners, left, down, turn, n - 1);
      PhaseAlong(owners, left, down, turn, n - 1);
      assert turn[..n] == turn[..n - 1] + [k];
      assert owners[..n] == owners[..n - 1] + [owners[n - 1]];
      RebuiltMetSnoc(left, turn[..n - 1], k);
      FirstMetSnoc(owners[..n - 1], owners[n - 1], down);
      PhaseStep(FirstMet(owners[..n - 1], down), RebuiltMet(left, turn[..n - 1]), owners, down, n - 1,
                if k in left then Some(left[k]) else None);
    }
  }

  lemma RegainedWalk(ring: Ring, rebuilt: Ring, down: set<Host>, x: int)
    requires Extends(ring.table, rebuilt.table, down) && RegainedFitIn(ring, rebuilt, down)
    ensures FirstMet(Walk(rebuilt, x), {}) == FirstMet(Walk(ring, x), down)
  {
    var parts := SortedSeq(ring.table.Keys);
    var turn := Clockwise(parts, x);
    WalkPoints(ring.table, x);
    var owners := OwnersAlong(ring.table, turn);
    forall i | 0 <= i < |turn| ensures FitsAt(owners, rebuilt.table, down, turn, i) {
      if owners[i] in down && turn[i] in rebuilt.table {
        assert Regained(ring, rebuilt, down, turn[i]);
        WalkFrom(ring, x, i);
        NextLiveAlong(owners, down, i, rebuilt.table[turn[i]]);
      }
    }
    PhaseAlong(owners, rebuilt.table, down, turn, |turn|);
    assert turn[..|turn|] == turn && owners[..|turn|] == owners;
    assert forall k :: k in rebuilt.table.Keys ==> k in ring.table.Keys;
    WalkRebuilt(ring, rebuilt, x);
  }

  lemma WalkFrom(ring: Ring, x: int, n: nat)
    requires var turn := Clockwise(SortedSeq(ring.table.Keys), x); n < |turn|
    ensures var turn := Clockwise(SortedSeq(ring.table.Keys), x);
            |Walk(ring, x)| == |turn| && Walk(ring, turn[n]) == Walk(ring, x)[n + 1..] + Walk(ring, x)[..n + 1]
  {
    var turn := Clockwise(SortedSeq(ring.table.Keys), x);
    WalkPoints(ring.table, x);
    WalkPoints(ring.table, turn[n]);
    ClockwiseFrom(SortedSeq(ring.table.Keys), x, n);
    OwnersRotated(ring.table, turn, turn[n + 1..] + turn[..n + 1], n);
  }

  lemma OwnersRotated(table: Table, turn: seq<int>, turned: seq<int>, n: nat)
    requires n < |turn| && turned == turn[n + 1..] + turn[..n + 1]
    requires forall i :: 0 <= i < |turn| ==> turn[i] in table
    requires forall i :: 0 <= i < |turned| ==> turned[i] in table
    ensures OwnersAlong(table, turned) == OwnersAlong(table, turn)[n + 1..] + OwnersAlong(table, turn)[..n + 1]
  {
  }

  lemma WalkRebuilt(ring: Ring, rebuilt: Ring, x: int)
    requires rebuilt.table.Keys <= ring.table.Keys
    ensures Walk(rebuilt, x) ==
            OwnersAlong(rebuilt.table, Kept(Clockwise(SortedSeq(ring.table.Keys), x), rebuilt.table))
  {
    var placed := Placed(rebuilt.table);
    assert rebuilt.table.Keys == set k | k in ring.table.Keys && placed(k);
    SortedSeqFilter(ring.table.Keys, placed);
    ClockwiseFilter(SortedSeq(ring.table.Keys), x, placed);
    WalkPoints(rebuilt.table, x);
  }

  // From the point before a regained one, the rebuilt ring answers with the regained point's owner
  // and the whole ring with the next live owner.
  lemma RegainedDecides(ring: Ring, rebuilt: Ring, down: set<Host>, k: int, before: int)
    requires Extends(ring.table, rebuilt.table, down) && Regained(ring, rebuilt, down, k)
    requires Precedes(ring.table, before, k)
    requires Wanted(ring, down) >= 1 && Wanted(rebuilt, {}) >= 1
    requires Lookup(ring, before, down) == Lookup(rebuilt, before, {})
    ensures NextLive(ring, down, k, rebuilt.table[k])
  {
    RebuiltFrom(ring, rebuilt, k, before);
    var rest := WalkFromBefore(ring, k, before);
    FirstMetAround(ring.table[k], rest, down);
  }

  // `before` is the point of the table met last when walking up to k; it is k itself if there is
  // no other.
  predicate Precedes(table: Table, before: int, k: int) {
    var points := SortedSeq(table.Keys);
    before in table && k in table && Clockwise(points, before) != [] && Clockwise(points, before)[0] == k
  }

  lemma PointBefore(table: Table, k: int) returns (before: int)
    requires k in table
    ensures Precedes(table, before, k)
  {
    var points := SortedSeq(table.Keys);
    WalkPoints(table, k);
    SortedSeqFacts(table.Keys);
    var m :| 0 <= m < |points| && points[m] == k;
    var b := if m == 0 then |points| - 1 else m - 1;
    before := points[b];
    ClockwiseSplit(points, b);
    assert before in points;
  }

  // A walk from the preceding point begins with the owner of k, and one from k ends with it.
  lemma WalkFromBefore(ring: Ring, k: int, before: int) returns (rest: seq<Host>)
    requires Precedes(ring.table, before, k)
    ensures Walk(ring, before) == [ring.table[k]] + rest && Walk(ring, k) == rest + [ring.table[k]]
  {
    WalkPoints(ring.table, before);
    WalkFrom(ring, before, 0);
    var owners := Walk(ring, before);
    rest := owners[1..];
    assert owners[0] == ring.table[k] && owners == [owners[0]] + owners[1..] && owners[..1] == [owners[0]];
  }

  lemma RebuiltFrom(ring: Ring, rebuilt: Ring, k: int, before: int)
    requires rebuilt.table.Keys <= ring.table.Keys && Precedes(ring.table, before, k) && k in rebuilt.table
    requires Wanted(rebuilt, {}) >= 1
    ensures Lookup(rebuilt, before, {}) != [] && Lookup(rebuilt, before, {})[0] == rebuilt.table[k]
  {
    WalkRebuilt(ring, rebuilt, before);
    KeptHead(Clockwise(SortedSeq(ring.table.Keys), before), rebuilt.table);
    FirstMetHead(Walk(rebuilt, before), {}, 0);
  }

  lemma {:induction false} KeptHead(points: seq<int>, table: Table)
    requires points != [] && points[0] in table
    ensures Kept(points, table) != [] && Kept(points, table)[0] == points[0]
  {
    if |points| == 1 {
      assert points == [] + [points[0]];
      FilterSnoc([], points[0], Placed(table));
    } else {
      KeptHead(points[..|points| - 1], table);
    }
  }

  // An ignored host at either end of a walk makes no difference.
  lemma FirstMetAround(h: Host, rest: seq<Host>, ignored: set<Host>)
    requires h in ignored
    ensures FirstMet([h] + rest, ignored) == FirstMet(rest + [h], ignored)
  {
    FirstMetSnoc(rest, h, ignored);
    FirstMetFront(h, rest, ignored);
  }

  lemma {:induction false} FirstMetFront(h: Host, rest: seq<Host>, ignored: set<Host>)
    requires h in ignored
    ensures FirstMet([h] + rest, ignored) == FirstMet(rest, ignored)
  {
    var walk := [h] + rest;
    if rest == [] {
      assert walk[..0] == [];
    } else {
      FirstMetFront(h, rest[..|rest| - 1], ignored);
      assert walk[..|walk| - 1] == [h] + rest[..|rest| - 1];
    }
  }

  lemma FirstMetSnoc(front: seq<Host>, h: Host, ignored: set<Host>)
    ensures FirstMet(front + [h], ignored) ==
            if h in FirstMet(front, ignored) || h in ignored then FirstMet(front, ignored)
            else FirstMet(front, ignored) + [h]
  {
    assert (front + [h])[..|front|] == front;
  }

  // Ignoring hosts equals rebuilding without them, for every key and every number of replicas,
  // exactly when every regained point belongs to the next live owner. (A key that shows the
  // difference is the text whose digest is the point before the regained one.)
  lemma IgnoringEqualsRebuildingIff(digest: Digest, hosts: seq<Host>, down: set<Host>, exponent: nat)
    ensures RegainedFitIn(Build(digest, hosts, 1, exponent),
                          Build(digest, Survivors(hosts, down), 1, exponent), down) <==>
            forall requested, key: string ::
              Lookup(Build(digest, hosts, requested, exponent), digest(key), down) ==
              Lookup(Build(digest, Survivors(hosts, down), requested, exponent), digest(key), {})
  {
    var survivors := Survivors(hosts, down);
    SurvivorsExtend(digest, hosts, down, Pow2(exponent));
    SurvivorElements(hosts, down);
    var ring, rebuilt := Build(digest, hosts, 1, exponent), Build(digest, survivors, 1, exponent);
    if RegainedFitIn(ring, rebuilt, down) {
      forall requested, key: string
        ensures Lookup(Build(digest, hosts, requested, exponent), digest(key), down) ==
                Lookup(Build(digest, survivors, requested, exponent), digest(key), {})
      {
        RegainedWalk(ring, rebuilt, down, digest(key));
        SameWanted(digest, hosts, survivors, down, requested, exponent);
        assert Walk(Build(digest, hosts, requested, exponent), digest(key)) == Walk(ring, digest(key));
        assert Walk(Build(digest, survivors, requested, exponent), digest(key)) == Walk(rebuilt, digest(key));
      }
    } else {
      var k :| Regained(ring, rebuilt, down, k) && !NextLive(ring, down, k, rebuilt.table[k]);
      var key := DifferingKey(digest, hosts, down, exponent, k);
    }
  }

  lemma DifferingKey(digest: Digest, hosts: seq<Host>, down: set<Host>, exponent: nat, k: int) returns (key: string)
    requires var ring, rebuilt := Build(digest, hosts, 1, exponent), Build(digest, Survivors(hosts, down), 1, exponent);
             Regained(ring, rebuilt, down, k) && !NextLive(ring, down, k, rebuilt.table[k])
    ensures Lookup(Build(digest, hosts, 1, exponent), digest(key), down) !=
            Lookup(Build(digest, Survivors(hosts, down), 1, exponent), digest(key), {})
  {
    var survivors := Survivors(hosts, down);
    var ring, rebuilt := Build(digest, hosts, 1, exponent), Build(digest, survivors, 1, exponent);
    SurvivorsExtend(digest, hosts, down, Pow2(exponent));
    SurvivorElements(hosts, down);
    RegainedOwner(digest, survivors, Pow2(exponent), k);
    SameWanted(digest, hosts, survivors, down, 1, exponent);
    WantsSome(rebuilt, {}, rebuilt.table[k]);
    var before := PointBefore(ring.table, k);
    key := TextOfPoint(digest, hosts, Pow2(exponent), before);
    if Lookup(ring, before, down) == Lookup(rebuilt, before, {}) {
      RegainedDecides(ring, rebuilt, down, k, before);
    }
  }

  // Every point of a ring is the digest of a text.
  lemma TextOfPoint(digest: Digest, hosts: seq<Host>, n: nat, k: int) returns (key: string)
    requires k in Place(digest, hosts, n)
    ensures digest(key) == k
  {
    PlaceOwners(digest, hosts, n);
    var owner := Place(digest, hosts, n)[k];
    var p: nat :| p < n && Point(digest, owner, p) == k;
    key := Fed(owner, p);
  }

  // Then also one lookup ends exactly when the other does.
  lemma FittingInServesAlike(digest: Digest, hosts: seq<Host>, down: set<Host>, requested: int, exponent: nat)
    requires RegainedFitIn(Build(digest, hosts, 1, exponent), Build(digest, Survivors(hosts, down), 1, exponent), down)
    ensures CanServe(Build(digest, hosts, requested, exponent), down) <==>
            CanServe(Build(digest, Survivors(hosts, down), requested, exponent), {})
  {
    var ring, rebuilt := Build(digest, hosts, 1, exponent), Build(digest, Survivors(hosts, down), 1, exponent);
    SurvivorsExtend(digest, hosts, down, Pow2(exponent));
    SurvivorElements(hosts, down);
    RegainedWalk(ring, rebuilt, down, 0);
    WalkMeetsLiveOwners(ring, 0, down);
    WalkMeetsLiveOwners(rebuilt, 0, {});
    SameWanted(digest, hosts, Survivors(hosts, down), down, requested, exponent);
  }

  lemma RegainedOwner(digest: Digest, survivors: seq<Host>, n: nat, k: int)
    requires k in Place(digest, survivors, n)
    ensures Place(digest, survivors, n)[k] in Elements(survivors) && |survivors| >= 1
  {
    PlaceOwners(digest, survivors, n);
  }

  // A shared point breaks the law, whatever the order of the survivors. If h overwrote g's point k
  // and the next point clockwise belongs to a third host, then a key whose digest is the point
  // before k goes to that host while h is ignored, but to an owner of k once the ring is rebuilt
  // without h.
  lemma CollisionBreaksConsistency(digest: Digest, hosts: seq<Host>, survivors: seq<Host>, g: Host, h: Host,
                                   k: int, next: int, requested: int, exponent: nat) returns (key: string)
    requires Elements(survivors) == Elements(hosts) - {h} && requested >= 1
    requires g in hosts && g != h && k in Points(digest, g, Pow2(exponent))
    requires var table := Place(digest, hosts, Pow2(exponent));
             && Precedes(table, k, next) && table[k] == h && table[next] != h
             && k !in Points(digest, table[next], Pow2(exponent))
    ensures Lookup(Build(digest, hosts, requested, exponent), digest(key), {h}) !=
            Lookup(Build(digest, survivors, requested, exponent), digest(key), {})
  {
    var ring, rebuilt := Build(digest, hosts, requested, exponent), Build(digest, survivors, requested, exponent);
    assert g in Elements(survivors);
    var before := PointBefore(ring.table, k);
    key := TextOfPoint(digest, hosts, Pow2(exponent), before);
    WantsSome(ring, {h}, g);
    WholeHead(ring, h, k, next, before);
    SurvivorPoints(digest, hosts, survivors, g, k, Pow2(exponent));
    WantsSome(rebuilt, {}, g);
    RebuiltFrom(ring, rebuilt, k, before);
  }

  lemma SurvivorPoints(digest: Digest, hosts: seq<Host>, survivors: seq<Host>, g: Host, k: int, n: nat)
    requires Elements(survivors) <= Elements(hosts) && g in Elements(survivors) && k in Points(digest, g, n)
    ensures Place(digest, survivors, n).Keys <= Place(digest, hosts, n).Keys
    ensures k in Place(digest, survivors, n) && k in Points(digest, Place(digest, survivors, n)[k], n)
  {
    PlaceOwners(digest, hosts, n);
    PlaceOwners(digest, survivors, n);
    forall j | j in Place(digest, survivors, n) ensures j in Place(digest, hosts, n) {
      assert Place(digest, survivors, n)[j] in Elements(survivors);
      assert Place(digest, survivors, n)[j] in Elements(hosts);
    }
  }

  // When the owner of a point is ignored, a key just before it goes to the owner of the next one.
  lemma WholeHead(ring: Ring, h: Host, k: int, next: int, before: int)
    requires Wanted(ring, {h}) >= 1 && Precedes(ring.table, before, k) && Precedes(ring.table, k, next)
    requires ring.table[k] == h && ring.table[next] != h
    ensures var answer := Lookup(ring, before, {h}); answer != [] && answer[0] == ring.table[next]
  {
    var rest := WalkFromBefore(ring, k, before);
    var after := WalkFromBefore(ring, next, k);
    SecondOwner(Walk(ring, before), h, ring.table[next], rest, after);
    FirstMetHead(Walk(ring, before), {h}, 1);
  }

  lemma SecondOwner(walk: seq<Host>, h: Host, g: Host, rest: seq<Host>, after: seq<Host>)
    requires g != h && walk == [h] + rest && rest + [h] == [g] + after
    ensures |walk| > 1 && walk[0] == h && walk[1] == g
  {
    assert (rest + [h])[0] == g;
  }

  lemma WantsSome(ring: Ring, ignored: set<Host>, g: Host)
    requires ring.replicas >= 1 && g in ring.hosts && g !in ignored
    ensures Wanted(ring, ignored) >= 1
  {
    assert g in ring.hosts - ignored;
  }
}
