/** The conductor's pool of public ports (iotronic/conductor/endpoints.py).

    Free ports are cached in a list that is rebuilt from the exposed-service rows when it runs
    empty. A drawn port is in flight until its row is created or its handler gives up. */
module PortPool {
  import opened Collections

  type Port = int
  type Board = string
  type RowId = int
  type TaskId = int

  datatype Service = Plain(name: string) | Web | WebSsl

  // An exposed-service row, or the same data while its port is still in flight.
  datatype Exposure = Exposure(board: Board, service: Service, port: Port)

  // `lost` records ports that are in none of the other places: drawn and never recorded,
  // or recorded and deleted without being given back.
  datatype Pool = Pool(lo: int, hi: int, free: seq<Port>, rows: map<RowId, Exposure>,
                       claims: map<TaskId, Exposure>, lost: set<Port>)

  // ---------- The list operations ----------

  // range(lo, hi); the configuration gives lo = service_port_min + 1, hi = service_port_max - 1.
  function Range(lo: int, hi: int): (r: set<Port>)
    ensures forall p :: p in r <==> lo <= p < hi
    decreases hi - lo
  {
    if lo < hi then Range(lo, hi - 1) + {hi - 1} else {}
  }

  function PortsOf(m: map<int, Exposure>): set<Port> {
    set k | k in m :: m[k].port
  }

  // The cache as random_public_port finds or rebuilds it.
  function Refilled(free: seq<Port>, lo: int, hi: int, exposed: set<Port>): seq<Port> {
    if free != [] then free else SortedSeq(Range(lo, hi) - exposed)
  }

  class PortCache {
    var servicePortList: seq<Port>

    method RandomPublicPort(lo: int, hi: int, exposed: set<Port>) returns (port: Option<Port>)
      modifies this
      ensures var list := Refilled(old(servicePortList), lo, hi, exposed);
              if list == [] then port == None && servicePortList == []
              else port.Some? && port.value in list && servicePortList == RemoveFirst(list, port.value)
    {
      if servicePortList == [] {
        servicePortList := SortedSeq(Range(lo, hi) - exposed);
      }
      if |servicePortList| == 0 {
        return None;
      }
      var i: nat :| i < |servicePortList|;
      var num := servicePortList[i];
      servicePortList := RemoveFirst(servicePortList, num);
      port := Some(num);
    }

    // The two draws of enable_webservice, made before either port has a row.
    method DrawWebservicePorts(lo: int, hi: int, exposed: set<Port>)
      returns (https: Option<Port>, http: Option<Port>)
      modifies this
      ensures var list := Refilled(old(servicePortList), lo, hi, exposed);
              if list == [] then https == None && http == None && servicePortList == []
              else
                && https.Some? && https.value in list
                && var list' := Refilled(RemoveFirst(list, https.value), lo, hi, exposed);
                   if list' == [] then http == None && servicePortList == []
                   else http.Some? && http.value in list' && servicePortList == RemoveFirst(list', http.value)
    {
      https := RandomPublicPort(lo, hi, exposed);
      http := RandomPublicPort(lo, hi, exposed);
    }
  }

  // ---------- Steps ----------

  datatype Event =
    | Draw(task: TaskId, board: Board, service: Service, port: Port)
    | Commit(task: TaskId, row: RowId)
    | Abandon(task: TaskId)
    | Release(row: RowId)
    | Drop(row: RowId)

  // A rebuild also brings back the lost ports: it starts from the whole range.
  function Refill(s: Pool): Pool {
    if s.free != [] then s
    else s.(free := Refilled(s.free, s.lo, s.hi, PortsOf(s.rows)), lost := {})
  }

  // A draw from an empty pool yields nothing; any other draw yields a listed port.
  predicate Enabled(s: Pool, e: Event) {
    match e
    case Draw(t, _, _, p) => t !in s.claims && (p in Refill(s).free || Refill(s).free == [])
    case Commit(t, r) => t in s.claims && r !in s.rows
    case Abandon(t) => t in s.claims
    case Release(r) => r in s.rows
    case Drop(r) => r in s.rows
  }

  function Step(s: Pool, e: Event): Pool {
    if !Enabled(s, e) then s else
    match e
    case Draw(t, b, v, p) =>
      var s1 := Refill(s);
      if s1.free == [] then s1
      else s1.(free := RemoveFirst(s1.free, p), claims := s1.claims[t := Exposure(b, v, p)])
    case Commit(t, r) => s.(claims := s.claims - {t}, rows := s.rows[r := s.claims[t]])
    case Abandon(t) => s.(claims := s.claims - {t}, lost := s.lost + {s.claims[t].port})
    case Release(r) => s.(free := s.free + [s.rows[r].port], rows := s.rows - {r})
    case Drop(r) => s.(rows := s.rows - {r}, lost := s.lost + {s.rows[r].port})
  }

  // The rebuild branch fires only when no drawn port awaits its row.
  predicate Guarded(s: Pool, e: Event) {
    e.Draw? && Enabled(s, e) ==> s.free != [] || s.claims == map[]
  }

  // ---------- Conservation ----------

  ghost predicate Injective(m: map<int, Exposure>) {
    forall k, k' :: k in m && k' in m && m[k].port == m[k'].port ==> k == k'
  }

  // Free, exposed, in-flight and lost ports partition the range, each port in one place once.
  ghost predicate Conserved(s: Pool) {
    && Distinct(s.free) && Injective(s.rows) && Injective(s.claims)
    && Elements(s.free) !! PortsOf(s.rows) !! PortsOf(s.claims) !! s.lost
    && Elements(s.free) + PortsOf(s.rows) + PortsOf(s.claims) + s.lost == Range(s.lo, s.hi)
  }

  lemma NothingClaimed(claims: map<TaskId, Exposure>)
    ensures claims == map[] || exists t :: t in claims
    ensures claims == map[] <==> PortsOf(claims) == {}
  {
    if forall t :: t !in claims {
      assert claims == map[];
    } else {
      var t :| t in claims;
      assert claims[t].port in PortsOf(claims);
    }
  }

  // The rebuild is harmless exactly when nothing is in flight.
  lemma RefillConserves(s: Pool)
    requires Conserved(s)
    ensures Conserved(Refill(s)) <==> s.free != [] || s.claims == map[]
    ensures s.free == [] ==> Elements(Refill(s).free) == Range(s.lo, s.hi) - PortsOf(s.rows)
  {
    if s.free == [] {
      var s1 := Refill(s);
      SortedSeqFacts(Range(s.lo, s.hi) - PortsOf(s.rows));
      assert Elements(s1.free) == Range(s.lo, s.hi) - PortsOf(s.rows);
      NothingClaimed(s.claims);
      if s.claims != map[] {
        var t :| t in s.claims;
        assert s.claims[t].port in PortsOf(s.claims) && s.claims[t].port in Elements(s1.free);
      }
    }
  }

  lemma TakeConserves(s: Pool, t: TaskId, x: Exposure)
    requires Conserved(s) && t !in s.claims && x.port in s.free
    ensures Conserved(s.(free := RemoveFirst(s.free, x.port), claims := s.claims[t := x]))
  {
    var s' := s.(free := RemoveFirst(s.free, x.port), claims := s.claims[t := x]);
    RemoveFirstDistinct(s.free, x.port);
    assert x.port in Elements(s.free);
    PortsUpdate(s.claims, t, x);
    assert forall k :: k in s.claims ==> s.claims[k].port in PortsOf(s.claims);
  }

  lemma PortsUpdate(m: map<int, Exposure>, k: int, x: Exposure)
    requires k !in m
    ensures PortsOf(m[k := x]) == PortsOf(m) + {x.port}
  {
    assert m[k := x][k] == x;
    assert forall j :: j in m ==> m[k := x][j] == m[j];
    forall p | p in PortsOf(m) + {x.port} ensures p in PortsOf(m[k := x]) {
      if p != x.port {
        var j :| j in m && m[j].port == p;
        assert m[k := x][j].port == p;
      }
    }
  }

  lemma PortsRemove(m: map<int, Exposure>, k: int)
    requires k in m && Injective(m)
    ensures PortsOf(m - {k}) == PortsOf(m) - {m[k].port}
  {
    forall p | p in PortsOf(m) - {m[k].port} ensures p in PortsOf(m - {k}) {
      var j :| j in m && m[j].port == p;
      assert j in m - {k} && (m - {k})[j].port == p;
    }
  }

  // One step keeps conservation exactly when a rebuild, if it happens, meets nothing in flight.
  lemma StepConservesIff(s: Pool, e: Event)
    requires Conserved(s)
    ensures Conserved(Step(s, e)) <==> Guarded(s, e)
  {
    if !Enabled(s, e) {
    } else {
      match e
      case Draw(t, b, v, p) => DrawConservesIff(s, t, Exposure(b, v, p));
      case Commit(t, r) =>
        PortsUpdate(s.rows, r, s.claims[t]);
        PortsRemove(s.claims, t);
        assert s.claims[t].port in PortsOf(s.claims);
        assert forall k :: k in s.rows ==> s.rows[k].port in PortsOf(s.rows);
      case Abandon(t) =>
        PortsRemove(s.claims, t);
        assert s.claims[t].port in PortsOf(s.claims);
      case Release(r) =>
        PortsRemove(s.rows, r);
        var p := s.rows[r].port;
        assert p in PortsOf(s.rows) && p !in Elements(s.free);
        assert Elements(s.free + [p]) == Elements(s.free) + {p};
      case Drop(r) =>
        PortsRemove(s.rows, r);
        assert s.rows[r].port in PortsOf(s.rows);
    }
  }

  lemma DrawConservesIff(s: Pool, t: TaskId, x: Exposure)
    requires Conserved(s) && Enabled(s, Draw(t, x.board, x.service, x.port))
    ensures Conserved(Step(s, Draw(t, x.board, x.service, x.port))) <==> s.free != [] || s.claims == map[]
  {
    var s1 := Refill(s);
    RefillConserves(s);
    if s.free != [] || s.claims == map[] {
      if s1.free != [] {
        TakeConserves(s1, t, x);
      }
    } else {
      // Some in-flight port is on the rebuilt list: it stays there or is now claimed twice.
      NothingClaimed(s.claims);
      var k :| k in s.claims;
      var p := s.claims[k].port;
      assert p in PortsOf(s.claims);
      assert p in Elements(s1.free);
      var s' := Step(s, Draw(t, x.board, x.service, x.port));
      RemoveOther(s1.free, x.port, p);
      assert k in s'.claims && s'.claims[k].port in PortsOf(s'.claims);
      if p == x.port {
        assert t in s'.claims && s'.claims[t].port == s'.claims[k].port;
      } else {
        assert p in Elements(s'.free);
      }
    }
  }

  lemma {:induction false} RemoveOther(s: seq<Port>, x: Port, p: Port)
    ensures p != x && p in s ==> p in RemoveFirst(s, x)
  {
    if s != [] && p != x && p in s {
      assert s == [s[0]] + s[1..];
      RemoveOther(s[1..], x, p);
    }
  }

  // A released port can be drawn at once. One that was dropped or given up comes back only with a
  // rebuild, which finds it unless the list still holds ports.
  lemma WhatComesBack(s: Pool, t: TaskId, b: Board, v: Service)
    requires Conserved(s) && t !in s.claims
    ensures forall r :: r in s.rows ==>
              && Enabled(Step(s, Release(r)), Draw(t, b, v, s.rows[r].port))
              && (Enabled(Step(s, Drop(r)), Draw(t, b, v, s.rows[r].port)) <==> s.free == [])
    ensures forall u :: u in s.claims ==>
              (Enabled(Step(s, Abandon(u)), Draw(t, b, v, s.claims[u].port)) <==> s.free == [])
  {
    forall r | r in s.rows
      ensures Enabled(Step(s, Release(r)), Draw(t, b, v, s.rows[r].port))
      ensures Enabled(Step(s, Drop(r)), Draw(t, b, v, s.rows[r].port)) <==> s.free == []
    {
      PortsRemove(s.rows, r);
      assert s.rows[r].port in PortsOf(s.rows);
      ComesBack(s, Step(s, Drop(r)), s.rows[r].port);
    }
    forall u | u in s.claims ensures Enabled(Step(s, Abandon(u)), Draw(t, b, v, s.claims[u].port)) <==> s.free == [] {
      assert s.claims[u].port in PortsOf(s.claims);
      ComesBack(s, Step(s, Abandon(u)), s.claims[u].port);
    }
  }

  lemma ComesBack(s: Pool, s': Pool, p: Port)
    requires Conserved(s) && p in Range(s.lo, s.hi) && p !in Elements(s.free)
    requires s'.free == s.free && s'.lo == s.lo && s'.hi == s.hi && p !in PortsOf(s'.rows)
    ensures p in Refill(s').free <==> s.free == []
    ensures s.free == [] ==> Refill(s').free != []
  {
    if s.free == [] {
      SortedSeqFacts(Range(s'.lo, s'.hi) - PortsOf(s'.rows));
    }
  }

  // ---------- Main results, over every run ----------

  function Run(s: Pool, events: seq<Event>): Pool {
    if events == [] then s else Step(Run(s, events[..|events| - 1]), events[|events| - 1])
  }

  predicate AllGuarded(s: Pool, events: seq<Event>) {
    events == [] ||
    var front := events[..|events| - 1];
    AllGuarded(s, front) && Guarded(Run(s, front), events[|events| - 1])
  }

  // Conserved at the end and at every point before.
  ghost predicate ConservedThroughout(s: Pool, events: seq<Event>) {
    Conserved(Run(s, events)) && (events == [] || ConservedThroughout(s, events[..|events| - 1]))
  }

  // A run conserves the ports throughout exactly when no rebuild in it meets a port in flight.
  lemma {:induction false} RunConservesIff(s: Pool, events: seq<Event>)
    requires Conserved(s)
    ensures ConservedThroughout(s, events) <==> AllGuarded(s, events)
  {
    if events != [] {
      var front := events[..|events| - 1];
      RunConservesIff(s, front);
      if ConservedThroughout(s, front) {
        StepConservesIff(Run(s, front), events[|events| - 1]);
      }
    }
  }

  // In particular no two exposed services share a public port, and counting ports finds them all.
  lemma ExposedPortsAreDistinct(s: Pool, events: seq<Event>)
    requires Conserved(s) && AllGuarded(s, events)
    ensures var s' := Run(s, events);
            && (forall r, r' :: r in s'.rows && r' in s'.rows && r != r' ==> s'.rows[r].port != s'.rows[r'].port)
            && |s'.free| + |s'.rows| + |s'.claims| + |s'.lost| == |Range(s'.lo, s'.hi)|
  {
    RunConservesIff(s, events);
    var s' := Run(s, events);
    PortCount(s'.rows);
    PortCount(s'.claims);
    DistinctCount(s'.free);
    assert |Elements(s'.free) + PortsOf(s'.rows)| == |s'.free| + |s'.rows|;
    assert |Elements(s'.free) + PortsOf(s'.rows) + PortsOf(s'.claims)| == |s'.free| + |s'.rows| + |s'.claims|;
  }

  lemma {:induction false} PortCount(m: map<int, Exposure>)
    requires Injective(m)
    ensures |PortsOf(m)| == |m|
    decreases |m|
  {
    NothingClaimed(m);
    if m != map[] {
      var k :| k in m;
      OneFewer(m, k);
      PortCount(m - {k});
    }
  }

  lemma OneFewer(m: map<int, Exposure>, k: int)
    requires Injective(m) && k in m
    ensures Injective(m - {k}) && |m| == |m - {k}| + 1 && |PortsOf(m)| == |PortsOf(m - {k})| + 1
  {
    PortsRemove(m, k);
    assert m.Keys == (m - {k}).Keys + {k};
    assert m[k].port in PortsOf(m);
    assert PortsOf(m) == PortsOf(m - {k}) + {m[k].port};
  }

  // enable_webservice draws twice before recording either port. Whatever it draws, conservation
  // survives exactly when the list its first draw chooses from does not hold a single port.
  lemma DoubleDrawConservesIff(s: Pool, first: Event, second: Event)
    requires Conserved(s) && first.Draw? && second.Draw? && first.task != second.task
    requires Enabled(s, first) && Guarded(s, first) && Enabled(Step(s, first), second)
    ensures Conserved(Step(Step(s, first), second)) <==> |Refill(s).free| != 1
  {
    var s1 := Step(s, first);
    StepConservesIff(s, first);
    StepConservesIff(s1, second);
    RefillConserves(s);
    if Refill(s).free != [] {
      RemoveFirstLength(Refill(s).free, first.port);
      assert first.task in s1.claims;
    }
  }

  lemma {:induction false} RemoveFirstLength(s: seq<Port>, x: Port)
    requires x in s
    ensures |RemoveFirst(s, x)| == |s| - 1
  {
    if s[0] != x {
      assert x in s[1..];
      RemoveFirstLength(s[1..], x);
    }
  }

  // With one port left altogether, the second draw hands out the first one again.
  lemma LastPortIsDrawnTwice(s: Pool, first: Event, second: Event)
    requires Conserved(s) && first.Draw? && second.Draw? && first.task != second.task
    requires s.claims == map[] && |Refill(s).free| == 1 && Refill(s).lost == {}
    requires Enabled(s, first) && Enabled(Step(s, first), second)
    ensures second.port == first.port
    ensures var s' := Step(Step(s, first), second);
            first.task in s'.claims && second.task in s'.claims &&
            s'.claims[first.task].port == s'.claims[second.task].port
  {
    var s1 := Step(s, first);
    RefillConserves(s);
    StepConservesIff(s, first);
    RemoveFirstLength(Refill(s).free, first.port);
    RefillConserves(s1);
    assert s1.claims == map[first.task := Exposure(first.board, first.service, first.port)];
    assert PortsOf(s1.claims) == {first.port};
    assert Elements(s1.free) == {};
    assert Elements(Refill(s1).free) == {first.port};
    assert first.port in Elements(Refill(s1).free);
    assert second.port in Elements(Refill(s1).free);
  }
}
