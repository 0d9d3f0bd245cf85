/** The tunnel ports of virtual interfaces: the live list, the scan that picks a port, and the
    interface name the port is later recovered from (iotronic/conductor/endpoints.py). */
module TunnelPorts {
  import opened Collections

  // ---------- Interface names ----------

  function Digit(d: nat): char
    requires d < 10
  {
    "0123456789"[d]
  }

  function DigitValue(c: char): Option<nat> {
    if '0' <= c <= '9' then Some((c - '0') as nat) else None
  }

  // str(n)
  function Show(n: nat): string {
    if n < 10 then [Digit(n)] else Show(n / 10) + [Digit(n % 10)]
  }

  // int(s), for unsigned decimal texts
  function Read(s: string): Option<nat> {
    if s == "" then None
    else
      var last := DigitValue(s[|s| - 1]);
      if last.None? then None
      else if |s| == 1 then last
      else
        var front := Read(s[..|s| - 1]);
        if front.None? then None else Some(front.value * 10 + last.value)
  }

  lemma DigitReads(d: nat)
    requires d < 10
    ensures DigitValue(Digit(d)) == Some(d)
  {
  }

  lemma {:induction false} ReadShow(n: nat)
    ensures Read(Show(n)) == Some(n) && Show(n) != ""
  {
    if n < 10 {
      DigitReads(n);
    } else {
      ReadShow(n / 10);
      DigitReads(n % 10);
      assert Show(n)[..|Show(n)| - 1] == Show(n / 10);
    }
  }

  const VIF_PREFIX := "iotronic"

  function VifName(port: nat): string {
    VIF_PREFIX + Show(port)
  }

  // int(VIF_name[8:])
  function PortOf(name: string): Option<nat> {
    if |name| < 8 then None else Read(name[8..])
  }

  function DecimalChar(d: nat): char
    requires d < 10
  {
    ('0' as int + d) as char
  }

  // The name of an interface: "iotronic" and the five digits of its port.
  lemma VifNameText(port: nat)
    requires 10000 <= port <= 20000
    ensures VifName(port) == "iotronic" + [DecimalChar(port / 10000), DecimalChar(port / 1000 % 10),
                                           DecimalChar(port / 100 % 10), DecimalChar(port / 10 % 10),
                                           DecimalChar(port % 10)]
  {
    DigitChars();
    var two, three, four := port / 1000, port / 100, port / 10;    // the first digits
    assert Show(two) == [Digit(port / 10000)] + [Digit(two % 10)] by { assert two / 10 == port / 10000; }
    assert Show(three) == Show(two) + [Digit(three % 10)] by { assert three / 10 == two; }
    assert Show(four) == Show(three) + [Digit(four % 10)] by { assert four / 10 == three; }
    assert Show(port) == Show(four) + [Digit(port % 10)];
  }

  lemma DigitChars()
    ensures forall d: nat :: d < 10 ==> Digit(d) == DecimalChar(d)
  {
  }

  // The port is recovered from the name, so different ports have different names.
  lemma PortRecovered(port: nat)
    ensures PortOf(VifName(port)) == Some(port)
  {
    ReadShow(port);
    assert VifName(port)[8..] == Show(port);
  }

  // ---------- Which draw a scan takes ----------

  const LOW := 10000
  const HIGH := 20000

  function Tail(s: seq<nat>): seq<nat> {
    if s == [] then [] else s[1..]
  }

  // The first draw that is not in `taken`.
  function FirstOutside(draws: seq<nat>, taken: seq<nat>): Option<nat> {
    if draws == [] then None
    else if draws[0] !in taken then Some(draws[0])
    else FirstOutside(draws[1..], taken)
  }

  lemma {:induction false} FirstOutsideIs(draws: seq<nat>, taken: seq<nat>, d: nat)
    ensures FirstOutside(draws, taken) == Some(d) <==>
            exists j :: 0 <= j < |draws| && draws[j] == d && d !in taken && forall i :: 0 <= i < j ==> draws[i] in taken
  {
    if draws != [] {
      var rest := draws[1..];
      FirstOutsideIs(rest, taken, d);
      if draws[0] in taken && FirstOutside(rest, taken) == Some(d) {
        var j :| 0 <= j < |rest| && rest[j] == d && d !in taken && forall i :: 0 <= i < j ==> rest[i] in taken;
        assert draws[j + 1] == d;
        assert forall i :: 0 <= i < j + 1 ==> draws[i] in taken by {
          assert forall i :: 0 < i < j + 1 ==> draws[i] == rest[i - 1];
        }
      }
      if j :| 0 <= j < |draws| && draws[j] == d && d !in taken && forall i :: 0 <= i < j ==> draws[i] in taken {
        if j > 0 {
          assert rest[j - 1] == d && forall i :: 0 <= i < j - 1 ==> rest[i] == draws[i + 1];
        }
      }
    }
  }

  // The first draw is compared with all live ports; after a hit the scan resumes at the second
  // entry, so every later draw is compared with the tail only. None: the draws run out.
  function Found(live: seq<nat>, draws: seq<nat>): Option<nat>
    requires draws != []
  {
    if draws[0] !in live then Some(draws[0]) else FirstOutside(draws[1..], Tail(live))
  }

  // ---------- The live list ----------

  class LivePorts {
    var ports: seq<nat>

    // The scan of create_port_on_board. `draws` is the stream of random numbers.
    method Scan(draws: seq<nat>) returns (port: Option<nat>)
      requires draws != []
      ensures port == Found(ports, draws)
    {
      var used := 1;
      var portSocat := draws[0];
      var i := 0;
      while i < |ports|
        invariant 0 <= i <= |ports| && 1 <= used <= |draws| && portSocat == draws[used - 1]
        invariant used == 1 ==> portSocat !in ports[..i]
        invariant used > 1 ==> draws[0] in ports && 1 <= i && portSocat !in Tail(ports)[..i - 1]
        invariant used > 1 ==> FirstOutside(draws[1..], Tail(ports)) == FirstOutside(draws[used - 1..], Tail(ports))
        decreases |draws| - used, |ports| - i
      {
        if ports[i] == portSocat {
          if used > 1 {
            assert Tail(ports)[i - 1] == portSocat;
            NextDraw(draws, Tail(ports), used - 1);
          }
          if used == |draws| {
            return None;
          }
          i := 0;
          portSocat := draws[used];
          used := used + 1;
        }
        i := i + 1;
      }
      assert ports[..|ports|] == ports;
      if used > 1 {
        assert Tail(ports)[..i - 1] == Tail(ports);
      }
      port := Some(portSocat);
    }

    // The port's part of create_port_on_board: scan, then Port.insert(0, port_socat).
    method Allocate(draws: seq<nat>) returns (port: Option<nat>)
      requires draws != []
      modifies this
      ensures port == Found(old(ports), draws)
      ensures ports == Step(old(ports), Create(draws))
    {
      port := Scan(draws);
      if port.Some? {
        ports := [port.value] + ports;
      }
    }

    // Port.remove(int(VIF_name[8:]))
    method RemoveVif(name: string) returns (r: Result<nat>)
      modifies this
      ensures r.Ok? <==> PortOf(name).Some? && PortOf(name).value in old(ports)
      ensures r.Ok? ==> r.value == PortOf(name).value && ports == RemoveFirst(old(ports), r.value)
      ensures r.Err? ==> ports == old(ports)
    {
      var n := PortOf(name);
      if n.None? || n.value !in ports {
        return Err("ValueError");
      }
      ports := RemoveFirst(ports, n.value);
      r := Ok(n.value);
    }
  }

  lemma NextDraw(draws: seq<nat>, taken: seq<nat>, n: nat)
    requires n < |draws| && draws[n] in taken
    ensures FirstOutside(draws[n..], taken) == FirstOutside(draws[n + 1..], taken)
  {
    assert draws[n..][1..] == draws[n + 1..];
  }

  // ---------- Runs ----------

  // A creation carries the random numbers its scan draws.
  datatype Event = Create(draws: seq<nat>) | Remove(port: nat)

  predicate InRange(draws: seq<nat>) {
    draws != [] && forall d :: d in draws ==> LOW <= d <= HIGH
  }

  predicate Possible(live: seq<nat>, e: Event) {
    match e
    case Create(draws) => InRange(draws)
    case Remove(p) => p in live
  }

  function Step(live: seq<nat>, e: Event): seq<nat> {
    match e
    case Create(draws) =>
      if draws == [] then live
      else
        var found := Found(live, draws);
        if found.Some? then [found.value] + live else live
    case Remove(p) => RemoveFirst(live, PortOf(VifName(p)).GetOr(0))
  }

  // The first draw hits a live port, and the first later draw that is not in the tail is the head.
  predicate DrawsHead(live: seq<nat>, draws: seq<nat>) {
    draws != [] && live != [] && draws[0] in live && FirstOutside(draws[1..], Tail(live)) == Some(live[0])
  }

  // A creation keeps the list free of duplicates exactly when its draws do not lead to the head;
  // a removal deletes exactly its port.
  lemma StepDistinctIff(live: seq<nat>, e: Event)
    requires Distinct(live) && Possible(live, e)
    ensures Distinct(Step(live, e)) <==> !(e.Create? && DrawsHead(live, e.draws))
    ensures e.Remove? ==> Elements(Step(live, e)) == Elements(live) - {e.port}
  {
    match e
    case Create(draws) =>
      var found := Found(live, draws);
      if found.Some? {
        var p := found.value;
        HeadOrNew(live, draws);
        ConsDistinctIff(p, live);
      }
    case Remove(p) =>
      PortRecovered(p);
      RemoveFirstDistinct(live, p);
  }

  // A scan finds a port that is not live, or the head.
  lemma HeadOrNew(live: seq<nat>, draws: seq<nat>)
    requires draws != [] && Found(live, draws).Some?
    ensures Found(live, draws).value in draws
    ensures Found(live, draws).value in live <==> DrawsHead(live, draws)
    ensures DrawsHead(live, draws) ==> Found(live, draws).value == live[0]
  {
    var p := Found(live, draws).value;
    if draws[0] in live {
      FirstOutsideIs(draws[1..], Tail(live), p);
      assert live == [live[0]] + Tail(live);
    }
  }

  lemma ConsDistinctIff(p: nat, live: seq<nat>)
    requires Distinct(live)
    ensures Distinct([p] + live) <==> p !in live
  {
    var longer := [p] + live;
    if p in live {
      var i :| 0 <= i < |live| && live[i] == p;
      assert longer[0] == longer[i + 1];
    }
    assert forall i :: 0 <= i < |live| ==> longer[i + 1] == live[i];
  }

  // Every stream of draws is safe exactly when no port is live: otherwise drawing the newest port
  // twice puts it into the list a second time.
  lemma AllDrawsSafeIff(live: seq<nat>)
    requires Distinct(live) && forall p :: p in live ==> LOW <= p <= HIGH
    ensures (forall draws :: InRange(draws) ==> Distinct(Step(live, Create(draws)))) <==> live == []
  {
    if live == [] {
      forall draws | InRange(draws) ensures Distinct(Step(live, Create(draws))) {
        StepDistinctIff(live, Create(draws));
      }
    } else {
      assert live[0] in live;
      NewestTwice(live);
    }
  }

  lemma NewestTwice(live: seq<nat>)
    requires Distinct(live) && live != [] && LOW <= live[0] <= HIGH
    ensures InRange([live[0], live[0]]) && !Distinct(Step(live, Create([live[0], live[0]])))
  {
    var draws := [live[0], live[0]];
    assert live[0] !in Tail(live);
    assert draws[1..] == [live[0]];
    StepDistinctIff(live, Create(draws));
  }

  function Run(events: seq<Event>): seq<nat> {
    if events == [] then [] else Step(Run(events[..|events| - 1]), events[|events| - 1])
  }

  predicate AllPossible(events: seq<Event>) {
    events == [] ||
    var front := events[..|events| - 1];
    AllPossible(front) && Possible(Run(front), events[|events| - 1])
  }

  predicate NeverDrawsHead(events: seq<Event>) {
    events == [] ||
    var front, e := events[..|events| - 1], events[|events| - 1];
    NeverDrawsHead(front) && !(e.Create? && DrawsHead(Run(front), e.draws))
  }

  ghost predicate DistinctThroughout(events: seq<Event>) {
    Distinct(Run(events)) && (events == [] || DistinctThroughout(events[..|events| - 1]))
  }

  // Live ports stay distinct through a run exactly when no creation's draws lead to the newest port.
  lemma {:induction false} RunDistinctIff(events: seq<Event>)
    requires AllPossible(events)
    ensures DistinctThroughout(events) <==> NeverDrawsHead(events)
  {
    if events != [] {
      var front := events[..|events| - 1];
      RunDistinctIff(front);
      if DistinctThroughout(front) {
        StepDistinctIff(Run(front), events[|events| - 1]);
      }
    }
  }

  // Live ports are always in the range they are drawn from.
  lemma {:induction false} RunInRange(events: seq<Event>)
    requires AllPossible(events)
    ensures forall p :: p in Run(events) ==> 10000 <= p <= 20000
  {
    if events != [] {
      var front, e := events[..|events| - 1], events[|events| - 1];
      RunInRange(front);
      match e
      case Create(draws) =>
        if Found(Run(front), draws).Some? {
          HeadOrNew(Run(front), draws);
        }
      case Remove(p) =>
        PortRecovered(p);
        RemoveFirstMembers(Run(front), p);
    }
  }

  lemma {:induction false} RemoveFirstMembers(s: seq<nat>, x: nat)
    ensures forall p :: p in RemoveFirst(s, x) ==> p in s
  {
    if s != [] {
      RemoveFirstMembers(s[1..], x);
    }
  }

  // So after any run without a duplicate that left a port live, some draws make one.
  lemma SomeDrawsDuplicate(events: seq<Event>)
    requires AllPossible(events) && DistinctThroughout(events) && Run(events) != []
    ensures var again := events + [Create([Run(events)[0], Run(events)[0]])];
            AllPossible(again) && !DistinctThroughout(again)
  {
    var live := Run(events);
    var e := Create([live[0], live[0]]);
    assert (events + [e])[..|events|] == events;
    RunInRange(events);
    assert live[0] in live;
    NewestTwice(live);
  }
}
