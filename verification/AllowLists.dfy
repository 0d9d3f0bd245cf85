/** Exposing services: the port pool together with the allow list each agent keeps
    (iotronic/conductor/endpoints.py, iotronic/wamp/agent.py).

    A handler reaches the agent by remote calls, so other handlers may run between its steps.
    Services `webservice` and `webservice_ssl` are driven by enable/disable_webservice only. */
module AllowLists {
  import opened Collections
  import opened PortPool

  type Agent = string
  type Entry = (Board, Port)

  // ---------- The agent's file ----------

  function AddIn(list: seq<Entry>, e: Entry): seq<Entry> {
    if e in list then list else list + [e]
  }

  class AgentEndpoint {
    var file: Option<seq<Entry>>    // None: the file cannot be read

    method AddinAllowlist(device: Board, port: Port)
      modifies this
      ensures file == if old(file).None? then None else Some(AddIn(old(file).value, (device, port)))
    {
      if file.Some? {
        var allowList := file.value;
        if (device, port) !in allowList {
          allowList := allowList + [(device, port)];
          file := Some(allowList);
        }
      }
    }

    method RemoveFromAllowlist(device: Board, port: Port)
      modifies this
      ensures file == if old(file).None? then None else Some(RemoveFirst(old(file).value, (device, port)))
    {
      if file.Some? {
        var allowList := file.value;
        if (device, port) in allowList {
          file := Some(RemoveFirst(allowList, (device, port)));
        } else {
          RemoveFirstAbsent(allowList, (device, port));
        }
      }
    }
  }

  // ---------- State ----------

  // agentOf: the agent of every board that can ever appear (it is fixed once assigned); dying:
  // boards that are being destroyed or have been, destroyed: those that have been;
  // listed: in-flight tasks whose port is already allowed; removing: rows already deleted whose
  // allow-list entry is still to be removed; web: the (http, https) ports of enabled webservices.
  datatype State = State(pool: Pool, agentOf: map<Board, Agent>, allow: map<Agent, seq<Entry>>,
                         listed: set<TaskId>, removing: map<int, Entry>,
                         dying: set<Board>, destroyed: set<Board>, web: map<Board, (Port, Port)>)

  datatype Event =
    | Claim(task: TaskId, board: Board, name: string, port: Port)
    | ClaimWeb(httpsTask: TaskId, httpTask: TaskId, board: Board, https: Port, http: Port)
    | Allow(task: TaskId)
    | Record(task: TaskId, row: RowId)
    | GiveUp(task: TaskId)
    | Disable(row: RowId, removal: int)
    | DropHttp(row: RowId, removal: int)
    | DropHttps(row: RowId, removal: int)
    | Disallow(removal: int)
    | Forget(board: Board)
    | BeginDestroy(board: Board)
    | DestroyEntry(row: RowId)
    | FinishDestroy(board: Board)

  function EntryOf(x: Exposure): Entry {
    (x.board, x.port)
  }

  predicate WebRow(s: State, r: RowId, v: Service) {
    r in s.pool.rows && s.pool.rows[r].service == v && s.pool.rows[r].board in s.web
  }

  predicate Exists(s: State, b: Board) {
    b in s.agentOf && b !in s.destroyed
  }

  // A handler that has read its board goes on after the board is destroyed, but cannot record a row.
  predicate Enabled(s: State, e: Event) {
    match e
    case Claim(t, b, n, p) => Exists(s, b) && PortPool.Enabled(s.pool, Draw(t, b, Plain(n), p))
    case ClaimWeb(t1, t2, b, p1, p2) =>
      && Exists(s, b) && b !in s.web && t1 != t2
      && PortPool.Enabled(s.pool, Draw(t1, b, WebSsl, p1))
      && PortPool.Enabled(Step1(s, t1, b, p1), Draw(t2, b, Web, p2))
    case Allow(t) => t in s.pool.claims && s.pool.claims[t].board in s.agentOf
    case Record(t, r) => t in s.pool.claims && t in s.listed && r !in s.pool.rows && Exists(s, s.pool.claims[t].board)
    case GiveUp(t) => t in s.pool.claims
    case Disable(r, x) => r in s.pool.rows && s.pool.rows[r].service.Plain? && x !in s.removing
    case DropHttp(r, x) => WebRow(s, r, Web) && x !in s.removing
    case DropHttps(r, x) => WebRow(s, r, WebSsl) && x !in s.removing
    case Disallow(x) => x in s.removing
    case Forget(b) =>
      b in s.web && forall x :: x in s.pool.rows.Values + s.pool.claims.Values && x.board == b ==> x.service.Plain?
    case BeginDestroy(b) => Exists(s, b)
    case DestroyEntry(r) => r in s.pool.rows && s.pool.rows[r].board in s.dying
    case FinishDestroy(b) => b in s.dying && b !in s.destroyed
  }

  function Step1(s: State, t1: TaskId, b: Board, p1: Port): Pool {
    PortPool.Step(s.pool, Draw(t1, b, WebSsl, p1))
  }

  // remove_from_allowlist on the agent of the entry's board.
  function Unlisted(s: State, e: Entry): map<Agent, seq<Entry>> {
    if e.0 in s.agentOf && s.agentOf[e.0] in s.allow
    then s.allow[s.agentOf[e.0] := RemoveFirst(s.allow[s.agentOf[e.0]], e)]
    else s.allow
  }

  function Listed(s: State, e: Entry): map<Agent, seq<Entry>> {
    if e.0 in s.agentOf && s.agentOf[e.0] in s.allow
    then s.allow[s.agentOf[e.0] := AddIn(s.allow[s.agentOf[e.0]], e)]
    else s.allow
  }

  // Deleting a board cascades to its exposed-service rows.
  function WithoutBoard(pool: Pool, b: Board): Pool {
    pool.(rows := map r | r in pool.rows && pool.rows[r].board != b :: pool.rows[r],
          lost := pool.lost + set r | r in pool.rows && pool.rows[r].board == b :: pool.rows[r].port)
  }

  function Step(s: State, e: Event): State {
    if !Enabled(s, e) then s else
    match e
    case Claim(t, b, n, p) => s.(pool := PortPool.Step(s.pool, Draw(t, b, Plain(n), p)))
    case ClaimWeb(t1, t2, b, p1, p2) =>
      var pool := PortPool.Step(Step1(s, t1, b, p1), Draw(t2, b, Web, p2));
      s.(pool := pool, web := if t1 in pool.claims && t2 in pool.claims then s.web[b := (p2, p1)] else s.web)
    case Allow(t) => s.(allow := Listed(s, EntryOf(s.pool.claims[t])), listed := s.listed + {t})
    case Record(t, r) => s.(pool := PortPool.Step(s.pool, Commit(t, r)), listed := s.listed - {t})
    case GiveUp(t) => s.(pool := PortPool.Step(s.pool, Abandon(t)), listed := s.listed - {t})
    case Disable(r, x) =>
      s.(pool := PortPool.Step(s.pool, Release(r)), removing := s.removing[x := EntryOf(s.pool.rows[r])])
    case DropHttp(r, x) =>
      var b := s.pool.rows[r].board;
      s.(pool := PortPool.Step(s.pool, Drop(r)), removing := s.removing[x := (b, s.web[b].0)])
    case DropHttps(r, x) =>
      var b := s.pool.rows[r].board;
      s.(pool := PortPool.Step(s.pool, Release(r)), removing := s.removing[x := (b, s.web[b].1)])
    case Disallow(x) => s.(allow := Unlisted(s, s.removing[x]), removing := s.removing - {x})
    case Forget(b) => s.(web := s.web - {b})
    case BeginDestroy(b) => s.(dying := s.dying + {b})
    case DestroyEntry(r) => s.(allow := Unlisted(s, EntryOf(s.pool.rows[r])))
    case FinishDestroy(b) =>
      s.(pool := WithoutBoard(s.pool, b), destroyed := s.destroyed + {b})
  }

  // The hypotheses on a run: no rebuild of the cache meets a port in flight, and a port is not
  // drawn again for a board whose entry for that port is still to be removed.
  predicate Guarded(s: State, e: Event) {
    match e
    case Claim(t, b, n, p) =>
      PortPool.Guarded(s.pool, Draw(t, b, Plain(n), p)) && (b, p) !in s.removing.Values
    case ClaimWeb(t1, t2, b, p1, p2) =>
      && PortPool.Guarded(s.pool, Draw(t1, b, WebSsl, p1))
      && PortPool.Guarded(Step1(s, t1, b, p1), Draw(t2, b, Web, p2))
      && (b, p1) !in s.removing.Values && (b, p2) !in s.removing.Values
    case _ => true
  }

  // ---------- Invariant ----------

  predicate IsAllowed(s: State, x: Exposure) {
    x.board in s.agentOf && s.agentOf[x.board] in s.allow && EntryOf(x) in s.allow[s.agentOf[x.board]]
  }

  // Every exposed row of a board that is not being destroyed is in its agent's allow list.
  ghost predicate Covered(s: State) {
    forall r :: r in s.pool.rows && s.pool.rows[r].board !in s.dying ==> IsAllowed(s, s.pool.rows[r])
  }

  ghost predicate DistinctLists(s: State) {
    forall a :: a in s.allow ==> Distinct(s.allow[a])
  }

  // What guarded runs keep. Covered is not part of it: it follows from StepCoversIff.
  ghost predicate Inv(s: State) {
    && Conserved(s.pool)
    && (forall t :: t in s.listed ==> t in s.pool.claims)
    && (forall t :: t in s.listed && s.pool.claims[t].board in s.agentOf && s.pool.claims[t].board !in s.dying ==>
          IsAllowed(s, s.pool.claims[t]))
    && DistinctLists(s)
    && (forall b :: b in s.agentOf ==> s.agentOf[b] in s.allow)
    && NoneRemoving(s)
    && (forall r :: r in s.pool.rows ==> WebPort(s, s.pool.rows[r]))
    && (forall t :: t in s.pool.claims ==> WebPort(s, s.pool.claims[t]))
  }

  // An entry to be removed belongs to no row and no task in flight.
  ghost predicate NoneRemoving(s: State) {
    && (forall x, r :: x in s.removing && r in s.pool.rows ==> s.removing[x] != EntryOf(s.pool.rows[r]))
    && (forall x, t :: x in s.removing && t in s.pool.claims ==> s.removing[x] != EntryOf(s.pool.claims[t]))
  }

  predicate WebPort(s: State, x: Exposure) {
    match x.service
    case Plain(_) => true
    case Web => x.board in s.web && x.port == s.web[x.board].0
    case WebSsl => x.board in s.web && x.port == s.web[x.board].1
  }

  // ---------- Every step keeps the invariant ----------

  lemma SamePort(pool: Pool)
    requires Conserved(pool)
    ensures forall r, t :: r in pool.rows && t in pool.claims ==> pool.rows[r].port != pool.claims[t].port
  {
    forall r, t | r in pool.rows && t in pool.claims ensures pool.rows[r].port != pool.claims[t].port {
      assert pool.rows[r].port in PortsOf(pool.rows) && pool.claims[t].port in PortsOf(pool.claims);
    }
  }

  lemma ClaimKeepsInv(s: State, t: TaskId, b: Board, v: Service, p: Port, web: map<Board, (Port, Port)>)
    requires Inv(s) && PortPool.Enabled(s.pool, Draw(t, b, v, p)) && PortPool.Guarded(s.pool, Draw(t, b, v, p))
    requires (b, p) !in s.removing.Values
    requires forall c :: c in s.web ==> c in web && web[c] == s.web[c]
    requires WebPort(s.(web := web), Exposure(b, v, p))
    ensures Inv(s.(pool := PortPool.Step(s.pool, Draw(t, b, v, p)), web := web))
  {
    StepConservesIff(s.pool, Draw(t, b, v, p));
    DrawShape(s.pool, t, Exposure(b, v, p));
    ClaimedKeepsInv(s, PortPool.Step(s.pool, Draw(t, b, v, p)), t, Exposure(b, v, p), web);
  }

  lemma DrawShape(pool: Pool, t: TaskId, x: Exposure)
    requires PortPool.Enabled(pool, Draw(t, x.board, x.service, x.port))
    ensures var pool' := PortPool.Step(pool, Draw(t, x.board, x.service, x.port));
            pool'.rows == pool.rows && (pool'.claims == pool.claims || pool'.claims == pool.claims[t := x])
  {
  }

  lemma ClaimedKeepsInv(s: State, pool: Pool, t: TaskId, x: Exposure, web: map<Board, (Port, Port)>)
    requires Inv(s) && Conserved(pool) && t !in s.pool.claims
    requires pool.rows == s.pool.rows && (pool.claims == s.pool.claims || pool.claims == s.pool.claims[t := x])
    requires EntryOf(x) !in s.removing.Values
    requires forall c :: c in s.web ==> c in web && web[c] == s.web[c]
    requires WebPort(s.(web := web), x)
    ensures Inv(s.(pool := pool, web := web))
  {
    var s' := s.(pool := pool, web := web);
    assert forall k :: k in s.removing ==> s.removing[k] in s.removing.Values;
    forall y: Exposure | IsAllowed(s, y) ensures IsAllowed(s', y) {
    }
    forall k | k in s'.pool.claims && k != t ensures k in s.pool.claims && s'.pool.claims[k] == s.pool.claims[k] {
    }
  }

  lemma ClaimWebKeepsInv(s: State, e: Event)
    requires Inv(s) && Guarded(s, e) && Enabled(s, e) && e.ClaimWeb?
    ensures Inv(Step(s, e))
  {
    var t1, t2, b, p1, p2 := e.httpsTask, e.httpTask, e.board, e.https, e.http;
    var web := s.web[b := (p2, p1)];
    var pool1 := Step1(s, t1, b, p1);
    var pool2 := PortPool.Step(pool1, Draw(t2, b, Web, p2));
    ClaimKeepsInv(s, t1, b, WebSsl, p1, web);
    ClaimKeepsInv(s.(pool := pool1, web := web), t2, b, Web, p2, web);
    if !(t1 in pool2.claims && t2 in pool2.claims) {
      NoWebTask(s, e);
    }
  }

  // Either both draws succeed or the pool is exhausted and neither does.
  lemma NoWebTask(s: State, e: Event)
    requires Inv(s) && Guarded(s, e) && Enabled(s, e) && e.ClaimWeb?
    requires Inv(s.(pool := Step(s, e).pool, web := s.web[e.board := (e.http, e.https)]))
    requires !(e.httpsTask in Step(s, e).pool.claims && e.httpTask in Step(s, e).pool.claims)
    ensures Inv(Step(s, e))
  {
    RefillConserves(s.pool);
    var s' := Step(s, e);
    assert s'.pool.claims == s.pool.claims && s'.pool.rows == s.pool.rows;
  }

  lemma ListKeepsInv(s: State, t: TaskId)
    requires Inv(s) && Enabled(s, Allow(t))
    ensures Inv(Step(s, Allow(t)))
  {
    var s', x := Step(s, Allow(t)), s.pool.claims[t];
    assert IsAllowed(s', x);
    forall y: Exposure | IsAllowed(s, y) ensures IsAllowed(s', y) {
    }
  }

  lemma RecordKeepsInv(s: State, t: TaskId, r: RowId)
    requires Inv(s) && Enabled(s, Record(t, r))
    ensures Inv(Step(s, Record(t, r)))
  {
    StepConservesIff(s.pool, Commit(t, r));
    var s' := Step(s, Record(t, r));
    forall y: Exposure | IsAllowed(s, y) ensures IsAllowed(s', y) {
    }
  }

  lemma GiveUpKeepsInv(s: State, t: TaskId)
    requires Inv(s) && Enabled(s, GiveUp(t))
    ensures Inv(Step(s, GiveUp(t)))
  {
    StepConservesIff(s.pool, Abandon(t));
    var s' := Step(s, GiveUp(t));
    forall y: Exposure | IsAllowed(s, y) ensures IsAllowed(s', y) {
    }
  }

  // The row goes, its entry becomes due for removal; no other row or task shares the port.
  lemma RowGoesKeepsInv(s: State, r: RowId, x: int, e: PortPool.Event)
    requires Inv(s) && r in s.pool.rows && x !in s.removing
    requires e == Release(r) || e == Drop(r)
    ensures Inv(s.(pool := PortPool.Step(s.pool, e), removing := s.removing[x := EntryOf(s.pool.rows[r])]))
  {
    StepConservesIff(s.pool, e);
    SamePort(s.pool);
    var s' := s.(pool := PortPool.Step(s.pool, e), removing := s.removing[x := EntryOf(s.pool.rows[r])]);
    forall y: Exposure | IsAllowed(s, y) ensures IsAllowed(s', y) {
    }
    forall k | k in s'.pool.rows ensures EntryOf(s'.pool.rows[k]) != EntryOf(s.pool.rows[r]) {
      assert k != r && s.pool.rows[k] == s'.pool.rows[k];
    }
  }

  lemma UnlistedKeeps(s: State, e: Entry, y: Exposure)
    requires IsAllowed(s, y) && EntryOf(y) != e
    ensures IsAllowed(s.(allow := Unlisted(s, e)), y)
  {
    if e.0 in s.agentOf && s.agentOf[e.0] == s.agentOf[y.board] {
      RemoveFirstOthers(s.allow[s.agentOf[e.0]], e, EntryOf(y));
    }
  }

  lemma {:induction false} RemoveFirstOthers(list: seq<Entry>, e: Entry, y: Entry)
    requires y != e && y in list
    ensures y in RemoveFirst(list, e)
  {
    if list[0] != e && list[0] != y {
      assert list == [list[0]] + list[1..];
      RemoveFirstOthers(list[1..], e, y);
    }
  }

  lemma UnlistedDistinct(s: State, e: Entry)
    requires forall a :: a in s.allow ==> Distinct(s.allow[a])
    ensures forall a :: a in Unlisted(s, e) ==> a in s.allow && Distinct(Unlisted(s, e)[a])
  {
    if e.0 in s.agentOf && s.agentOf[e.0] in s.allow {
      RemoveFirstDistinct(s.allow[s.agentOf[e.0]], e);
    }
  }

  lemma DisallowKeepsInv(s: State, x: int)
    requires Inv(s) && Enabled(s, Disallow(x))
    ensures Inv(Step(s, Disallow(x)))
  {
    var s', e := Step(s, Disallow(x)), s.removing[x];
    UnlistedDistinct(s, e);
    forall y: Exposure | IsAllowed(s, y) && EntryOf(y) != e ensures IsAllowed(s', y) {
      UnlistedKeeps(s, e, y);
    }
  }

  lemma DestroyEntryKeepsInv(s: State, r: RowId)
    requires Inv(s) && Enabled(s, DestroyEntry(r))
    ensures Inv(Step(s, DestroyEntry(r)))
  {
    var s', e := Step(s, DestroyEntry(r)), EntryOf(s.pool.rows[r]);
    UnlistedDistinct(s, e);
    forall y: Exposure | IsAllowed(s, y) && EntryOf(y) != e ensures IsAllowed(s', y) {
      UnlistedKeeps(s, e, y);
    }
  }

  lemma WithoutBoardConserves(pool: Pool, b: Board)
    requires Conserved(pool)
    ensures Conserved(WithoutBoard(pool, b))
  {
    var pool' := WithoutBoard(pool, b);
    assert PortsOf(pool'.rows) <= PortsOf(pool.rows);
    forall p | p in PortsOf(pool.rows) && p !in PortsOf(pool'.rows) ensures p in pool'.lost {
      var r :| r in pool.rows && pool.rows[r].port == p;
      assert r !in pool'.rows;
    }
    forall r | r in pool.rows && pool.rows[r].board == b ensures pool.rows[r].port !in PortsOf(pool'.rows) {
    }
    forall r | r in pool.rows ensures pool.rows[r].port in PortsOf(pool.rows) {
    }
  }

  lemma FinishDestroyKeepsInv(s: State, b: Board)
    requires Inv(s) && Enabled(s, FinishDestroy(b))
    ensures Inv(Step(s, FinishDestroy(b)))
  {
    WithoutBoardConserves(s.pool, b);
    var s' := Step(s, FinishDestroy(b));
    forall y: Exposure | IsAllowed(s, y) && y.board != b ensures IsAllowed(s', y) {
    }
  }

  lemma ForgetKeepsInv(s: State, b: Board)
    requires Inv(s) && Enabled(s, Forget(b))
    ensures Inv(Step(s, Forget(b)))
  {
    var s' := Step(s, Forget(b));
    forall y: Exposure | IsAllowed(s, y) ensures IsAllowed(s', y) {
    }
    assert forall r :: r in s.pool.rows ==> s.pool.rows[r] in s.pool.rows.Values;
    assert forall t :: t in s.pool.claims ==> s.pool.claims[t] in s.pool.claims.Values;
  }

  lemma BeginDestroyKeepsInv(s: State, b: Board)
    requires Inv(s) && Enabled(s, BeginDestroy(b))
    ensures Inv(Step(s, BeginDestroy(b)))
  {
    var s' := Step(s, BeginDestroy(b));
    forall y: Exposure | IsAllowed(s, y) ensures IsAllowed(s', y) {
    }
  }

  lemma StepKeepsInv(s: State, e: Event)
    requires Inv(s) && Guarded(s, e)
    ensures Inv(Step(s, e))
  {
    if Enabled(s, e) {
      match e
      case Claim(t, b, n, p) => ClaimKeepsInv(s, t, b, Plain(n), p, s.web);
      case ClaimWeb(_, _, _, _, _) => ClaimWebKeepsInv(s, e);
      case Allow(t) => ListKeepsInv(s, t);
      case Record(t, r) => RecordKeepsInv(s, t, r);
      case GiveUp(t) => GiveUpKeepsInv(s, t);
      case Disable(r, x) => RowGoesKeepsInv(s, r, x, Release(r));
      case DropHttp(r, x) => RowGoesKeepsInv(s, r, x, Drop(r));
      case DropHttps(r, x) => RowGoesKeepsInv(s, r, x, Release(r));
      case Disallow(x) => DisallowKeepsInv(s, x);
      case Forget(b) => ForgetKeepsInv(s, b);
      case BeginDestroy(b) => BeginDestroyKeepsInv(s, b);
      case DestroyEntry(r) => DestroyEntryKeepsInv(s, r);
      case FinishDestroy(b) => FinishDestroyKeepsInv(s, b);
    }
  }

  // ---------- Main results, over every run ----------

  function Initial(lo: int, hi: int, agentOf: map<Board, Agent>): State {
    State(Pool(lo, hi, [], map[], map[], Range(lo, hi)), agentOf,
          map b | b in agentOf :: agentOf[b] := [], {}, map[], {}, {}, map[])
  }

  function Run(s: State, events: seq<Event>): State {
    if events == [] then s else Step(Run(s, events[..|events| - 1]), events[|events| - 1])
  }

  predicate AllGuarded(s: State, events: seq<Event>) {
    events == [] ||
    var front := events[..|events| - 1];
    AllGuarded(s, front) && Guarded(Run(s, front), events[|events| - 1])
  }

  lemma {:induction false} RunKeepsInv(s: State, events: seq<Event>)
    requires Inv(s) && AllGuarded(s, events)
    ensures Inv(Run(s, events))
  {
    if events != [] {
      RunKeepsInv(s, events[..|events| - 1]);
      StepKeepsInv(Run(s, events[..|events| - 1]), events[|events| - 1]);
    }
  }

  // ---------- Exactly when the cover holds ----------

  // An exposed row of a board that is not being destroyed uses the entry.
  ghost predicate InUse(s: State, e: Entry) {
    exists r :: r in s.pool.rows && s.pool.rows[r].board !in s.dying && EntryOf(s.pool.rows[r]) == e
  }

  // The two steps that can uncover a row, each with the check that makes it harmless: an entry is
  // removed while no exposed row uses it, and a row is created while its entry is in the list.
  ghost predicate Safe(s: State, e: Event) {
    match e
    case Disallow(x) => x in s.removing ==> !InUse(s, s.removing[x])
    case Record(t, _) =>
      Enabled(s, e) && s.pool.claims[t].board !in s.dying ==> IsAllowed(s, s.pool.claims[t])
    case _ => true
  }

  // One step keeps the cover exactly when it is safe.
  lemma StepCoversIff(s: State, e: Event)
    requires Covered(s) && DistinctLists(s)
    ensures Covered(Step(s, e)) <==> Safe(s, e)
  {
    if Enabled(s, e) {
      match e
      case Disallow(x) => DisallowCoversIff(s, x);
      case Record(t, r) => RecordCoversIff(s, t, r);
      case DestroyEntry(r) => DestroyEntryCovers(s, r);
      case FinishDestroy(b) => FinishDestroyCovers(s, b);
      case Allow(t) => AllowCovers(s, t);
      case _ => RowsOnlyGo(s, e);
    }
  }

  // Removing an entry keeps the cover exactly when no exposed row uses it: this is where the
  // distinctness of ports across rows is needed.
  lemma DisallowCoversIff(s: State, x: int)
    requires Covered(s) && DistinctLists(s) && x in s.removing
    ensures Covered(Step(s, Disallow(x))) <==> !InUse(s, s.removing[x])
  {
    var s', e := Step(s, Disallow(x)), s.removing[x];
    forall r | r in s.pool.rows && s.pool.rows[r].board !in s.dying
      ensures IsAllowed(s', s.pool.rows[r]) <==> EntryOf(s.pool.rows[r]) != e
    {
      var y := s.pool.rows[r];
      if EntryOf(y) == e {
        RemoveFirstDistinct(s.allow[s.agentOf[y.board]], e);
        assert e in s'.allow[s'.agentOf[y.board]] <==> e in Elements(s'.allow[s'.agentOf[y.board]]);
      } else {
        UnlistedKeeps(s, e, y);
      }
    }
  }

  lemma RecordCoversIff(s: State, t: TaskId, r: RowId)
    requires Covered(s) && Enabled(s, Record(t, r))
    ensures Covered(Step(s, Record(t, r))) <==>
            (s.pool.claims[t].board !in s.dying ==> IsAllowed(s, s.pool.claims[t]))
  {
    var s' := Step(s, Record(t, r));
    assert s'.pool.rows == s.pool.rows[r := s.pool.claims[t]];
    forall y: Exposure ensures IsAllowed(s', y) <==> IsAllowed(s, y) {
    }
    assert s'.pool.rows[r] == s.pool.claims[t];
  }

  lemma DestroyEntryCovers(s: State, r: RowId)
    requires Covered(s) && Enabled(s, DestroyEntry(r))
    ensures Covered(Step(s, DestroyEntry(r)))
  {
    var s', e := Step(s, DestroyEntry(r)), EntryOf(s.pool.rows[r]);
    forall k | k in s.pool.rows && s.pool.rows[k].board !in s.dying ensures IsAllowed(s', s.pool.rows[k]) {
      UnlistedKeeps(s, e, s.pool.rows[k]);
    }
  }

  lemma FinishDestroyCovers(s: State, b: Board)
    requires Covered(s)
    ensures Covered(Step(s, FinishDestroy(b)))
  {
    var s' := Step(s, FinishDestroy(b));
    forall y: Exposure | IsAllowed(s, y) && y.board != b ensures IsAllowed(s', y) {
    }
  }

  lemma AllowCovers(s: State, t: TaskId)
    requires Covered(s) && Enabled(s, Allow(t))
    ensures Covered(Step(s, Allow(t)))
  {
    var s' := Step(s, Allow(t));
    forall y: Exposure | IsAllowed(s, y) ensures IsAllowed(s', y) {
    }
  }

  // The other steps leave the lists and agents alone and add no row.
  lemma RowsOnlyGo(s: State, e: Event)
    requires Covered(s) && Enabled(s, e)
    requires !e.Allow? && !e.Record? && !e.Disallow? && !e.DestroyEntry? && !e.FinishDestroy?
    ensures Covered(Step(s, e))
  {
    var s' := Step(s, e);
    forall y: Exposure ensures IsAllowed(s', y) <==> IsAllowed(s, y) {
    }
    forall r | r in s'.pool.rows ensures r in s.pool.rows && s'.pool.rows[r] == s.pool.rows[r] {
    }
  }

  lemma StepKeepsDistinct(s: State, e: Event)
    requires DistinctLists(s)
    ensures DistinctLists(Step(s, e))
  {
    if Enabled(s, e) {
      match e
      case Disallow(x) => UnlistedDistinct(s, s.removing[x]);
      case DestroyEntry(r) => UnlistedDistinct(s, EntryOf(s.pool.rows[r]));
      case _ =>
    }
  }

  lemma {:induction false} RunKeepsDistinct(s: State, events: seq<Event>)
    requires DistinctLists(s)
    ensures DistinctLists(Run(s, events))
  {
    if events != [] {
      RunKeepsDistinct(s, events[..|events| - 1]);
      StepKeepsDistinct(Run(s, events[..|events| - 1]), events[|events| - 1]);
    }
  }

  ghost predicate AllSafe(s: State, events: seq<Event>) {
    events == [] ||
    var front := events[..|events| - 1];
    AllSafe(s, front) && Safe(Run(s, front), events[|events| - 1])
  }

  // Covered at the end and at every point before.
  ghost predicate CoveredThroughout(s: State, events: seq<Event>) {
    Covered(Run(s, events)) && (events == [] || CoveredThroughout(s, events[..|events| - 1]))
  }

  // Over any run whatever, every exposed row stays allowed throughout exactly when no removal in it
  // meets an exposed row using its entry and no row in it is created after its entry is gone.
  lemma {:induction false} RunCoversIff(s: State, events: seq<Event>)
    requires Covered(s) && DistinctLists(s)
    ensures CoveredThroughout(s, events) <==> AllSafe(s, events)
  {
    if events != [] {
      var front := events[..|events| - 1];
      RunCoversIff(s, front);
      if CoveredThroughout(s, front) {
        RunKeepsDistinct(s, front);
        StepCoversIff(Run(s, front), events[|events| - 1]);
      }
    }
  }

  // In a guarded run every step is safe.
  lemma {:induction false} GuardedIsSafe(s: State, events: seq<Event>)
    requires Inv(s) && AllGuarded(s, events)
    ensures AllSafe(s, events)
  {
    if events != [] {
      var front := events[..|events| - 1];
      GuardedIsSafe(s, front);
      RunKeepsInv(s, front);
    }
  }

  lemma InitialInv(lo: int, hi: int, agentOf: map<Board, Agent>)
    ensures Inv(Initial(lo, hi, agentOf))
  {
    var s := Initial(lo, hi, agentOf);
    assert PortsOf(s.pool.rows) == {} && PortsOf(s.pool.claims) == {} && Elements(s.pool.free) == {};
  }

  // At every point of every guarded run, each exposed row of a board that is not being destroyed
  // is in its agent's allow list, the lists hold no duplicates and no port is exposed twice.
  lemma ExposedRowsStayAllowed(lo: int, hi: int, agentOf: map<Board, Agent>, events: seq<Event>)
    requires AllGuarded(Initial(lo, hi, agentOf), events)
    ensures CoveredThroughout(Initial(lo, hi, agentOf), events)
    ensures var s := Run(Initial(lo, hi, agentOf), events);
            && DistinctLists(s)
            && (forall r, r' :: r in s.pool.rows && r' in s.pool.rows && r != r' ==>
                  s.pool.rows[r].port != s.pool.rows[r'].port)
  {
    var s := Initial(lo, hi, agentOf);
    InitialInv(lo, hi, agentOf);
    RunKeepsInv(s, events);
    GuardedIsSafe(s, events);
    RunCoversIff(s, events);
  }

  // The family of runs that breaks it: ServiceDisable gives the port back before it
  // removes the allow-list entry, and a second handler may expose the port for the same board
  // in between.
  lemma RedrawDuringRemovalUncovers(s: State, r: RowId, x: int, t: TaskId, name: string, r': RowId)
    requires Inv(s) && Covered(s) && r in s.pool.rows && s.pool.rows[r].service.Plain?
    requires Exists(s, s.pool.rows[r].board) && s.pool.rows[r].board !in s.dying
    requires x !in s.removing && t !in s.pool.claims && r' !in s.pool.rows
    ensures var b, p := s.pool.rows[r].board, s.pool.rows[r].port;
            var s1 := Step(s, Disable(r, x));
            var s2 := Step(s1, Claim(t, b, name, p));
            var s3 := Step(Step(s2, Allow(t)), Disallow(x));
            var s4 := Step(s3, Record(t, r'));
            && PortPool.Guarded(s1.pool, Draw(t, b, Plain(name), p))
            && r' in s4.pool.rows && s4.pool.rows[r'] == Exposure(b, Plain(name), p)
            && !Covered(s4)
  {
    var y := s.pool.rows[r];
    var b, p, e := y.board, y.port, EntryOf(y);
    var s1 := Step(s, Disable(r, x));
    var s2 := Step(s1, Claim(t, b, name, p));
    ReclaimSamePort(s, r, x, t, name);
    var s3 := Step(s2, Allow(t));
    assert IsAllowed(s, y) && s3.allow == s.allow;
    var s4 := Step(s3, Disallow(x));
    RemoveFirstDistinct(s.allow[s.agentOf[b]], e);
    assert e in s4.allow[s.agentOf[b]] <==> e in Elements(s4.allow[s.agentOf[b]]);
    var s5 := Step(s4, Record(t, r'));
    assert !IsAllowed(s5, s5.pool.rows[r']);
  }

  // A released port is on the list, so another handler may draw it at once.
  lemma ReclaimSamePort(s: State, r: RowId, x: int, t: TaskId, name: string)
    requires Inv(s) && r in s.pool.rows && s.pool.rows[r].service.Plain?
    requires Exists(s, s.pool.rows[r].board) && x !in s.removing && t !in s.pool.claims
    ensures var b, p := s.pool.rows[r].board, s.pool.rows[r].port;
            var s1 := Step(s, Disable(r, x));
            var s2 := Step(s1, Claim(t, b, name, p));
            && PortPool.Guarded(s1.pool, Draw(t, b, Plain(name), p))
            && s2 == s1.(pool := s2.pool) && s1 == s.(pool := s1.pool, removing := s.removing[x := (b, p)])
            && s2.pool.rows == s.pool.rows - {r}
            && s2.pool.claims == s.pool.claims[t := Exposure(b, Plain(name), p)]
  {
    var p := s.pool.rows[r].port;
    assert p in Step(s, Disable(r, x)).pool.free;
  }

  // ---------- What becomes of entries and ports ----------

  // The entry of an exposed row, of a task in flight or of a removal still to come.
  ghost predicate Justified(s: State, e: Entry) {
    || (exists r :: r in s.pool.rows && EntryOf(s.pool.rows[r]) == e)
    || (exists t :: t in s.listed && t in s.pool.claims && EntryOf(s.pool.claims[t]) == e)
    || (exists x :: x in s.removing && s.removing[x] == e)
  }

  // The entries a step leaves behind for good: that of a listed task that is given up, and those
  // still listed when their board goes.
  function LeftBehind(s: State, e: Event): set<Entry> {
    if !Enabled(s, e) then {} else
    match e
    case GiveUp(t) => if t in s.listed then {EntryOf(s.pool.claims[t])} else {}
    case FinishDestroy(b) =>
      set r | r in s.pool.rows && s.pool.rows[r].board == b && IsAllowed(s, s.pool.rows[r]) :: EntryOf(s.pool.rows[r])
    case _ => {}
  }

  function Strays(s: State, events: seq<Event>): set<Entry> {
    if events == [] then {}
    else
      var front := events[..|events| - 1];
      Strays(s, front) + LeftBehind(Run(s, front), events[|events| - 1])
  }

  // Every entry is in its own board's agent's list and is justified or left behind.
  ghost predicate Accounted(s: State, strays: set<Entry>) {
    forall a, e :: a in s.allow && e in s.allow[a] ==>
      e.0 in s.agentOf && s.agentOf[e.0] == a && (Justified(s, e) || e in strays)
  }

  lemma UnlistedGone(s: State, e: Entry)
    requires DistinctLists(s) && e.0 in s.agentOf && s.agentOf[e.0] in s.allow
    ensures e !in Unlisted(s, e)[s.agentOf[e.0]]
    ensures forall a, y :: a in s.allow && y in Unlisted(s, e)[a] ==> y in s.allow[a]
  {
    var list := s.allow[s.agentOf[e.0]];
    RemoveFirstDistinct(list, e);
    forall y | y in RemoveFirst(list, e) ensures y in list && y != e {
      assert y in Elements(RemoveFirst(list, e));
    }
  }

  // Removing the entry of a board's row when the board is destroyed takes it out of the list.
  lemma DestroyedEntryGone(s: State, r: RowId)
    requires Inv(s) && Enabled(s, DestroyEntry(r)) && s.pool.rows[r].board in s.agentOf
    ensures !IsAllowed(Step(s, DestroyEntry(r)), s.pool.rows[r])
  {
    UnlistedGone(s, EntryOf(s.pool.rows[r]));
  }

  // So a board whose rows' entries have all been removed leaves none behind.
  lemma CleanDestroyLeavesNothing(s: State, b: Board)
    requires forall r :: r in s.pool.rows && s.pool.rows[r].board == b ==> !IsAllowed(s, s.pool.rows[r])
    ensures LeftBehind(s, FinishDestroy(b)) == {}
  {
  }

  // The entry of the row or task a step takes away stays justified or is left behind.
  lemma StepJustifies(s: State, e: Event, y: Entry, a: Agent)
    requires Inv(s) && Enabled(s, e) && Justified(s, y)
    requires y.0 in s.agentOf && s.agentOf[y.0] == a && a in Step(s, e).allow && y in Step(s, e).allow[a]
    ensures Justified(Step(s, e), y) || y in LeftBehind(s, e)
  {
    if r :| r in s.pool.rows && EntryOf(s.pool.rows[r]) == y {
      RowJustifies(s, e, r, a);
    } else if t :| t in s.listed && t in s.pool.claims && EntryOf(s.pool.claims[t]) == y {
      TaskJustifies(s, e, t);
    } else {
      var x :| x in s.removing && s.removing[x] == y;
      RemovalJustifies(s, e, x, a);
    }
  }

  lemma RowJustifies(s: State, e: Event, r: RowId, a: Agent)
    requires Enabled(s, e) && r in s.pool.rows && WebPort(s, s.pool.rows[r])
    requires var y := EntryOf(s.pool.rows[r]);
             y.0 in s.agentOf && s.agentOf[y.0] == a && a in Step(s, e).allow && y in Step(s, e).allow[a]
    ensures var y := EntryOf(s.pool.rows[r]); Justified(Step(s, e), y) || y in LeftBehind(s, e)
  {
    var s', row := Step(s, e), s.pool.rows[r];
    if r in s'.pool.rows {
      assert s'.pool.rows[r] == row;
    } else {
      match e
      case Disable(_, x) => assert s'.removing[x] == EntryOf(row);
      case DropHttp(_, x) => assert s'.removing[x] == EntryOf(row);
      case DropHttps(_, x) => assert s'.removing[x] == EntryOf(row);
      case FinishDestroy(_) => assert IsAllowed(s, row);
    }
  }

  lemma TaskJustifies(s: State, e: Event, t: TaskId)
    requires Enabled(s, e) && t in s.listed && t in s.pool.claims
    ensures var y := EntryOf(s.pool.claims[t]); Justified(Step(s, e), y) || y in LeftBehind(s, e)
  {
    var s', x := Step(s, e), s.pool.claims[t];
    if t in s'.listed {
      assert t in s'.pool.claims && s'.pool.claims[t] == x;
    } else {
      match e
      case Record(_, r) => assert s'.pool.rows[r] == x;
      case GiveUp(_) =>
    }
  }

  lemma RemovalJustifies(s: State, e: Event, x: int, a: Agent)
    requires DistinctLists(s) && Enabled(s, e) && x in s.removing
    requires var y := s.removing[x];
             y.0 in s.agentOf && s.agentOf[y.0] == a && a in Step(s, e).allow && y in Step(s, e).allow[a]
    ensures Justified(Step(s, e), s.removing[x])
  {
    var s' := Step(s, e);
    if x in s'.removing {
      assert s'.removing[x] == s.removing[x];
    } else {
      UnlistedGone(s, s.removing[x]);
    }
  }

  // A step puts no entry into a list but that of the task it lists.
  lemma StepLists(s: State, e: Event, a: Agent, y: Entry)
    requires DistinctLists(s) && Enabled(s, e) && a in Step(s, e).allow && y in Step(s, e).allow[a]
    ensures a in s.allow
    ensures y !in s.allow[a] ==> e.Allow? && y == EntryOf(s.pool.claims[e.task]) && s.agentOf[y.0] == a
  {
    match e
    case Disallow(x) =>
      var d := s.removing[x];
      if d.0 in s.agentOf && s.agentOf[d.0] in s.allow { UnlistedGone(s, d); }
    case DestroyEntry(r) =>
      var d := EntryOf(s.pool.rows[r]);
      if d.0 in s.agentOf && s.agentOf[d.0] in s.allow { UnlistedGone(s, d); }
    case _ =>
  }

  lemma StepAccounted(s: State, e: Event, strays: set<Entry>)
    requires Inv(s) && Accounted(s, strays)
    ensures Accounted(Step(s, e), strays + LeftBehind(s, e))
  {
    if Enabled(s, e) {
      var s' := Step(s, e);
      forall a, y | a in s'.allow && y in s'.allow[a]
        ensures y.0 in s'.agentOf && s'.agentOf[y.0] == a && (Justified(s', y) || y in strays + LeftBehind(s, e))
      {
        StepLists(s, e, a, y);
        if y in s.allow[a] {
          if Justified(s, y) {
            StepJustifies(s, e, y, a);
          }
        } else {
          assert e.task in s'.listed && s'.pool.claims[e.task] == s.pool.claims[e.task];
        }
      }
    }
  }

  // Over every guarded run each entry of an allow list belongs to an exposed row, a task in flight
  // or a removal still to come, unless a listed task was given up or a board went while listed.
  lemma {:induction false} EntriesAccounted(lo: int, hi: int, agentOf: map<Board, Agent>, events: seq<Event>)
    requires AllGuarded(Initial(lo, hi, agentOf), events)
    ensures Accounted(Run(Initial(lo, hi, agentOf), events), Strays(Initial(lo, hi, agentOf), events))
  {
    if events != [] {
      var start, front := Initial(lo, hi, agentOf), events[..|events| - 1];
      EntriesAccounted(lo, hi, agentOf, front);
      InitialInv(lo, hi, agentOf);
      RunKeepsInv(start, front);
      StepAccounted(Run(start, front), events[|events| - 1], Strays(start, front));
    }
  }

  // A task ends when its row is recorded or it is given up; its port is then exposed or lost.
  lemma TasksEnd(s: State, t: TaskId, r: RowId)
    ensures Enabled(s, Record(t, r)) ==>
              var s' := Step(s, Record(t, r));
              t !in s'.pool.claims && t !in s'.listed && r in s'.pool.rows && s'.pool.rows[r] == s.pool.claims[t]
    ensures Enabled(s, GiveUp(t)) ==>
              var s' := Step(s, GiveUp(t));
              && t !in s'.pool.claims && t !in s'.listed && s'.pool.rows == s.pool.rows
              && s.pool.claims[t].port in s'.pool.lost && s'.allow == s.allow
  {
  }

  // A board that is being destroyed is marked from the start; when it is gone so are its rows, and
  // it is never there again.
  lemma BoardsEnd(s: State, b: Board)
    ensures Enabled(s, BeginDestroy(b)) ==>
              var s' := Step(s, BeginDestroy(b));
              b in s'.dying && s'.pool == s.pool && s'.allow == s.allow
    ensures Enabled(s, FinishDestroy(b)) ==>
              var s' := Step(s, FinishDestroy(b));
              && !Exists(s', b) && (forall r :: r in s'.pool.rows ==> s'.pool.rows[r].board != b)
              && (forall r :: r in s.pool.rows && s.pool.rows[r].board != b ==>
                    r in s'.pool.rows && s'.pool.rows[r] == s.pool.rows[r])
    ensures Enabled(s, Forget(b)) ==> b !in Step(s, Forget(b)).web
  {
  }

  lemma GoneForGood(s: State, e: Event, b: Board)
    requires b in s.destroyed
    ensures b in Step(s, e).destroyed
    ensures (forall r :: r in s.pool.rows ==> s.pool.rows[r].board != b) ==>
              forall r :: r in Step(s, e).pool.rows ==> Step(s, e).pool.rows[r].board != b
  {
  }

  // Disabling a webservice gives its https port back, and not its http port, which is only found
  // again by a rebuild.
  lemma WebPortsReturned(s: State, r: RowId, x: int)
    requires Inv(s)
    ensures Enabled(s, DropHttps(r, x)) ==>
              var b := s.pool.rows[r].board;
              && Step(s, DropHttps(r, x)).pool.free == s.pool.free + [s.web[b].1]
              && Step(s, DropHttps(r, x)).removing[x] == (b, s.web[b].1)
    ensures Enabled(s, DropHttp(r, x)) ==>
              var b := s.pool.rows[r].board;
              && Step(s, DropHttp(r, x)).pool.free == s.pool.free
              && s.web[b].0 in Step(s, DropHttp(r, x)).pool.lost
              && Step(s, DropHttp(r, x)).removing[x] == (b, s.web[b].0)
  {
    if r in s.pool.rows {
      assert WebPort(s, s.pool.rows[r]);
    }
  }
}
