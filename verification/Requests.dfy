/** Requests and results: how a main request counts down as the results of its children arrive
    (iotronic/conductor/endpoints.py, iotronic/wamp/functions.py).

    A command is issued in one step (its rows are created) and answered in another, so that a
    board's notification may overtake the synchronous reply. */
module Requests {
  import opened Collections

  type BoardId = string
  type ReqId = string

  datatype Status = Pending | Completed

  datatype Outcome = Running | Success | Warning | Error

  datatype Row = Row(main: Option<ReqId>, pending: int, status: Status)

  datatype Tables = Tables(requests: map<ReqId, Row>, results: map<(BoardId, ReqId), Outcome>)

  // ---------- Table semantics ----------

  // Rows selected by {"result": RUNNING, "request_uuid": r}: of r itself or of a child of r.
  function RunningFor(t: Tables, r: ReqId): set<(BoardId, ReqId)> {
    set k | k in t.results && t.results[k] == Running
            && k.1 in t.requests && (t.requests[k.1].main == Some(r) || k.1 == r)
  }

  function CountDown(row: Row): Row {
    var left := row.pending - 1;
    Row(row.main, left, if left == 0 then Completed else row.status)
  }

  // Mark r completed and count its main request down.
  function Complete(requests: map<ReqId, Row>, r: ReqId): map<ReqId, Row>
    requires r in requests
  {
    var marked := requests[r := requests[r].(status := Completed)];
    match requests[r].main
    case None => marked
    case Some(m) => if m in marked then marked[m := CountDown(marked[m])] else marked
  }

  function Reply(t: Tables, b: BoardId, r: ReqId, o: Outcome): Tables
    requires r in t.requests
  {
    if o == Running then t else Tables(Complete(t.requests, r), t.results[(b, r) := o])
  }

  function Notified(t: Tables, b: BoardId, r: ReqId, o: Outcome): Tables {
    if (b, r) !in t.results then t
    else
      var t' := t.(results := t.results[(b, r) := o]);
      if RunningFor(t', r) == {} && r in t.requests then t'.(requests := Complete(t.requests, r)) else t'
  }

  class RequestTables {
    var requests: map<ReqId, Row>
    var results: map<(BoardId, ReqId), Outcome>

    ghost function View(): Tables
      reads this
    {
      Tables(requests, results)
    }

    // Children refer to existing main requests, results to existing requests.
    ghost predicate Valid()
      reads this
    {
      && (forall r :: r in requests && requests[r].main.Some? ==> requests[r].main.value in requests)
      && (forall k :: k in results ==> k.1 in requests)
    }

    // The tail of execute_on_board, once the agent's reply is in.
    method ProcessReply(board: BoardId, req: ReqId, response: Outcome)
      requires Valid() && req in requests
      modifies this
      ensures Valid() && View() == Reply(old(View()), board, req, response)
    {
      if response != Running {
        results := results[(board, req) := response];
        requests := requests[req := requests[req].(status := Completed)];
        if requests[req].main.Some? {
          CountMainDown(requests[req].main.value);
        }
      }
    }

    method CountMainDown(main: ReqId)
      requires main in requests
      modifies this`requests
      ensures requests == old(requests)[main := CountDown(old(requests)[main])]
      ensures requests[main].pending == old(requests)[main].pending - 1
      ensures requests[main].status ==
              if old(requests)[main].pending == 1 then Completed else old(requests)[main].status
    {
      var mreq := requests[main];
      mreq := mreq.(pending := mreq.pending - 1);
      if mreq.pending == 0 {
        mreq := mreq.(status := Completed);
      }
      requests := requests[main := mreq];
    }

    method NotifyResult(board: BoardId, req: ReqId, result: Outcome) returns (r: Result<string>)
      requires Valid()
      modifies this
      ensures Valid() && View() == Notified(old(View()), board, req, result)
      ensures r.Err? <==> (board, req) !in old(results)
    {
      if (board, req) !in results {
        return Err("result not found");
      }
      assert (board, req).1 in requests;
      results := results[(board, req) := result];
      if RunningFor(Tables(requests, results), req) == {} {
        requests := requests[req := requests[req].(status := Completed)];
        if requests[req].main.Some? {
          CountMainDown(requests[req].main.value);
        }
      }
      r := Ok("notification_received");
    }
  }

  // ---------- Runs ----------

  // The handlers that open a main request: enable_webservice, disable_webservice (which calls an
  // offline board not at all) and renew_webservice.
  datatype Kind = Enable | Disable(online: bool) | Renew

  function Announced(k: Kind): nat {
    if k.Renew? then 1 else 3
  }

  function Calls(k: Kind): nat {
    match k
    case Enable => 3
    case Disable(online) => if online then 3 else 0
    case Renew => 1
  }

  // A running handler and the number of calls it may still make.
  datatype Handler = Handler(kind: Kind, left: nat)

  // `waiting`: requests whose synchronous call has not returned yet.
  datatype State = State(t: Tables, handlers: map<ReqId, Handler>, waiting: map<ReqId, BoardId>)

  datatype Event =
    | Open(main: ReqId, kind: Kind)
    | Refuse(main: ReqId, board: BoardId)
    | Issue(req: ReqId, board: BoardId, parent: Option<ReqId>)
    | Respond(req: ReqId, outcome: Outcome)
    | TimeOut(req: ReqId)
    | Notify(board: BoardId, req: ReqId, outcome: Outcome)

  predicate Enabled(s: State, e: Event) {
    match e
    case Open(m, _) => m !in s.t.requests
    case Refuse(m, _) => m !in s.t.requests
    case Issue(r, _, parent) =>
      r !in s.t.requests && (parent.Some? ==> parent.value in s.handlers && s.handlers[parent.value].left > 0)
    case Respond(r, _) => r in s.waiting && r in s.t.requests
    case TimeOut(r) => r in s.waiting
    case Notify(_, _, _) => true
  }

  // Events that the state rules out change nothing, so every event list is a run.
  function Step(s: State, e: Event): State {
    if !Enabled(s, e) then s else
    match e
    case Open(m, k) =>
      s.(t := s.t.(requests := s.t.requests[m := Row(None, Announced(k), Pending)]),
         handlers := s.handlers[m := Handler(k, Calls(k))])
    case Refuse(m, b) =>
      s.(t := Tables(s.t.requests[m := Row(None, 0, Completed)], s.t.results[(b, m) := Warning]))
    case Issue(r, b, parent) =>
      State(Tables(s.t.requests[r := Row(parent, 0, Pending)], s.t.results[(b, r) := Running]),
            match parent
            case None => s.handlers
            case Some(m) => s.handlers[m := s.handlers[m].(left := s.handlers[m].left - 1)],
            s.waiting[r := b])
    case Respond(r, o) =>
      s.(t := Reply(s.t, s.waiting[r], r, o), waiting := s.waiting - {r})
    case TimeOut(r) =>
      s.(waiting := s.waiting - {r})
    case Notify(b, r, o) =>
      s.(t := Notified(s.t, b, r, o))
  }

  const EMPTY := State(Tables(map[], map[]), map[], map[])

  function Run(events: seq<Event>): State {
    if events == [] then EMPTY else Step(Run(events[..|events| - 1]), events[|events| - 1])
  }

  // ---------- Deliveries ----------

  // The event hands the tables a terminal outcome for an existing result row of r.
  predicate Delivers(s: State, e: Event, r: ReqId) {
    match e
    case Respond(r', o) => r' == r && o != Running && Enabled(s, e)
    case Notify(b, r', o) => r' == r && o != Running && (b, r) in s.t.results
    case _ => false
  }

  function Target(e: Event): ReqId {
    match e
    case Open(m, _) => m
    case Refuse(m, _) => m
    case Issue(r, _, _) => r
    case Respond(r, _) => r
    case TimeOut(r) => r
    case Notify(_, r, _) => r
  }

  function DeliveriesTo(events: seq<Event>, r: ReqId): nat {
    if events == [] then 0
    else
      var front, e := events[..|events| - 1], events[|events| - 1];
      DeliveriesTo(front, r) + if Delivers(Run(front), e, r) then 1 else 0
  }

  predicate ChildOf(s: State, r: ReqId, m: ReqId) {
    r in s.t.requests && s.t.requests[r].main == Some(m)
  }

  function Done(s: State, m: ReqId): set<ReqId> {
    set r | r in s.t.requests && ChildOf(s, r, m) && s.t.requests[r].status == Completed
  }

  function Children(s: State, m: ReqId): set<ReqId> {
    set r | r in s.t.requests && ChildOf(s, r, m)
  }

  // Deliveries to children of m that had already completed.
  function Repeats(events: seq<Event>, m: ReqId): nat {
    if events == [] then 0
    else
      var front, e := events[..|events| - 1], events[|events| - 1];
      var s, r := Run(front), Target(e);
      Repeats(front, m) + if Delivers(s, e, r) && r in Done(s, m) then 1 else 0
  }

  ghost predicate Inv(s: State) {
    && (forall k :: k in s.t.results ==> k.1 in s.t.requests)
    && (forall k, k' :: k in s.t.results && k' in s.t.results && k.1 == k'.1 ==> k == k')
    && (forall m :: m in s.handlers ==> m in s.t.requests && s.t.requests[m].main == None)
    && (forall m, k :: m in s.handlers && k in s.t.results ==> k.1 != m)
    && (forall r, m :: ChildOf(s, r, m) ==> m in s.handlers)
    && (forall r :: r in s.waiting ==> (s.waiting[r], r) in s.t.results)
  }

  lemma CompleteKeeps(requests: map<ReqId, Row>, r: ReqId)
    requires r in requests
    ensures Complete(requests, r).Keys == requests.Keys
    ensures forall q :: q in requests ==> Complete(requests, r)[q].main == requests[q].main
  {
  }

  // Replies and notifications neither add nor remove rows, and leave the parent links alone.
  ghost predicate SameShape(s: State, s': State) {
    && s'.t.requests.Keys == s.t.requests.Keys
    && (forall r :: r in s.t.requests ==> s'.t.requests[r].main == s.t.requests[r].main)
    && s'.t.results.Keys == s.t.results.Keys
    && s'.handlers == s.handlers
    && s'.waiting.Keys <= s.waiting.Keys
    && (forall r :: r in s'.waiting ==> s'.waiting[r] == s.waiting[r])
  }

  predicate IsAnswer(e: Event) {
    e.Respond? || e.TimeOut? || e.Notify?
  }

  lemma AnswerKeepsShape(s: State, e: Event)
    requires Inv(s) && IsAnswer(e)
    ensures SameShape(s, Step(s, e))
  {
    if Enabled(s, e) && e.req in s.t.requests {
      CompleteKeeps(s.t.requests, e.req);
    }
  }

  lemma SameShapeKeepsInv(s: State, s': State)
    requires Inv(s) && SameShape(s, s')
    ensures Inv(s')
  {
    forall r, m | ChildOf(s', r, m) ensures m in s'.handlers {
      assert ChildOf(s, r, m);
    }
  }

  // The other events add at most one row, under a new id.
  function NewRow(e: Event): Row {
    match e
    case Open(_, k) => Row(None, Announced(k), Pending)
    case Refuse(_, _) => Row(None, 0, Completed)
    case Issue(_, _, parent) => Row(parent, 0, Pending)
    case _ => Row(None, 0, Pending)
  }

  lemma OpeningEffect(s: State, e: Event)
    requires !IsAnswer(e) && Enabled(s, e)
    ensures Target(e) !in s.t.requests
    ensures Step(s, e).t.requests == s.t.requests[Target(e) := NewRow(e)]
  {
  }

  lemma OpenKeepsInv(s: State, m: ReqId, k: Kind)
    requires Inv(s) && m !in s.t.requests
    ensures Inv(Step(s, Open(m, k)))
  {
    var s' := Step(s, Open(m, k));
    forall r, p | ChildOf(s', r, p) ensures p in s'.handlers {
      assert ChildOf(s, r, p);
    }
  }

  lemma RefuseKeepsInv(s: State, m: ReqId, b: BoardId)
    requires Inv(s) && m !in s.t.requests
    ensures Inv(Step(s, Refuse(m, b)))
  {
    var s' := Step(s, Refuse(m, b));
    forall r, p | ChildOf(s', r, p) ensures p in s'.handlers {
      assert ChildOf(s, r, p);
    }
    assert forall k :: k in s.t.results ==> k.1 != m;
  }

  lemma IssueKeepsInv(s: State, r: ReqId, b: BoardId, parent: Option<ReqId>)
    requires Inv(s) && Enabled(s, Issue(r, b, parent))
    ensures Inv(Step(s, Issue(r, b, parent)))
  {
    var s' := Step(s, Issue(r, b, parent));
    assert s'.handlers.Keys == s.handlers.Keys;
    IssuedKeepsInv(s, s', r, b, parent);
  }

  lemma IssuedKeepsInv(s: State, s': State, r: ReqId, b: BoardId, parent: Option<ReqId>)
    requires Inv(s) && r !in s.t.requests && (parent.Some? ==> parent.value in s.handlers)
    requires s'.t == Tables(s.t.requests[r := Row(parent, 0, Pending)], s.t.results[(b, r) := Running])
    requires s'.handlers.Keys == s.handlers.Keys && s'.waiting == s.waiting[r := b]
    ensures Inv(s')
  {
    forall q, p | ChildOf(s', q, p) ensures p in s'.handlers {
      assert ChildOf(s, q, p) || (q == r && parent == Some(p));
    }
    assert forall k :: k in s.t.results ==> k.1 != r;
  }

  lemma StepKeepsInv(s: State, e: Event)
    requires Inv(s)
    ensures Inv(Step(s, e))
  {
    if IsAnswer(e) {
      AnswerKeepsShape(s, e);
      SameShapeKeepsInv(s, Step(s, e));
    } else if Enabled(s, e) {
      match e
      case Open(m, k) => OpenKeepsInv(s, m, k);
      case Refuse(m, b) => RefuseKeepsInv(s, m, b);
      case Issue(r, b, parent) => IssueKeepsInv(s, r, b, parent);
    }
  }

  // ---------- Accounting ----------

  // An answer changes the requests exactly when it delivers a terminal outcome.
  lemma AnswerEffect(s: State, e: Event)
    requires Inv(s) && IsAnswer(e)
    ensures Delivers(s, e, e.req) ==> e.req in s.t.requests && e.req !in s.handlers
    ensures Step(s, e).t.requests ==
            if Delivers(s, e, e.req) then Complete(s.t.requests, e.req) else s.t.requests
  {
    if e.Notify? && (e.board, e.req) in s.t.results {
      var r, key := e.req, (e.board, e.req);
      assert key.1 in s.t.requests;
      var t' := s.t.(results := s.t.results[key := e.outcome]);
      if e.outcome == Running {
        assert key in RunningFor(t', r);
      } else {
        forall k | k in t'.results && t'.results[k] == Running && k.1 in s.t.requests
          ensures s.t.requests[k.1].main != Some(r) && k.1 != r
        {
          assert k.1 == r ==> k == key;
          assert s.t.requests[k.1].main == Some(r) ==> ChildOf(s, k.1, r);
        }
        assert RunningFor(t', r) == {};
      }
    }
  }

  // A main request m whose handler announced n children: its counter is n minus its completed
  // children minus the repeated deliveries, it is completed once they add up to n, and the handler
  // has issued no more children than it may.
  ghost predicate Accounted(s: State, m: ReqId, repeats: nat)
    requires m in s.handlers && m in s.t.requests
  {
    var n, row := Announced(s.handlers[m].kind), s.t.requests[m];
    && row.pending == n - |Done(s, m)| - repeats
    && (row.status == Completed <==> |Done(s, m)| + repeats >= n)
    && |Children(s, m)| + s.handlers[m].left == Calls(s.handlers[m].kind)
  }

  lemma AnswerAccounted(s: State, e: Event, m: ReqId, repeats: nat)
    requires Inv(s) && IsAnswer(e) && m in s.handlers && Accounted(s, m, repeats)
    ensures var s' := Step(s, e);
            m in s'.handlers && m in s'.t.requests &&
            Accounted(s', m, repeats + if Delivers(s, e, e.req) && e.req in Done(s, m) then 1 else 0)
  {
    var s', r := Step(s, e), e.req;
    AnswerKeepsShape(s, e);
    AnswerEffect(s, e);
    if Delivers(s, e, r) && ChildOf(s, r, m) {
      ChildCompletes(s, s', r, m, repeats);
    } else {
      OthersUnmoved(s, s', r, m);
      assert r !in Done(s, m) || !Delivers(s, e, r);
    }
  }

  lemma ChildCompletes(s: State, s': State, r: ReqId, m: ReqId, repeats: nat)
    requires Inv(s) && m in s.handlers && Accounted(s, m, repeats) && ChildOf(s, r, m)
    requires s'.t.requests == Complete(s.t.requests, r) && s'.handlers == s.handlers
    ensures Accounted(s', m, repeats + if r in Done(s, m) then 1 else 0)
  {
    ChildMoves(s, s', r, m);
    if r in Done(s, m) {
      assert Done(s, m) + {r} == Done(s, m);
    }
  }

  lemma ChildMoves(s: State, s': State, r: ReqId, m: ReqId)
    requires Inv(s) && m in s.handlers && ChildOf(s, r, m)
    requires s'.t.requests == Complete(s.t.requests, r)
    ensures m in s'.t.requests && s'.t.requests[m] == CountDown(s.t.requests[m])
    ensures Done(s', m) == Done(s, m) + {r} && Children(s', m) == Children(s, m)
  {
    assert r != m;
  }

  lemma OthersUnmoved(s: State, s': State, r: ReqId, m: ReqId)
    requires Inv(s) && m in s.handlers
    requires s'.t.requests == s.t.requests ||
             (r in s.t.requests && r !in s.handlers && !ChildOf(s, r, m)
              && s'.t.requests == Complete(s.t.requests, r))
    ensures m in s'.t.requests && s'.t.requests[m] == s.t.requests[m]
    ensures Done(s', m) == Done(s, m) && Children(s', m) == Children(s, m)
  {
    if r in s.t.requests && s.t.requests[r].main.Some? {
      var other := s.t.requests[r].main.value;
      assert ChildOf(s, r, other);
      assert !ChildOf(s, other, m);
    }
  }

  lemma RowAdded(s: State, s': State, x: ReqId, row: Row, m: ReqId)
    requires Inv(s) && m in s.handlers && x !in s.t.requests
    requires s'.t.requests == s.t.requests[x := row] && (row.main == Some(m) ==> row.status == Pending)
    ensures m in s'.t.requests && s'.t.requests[m] == s.t.requests[m]
    ensures Done(s', m) == Done(s, m)
    ensures x !in Children(s, m)
    ensures Children(s', m) == Children(s, m) + if row.main == Some(m) then {x} else {}
  {
  }

  lemma IssueAccounted(s: State, e: Event, m: ReqId, repeats: nat)
    requires Inv(s) && !IsAnswer(e) && m in s.handlers && Accounted(s, m, repeats)
    ensures var s' := Step(s, e); m in s'.handlers && m in s'.t.requests && Accounted(s', m, repeats)
  {
    if Enabled(s, e) {
      OpeningEffect(s, e);
      RowAdded(s, Step(s, e), Target(e), NewRow(e), m);
    }
  }

  lemma OpenAccounted(s: State, e: Event, m: ReqId)
    requires Inv(s) && m !in s.handlers && m in Step(s, e).handlers
    ensures var s' := Step(s, e); m in s'.t.requests && Accounted(s', m, 0) && Done(s, m) == {}
  {
    var s' := Step(s, e);
    if IsAnswer(e) {
      AnswerKeepsShape(s, e);
    }
    assert e.Open? && e.main == m;
    assert forall r :: r in s.t.requests ==> !ChildOf(s, r, m);
    assert forall r :: r in s'.t.requests ==> !ChildOf(s', r, m);
  }

  lemma {:induction false} NoRepeatsBeforeOpen(events: seq<Event>, m: ReqId)
    requires m !in Run(events).handlers
    ensures Repeats(events, m) == 0
  {
    if events != [] {
      var front, e := events[..|events| - 1], events[|events| - 1];
      RunKeepsInv(front);
      if m in Run(front).handlers && IsAnswer(e) {
        AnswerKeepsShape(Run(front), e);
      }
      NoRepeatsBeforeOpen(front, m);
      assert forall r :: !ChildOf(Run(front), r, m);
    }
  }

  lemma {:induction false} RunKeepsInv(events: seq<Event>)
    ensures Inv(Run(events))
  {
    if events != [] {
      RunKeepsInv(events[..|events| - 1]);
      StepKeepsInv(Run(events[..|events| - 1]), events[|events| - 1]);
    }
  }

  // The exact law, over every run and whatever the boards deliver.
  lemma {:induction false} RunAccounted(events: seq<Event>, m: ReqId)
    requires m in Run(events).handlers
    ensures m in Run(events).t.requests && Accounted(Run(events), m, Repeats(events, m))
  {
    var front, e := events[..|events| - 1], events[|events| - 1];
    var s := Run(front);
    RunKeepsInv(front);
    if m !in s.handlers {
      NoRepeatsBeforeOpen(front, m);
      OpenAccounted(s, e, m);
    } else {
      RunAccounted(front, m);
      if IsAnswer(e) {
        AnswerAccounted(s, e, m, Repeats(front, m));
      } else {
        IssueAccounted(s, e, m, Repeats(front, m));
      }
    }
  }

  // ---------- Main results ----------

  lemma CompleteOnChild(s: State, s': State, q: ReqId, r: ReqId, m: ReqId)
    requires Inv(s) && ChildOf(s, r, m) && q in s.t.requests && q !in s.handlers
    requires s'.t.requests == Complete(s.t.requests, q)
    ensures ChildOf(s', r, m) && (r in Done(s', m) <==> r in Done(s, m) || q == r)
  {
    if s.t.requests[q].main.Some? {
      assert ChildOf(s, q, s.t.requests[q].main.value);
    }
  }

  lemma StepOnChild(s: State, e: Event, r: ReqId, m: ReqId)
    requires Inv(s) && ChildOf(s, r, m)
    ensures ChildOf(Step(s, e), r, m)
    ensures r in Done(Step(s, e), m) <==> r in Done(s, m) || Delivers(s, e, r)
  {
    if IsAnswer(e) {
      AnswerEffect(s, e);
      if Delivers(s, e, e.req) {
        CompleteOnChild(s, Step(s, e), e.req, r, m);
      }
    } else if Enabled(s, e) {
      OpeningEffect(s, e);
    }
  }

  lemma StepMakesChild(s: State, e: Event, r: ReqId, m: ReqId)
    requires Inv(s) && !ChildOf(s, r, m) && ChildOf(Step(s, e), r, m)
    ensures r !in s.t.requests && r !in Done(Step(s, e), m) && !Delivers(s, e, r)
  {
    if IsAnswer(e) {
      AnswerKeepsShape(s, e);
    }
  }

  lemma {:induction false} CompletedIffDelivered(events: seq<Event>, r: ReqId, m: ReqId)
    requires ChildOf(Run(events), r, m)
    ensures r in Done(Run(events), m) <==> DeliveriesTo(events, r) > 0
  {
    var front, e := events[..|events| - 1], events[|events| - 1];
    RunKeepsInv(front);
    if ChildOf(Run(front), r, m) {
      CompletedIffDelivered(front, r, m);
      StepOnChild(Run(front), e, r, m);
    } else {
      StepMakesChild(Run(front), e, r, m);
      NoDeliveryBeforeIssue(front, r);
    }
  }

  lemma {:induction false} NoDeliveryBeforeIssue(events: seq<Event>, r: ReqId)
    requires r !in Run(events).t.requests
    ensures DeliveriesTo(events, r) == 0
  {
    if events != [] {
      var front, e := events[..|events| - 1], events[|events| - 1];
      RunKeepsInv(front);
      if IsAnswer(e) {
        AnswerKeepsShape(Run(front), e);
        AnswerEffect(Run(front), e);
      }
      NoDeliveryBeforeIssue(front, r);
    }
  }

  ghost predicate AtMostOnce(events: seq<Event>, m: ReqId) {
    forall r :: ChildOf(Run(events), r, m) ==> DeliveriesTo(events, r) <= 1
  }

  predicate Repeated(s: State, e: Event, m: ReqId) {
    Delivers(s, e, Target(e)) && Target(e) in Done(s, m)
  }

  lemma ChildDeliveries(front: seq<Event>, e: Event, r: ReqId, m: ReqId)
    requires ChildOf(Run(front), r, m)
    ensures ChildOf(Run(front + [e]), r, m)
    ensures DeliveriesTo(front + [e], r) == DeliveriesTo(front, r) + if Delivers(Run(front), e, r) then 1 else 0
    ensures r in Done(Run(front), m) <==> DeliveriesTo(front, r) > 0
  {
    assert (front + [e])[..|front|] == front;
    RunKeepsInv(front);
    StepOnChild(Run(front), e, r, m);
    CompletedIffDelivered(front, r, m);
  }

  lemma NewChildDeliveries(front: seq<Event>, e: Event, r: ReqId, m: ReqId)
    requires !ChildOf(Run(front), r, m) && ChildOf(Run(front + [e]), r, m)
    ensures DeliveriesTo(front + [e], r) == 0
  {
    assert (front + [e])[..|front|] == front;
    RunKeepsInv(front);
    StepMakesChild(Run(front), e, r, m);
    NoDeliveryBeforeIssue(front, r);
  }

  lemma AtMostOnceSnoc(front: seq<Event>, e: Event, m: ReqId)
    ensures AtMostOnce(front + [e], m) <==> AtMostOnce(front, m) && !Repeated(Run(front), e, m)
  {
    var events, s := front + [e], Run(front);
    if AtMostOnce(front, m) && !Repeated(s, e, m) {
      forall r | ChildOf(Run(events), r, m) ensures DeliveriesTo(events, r) <= 1 {
        if ChildOf(s, r, m) { ChildDeliveries(front, e, r, m); } else { NewChildDeliveries(front, e, r, m); }
      }
    }
    if AtMostOnce(events, m) {
      forall r | ChildOf(s, r, m) ensures DeliveriesTo(front, r) <= 1 {
        ChildDeliveries(front, e, r, m);
      }
      if Target(e) in Done(s, m) {
        ChildDeliveries(front, e, Target(e), m);
      }
    }
  }

  // No repeat was counted exactly when every child got its terminal outcome at most once.
  lemma {:induction false} NoRepeatsIffAtMostOnce(events: seq<Event>, m: ReqId)
    ensures Repeats(events, m) == 0 <==> AtMostOnce(events, m)
  {
    if events != [] {
      var front, e := events[..|events| - 1], events[|events| - 1];
      NoRepeatsIffAtMostOnce(front, m);
      AtMostOnceSnoc(front, e, m);
      assert events == front + [e];
    }
  }

  // Request accounting. The counter of a main request equals the announced number minus its
  // completed children exactly when no child's terminal outcome was delivered twice; then the
  // main request is completed exactly when all announced children are, i.e. when it reads 0.
  lemma RequestAccounting(events: seq<Event>, m: ReqId)
    requires m in Run(events).handlers
    ensures var s := Run(events);
            m in s.t.requests &&
            var n, row := Announced(s.handlers[m].kind), s.t.requests[m];
            && (AtMostOnce(events, m) <==> row.pending == n - |Done(s, m)|)
            && (AtMostOnce(events, m) ==>
                  && 0 <= row.pending
                  && (row.status == Completed <==> row.pending == 0)
                  && (row.status == Completed <==> |Done(s, m)| == n))
  {
    RunAccounted(events, m);
    NoRepeatsIffAtMostOnce(events, m);
    var s := Run(events);
    assert Done(s, m) <= Children(s, m);
    SubsetSize(Done(s, m), Children(s, m));
  }

  // The input that breaks it: after any run, notifying a child's terminal outcome once more makes
  // the counter wrong, and it stays wrong whatever follows.
  lemma RepeatedNotificationMiscounts(events: seq<Event>, more: seq<Event>, m: ReqId, r: ReqId, b: BoardId, o: Outcome)
    requires m in Run(events).handlers && r in Done(Run(events), m)
    requires (b, r) in Run(events).t.results && o != Running
    ensures var s := Run(events + [Notify(b, r, o)] + more);
            && m in s.handlers && m in s.t.requests
            && s.t.requests[m].pending != Announced(s.handlers[m].kind) - |Done(s, m)|
  {
    var once := events + [Notify(b, r, o)];
    NotifiedAgain(events, m, r, b, o);
    RepeatsGrow(once, more, m);
    HandlersStay(events, [Notify(b, r, o)], m);
    HandlersStay(once, more, m);
    RunAccounted(once + more, m);
  }

  lemma NotifiedAgain(events: seq<Event>, m: ReqId, r: ReqId, b: BoardId, o: Outcome)
    requires r in Done(Run(events), m) && (b, r) in Run(events).t.results && o != Running
    ensures Repeats(events + [Notify(b, r, o)], m) > 0
  {
    assert (events + [Notify(b, r, o)])[..|events|] == events;
  }

  lemma {:induction false} RepeatsGrow(events: seq<Event>, more: seq<Event>, m: ReqId)
    ensures Repeats(events, m) <= Repeats(events + more, m)
  {
    if more == [] {
      assert events + more == events;
    } else {
      RepeatsGrow(events, more[..|more| - 1], m);
      assert (events + more)[..|events + more| - 1] == events + more[..|more| - 1];
    }
  }

  lemma {:induction false} HandlersStay(events: seq<Event>, more: seq<Event>, m: ReqId)
    requires m in Run(events).handlers
    ensures m in Run(events + more).handlers
  {
    if more == [] {
      assert events + more == events;
    } else {
      HandlersStay(events, more[..|more| - 1], m);
      assert (events + more)[..|events + more| - 1] == events + more[..|more| - 1];
    }
  }

  lemma SubsetSize(a: set<ReqId>, b: set<ReqId>)
    requires a <= b
    ensures |a| <= |b|
  {
    assert b == a + (b - a);
  }

  // Disabling the webservice of an offline board announces three children and issues none:
  // its main request stays pending for ever.
  lemma OfflineDisableNeverCompletes(events: seq<Event>, m: ReqId)
    requires m in Run(events).handlers && Run(events).handlers[m].kind == Disable(false)
    ensures m in Run(events).t.requests && Run(events).t.requests[m] == Row(None, 3, Pending)
  {
    RunAccounted(events, m);
    RunKeepsInv(events);
    var s := Run(events);
    assert Children(s, m) == {};
    assert Done(s, m) <= Children(s, m);
    assert forall r :: ChildOf(s, r, m) ==> r in Children(s, m);
    NoRepeatsIffAtMostOnce(events, m);
  }

  // ---------- Stored outcomes ----------

  type Key = (BoardId, ReqId)

  // What the events leave in one result row: the outcome of the latest notification of the row or
  // terminal reply to its request. A row starts as RUNNING, or as a warning when it records a
  // refusal.
  function Latest(events: seq<Event>, k: Key): Outcome {
    if events == [] then Running
    else
      var front, e := events[..|events| - 1], events[|events| - 1];
      match e
      case Notify(b, r, o) => if (b, r) == k then o else Latest(front, k)
      case Respond(r, o) =>
        if r == k.1 && r in Run(front).waiting && o != Running then o else Latest(front, k)
      case Issue(r, _, _) => if r == k.1 && r !in Run(front).t.requests then Running else Latest(front, k)
      case Refuse(r, _) => if r == k.1 && r !in Run(front).t.requests then Warning else Latest(front, k)
      case _ => Latest(front, k)
  }

  // The result row a step creates, if any.
  predicate Creates(s: State, e: Event, k: Key) {
    match e
    case Issue(r, b, _) => (b, r) == k && Enabled(s, e)
    case Refuse(r, b) => (b, r) == k && Enabled(s, e)
    case _ => false
  }

  lemma ResultRows(s: State, e: Event, k: Key)
    requires Inv(s) && k in Step(s, e).t.results && k !in s.t.results
    ensures Creates(s, e, k) && k.1 !in s.t.requests
    ensures Step(s, e).t.results[k] == if e.Refuse? then Warning else Running
  {
    if IsAnswer(e) {
      AnswerKeepsShape(s, e);
    }
  }

  // What one step does to a result row that is there.
  lemma StoredStep(s: State, e: Event, k: Key)
    requires Inv(s) && k in s.t.results
    ensures k in Step(s, e).t.results
    ensures Step(s, e).t.results[k] ==
            match e
            case Notify(b, r, o) => if (b, r) == k then o else s.t.results[k]
            case Respond(r, o) => if r == k.1 && r in s.waiting && o != Running then o else s.t.results[k]
            case _ => s.t.results[k]
  {
    assert k.1 in s.t.requests;
    match e
    case Respond(r, o) =>
      if r in s.waiting {
        assert (s.waiting[r], r) in s.t.results;
        assert r == k.1 ==> (s.waiting[r], r) == k;
      }
    case _ =>
  }

  // Over every run each result row holds the latest outcome delivered to it.
  lemma {:induction false} StoredIsLatest(events: seq<Event>, k: Key)
    requires k in Run(events).t.results
    ensures Run(events).t.results[k] == Latest(events, k)
  {
    var front, e := events[..|events| - 1], events[|events| - 1];
    RunKeepsInv(front);
    if k in Run(front).t.results {
      StoredIsLatest(front, k);
      assert k.1 in Run(front).t.requests;
      StoredStep(Run(front), e, k);
    } else {
      ResultRows(Run(front), e, k);
    }
  }

  // A refusal leaves a completed main request without children, and a warning.
  lemma RefusalIsRecorded(s: State, m: ReqId, b: BoardId)
    requires Enabled(s, Refuse(m, b))
    ensures var t := Step(s, Refuse(m, b)).t;
            && m in t.requests && t.requests[m] == Row(None, 0, Completed)
            && (b, m) in t.results && t.results[(b, m)] == Warning
  {
  }

  predicate Finished(s: State, r: ReqId) {
    r in s.t.requests && s.t.requests[r].status == Completed
  }

  // A request with a result row is completed by a step only together with a terminal outcome.
  lemma FinishingStores(s: State, e: Event, k: Key)
    requires Inv(s) && k in Step(s, e).t.results && Finished(Step(s, e), k.1) && !Finished(s, k.1)
    ensures Step(s, e).t.results[k] != Running
  {
    if k !in s.t.results {
      ResultRows(s, e, k);
    } else {
      assert k.1 in s.t.requests && k.1 !in s.handlers;
      if IsAnswer(e) {
        AnswerEffect(s, e);
        if Delivers(s, e, e.req) {
          CompletesOnly(s, e.req, k.1);
        }
        StoredStep(s, e, k);
        DeliveredKey(s, e, k);
      }
    }
  }

  // Completing a request completes no other one but its main request, which has no result row.
  lemma CompletesOnly(s: State, r: ReqId, q: ReqId)
    requires Inv(s) && r in s.t.requests && q in s.t.requests && q !in s.handlers
    ensures q != r ==> Complete(s.t.requests, r)[q] == s.t.requests[q]
  {
    if s.t.requests[r].main.Some? {
      assert ChildOf(s, r, s.t.requests[r].main.value);
    }
  }

  lemma DeliveredKey(s: State, e: Event, k: Key)
    requires Inv(s) && IsAnswer(e) && k in s.t.results && Delivers(s, e, k.1)
    ensures Step(s, e).t.results[k] != Running
  {
    StoredStep(s, e, k);
    match e
    case Notify(b, r, o) => assert (b, r) == k;
    case _ =>
  }

  // A completed request has a RUNNING result only if a RUNNING notification came after it was
  // completed.
  lemma {:induction false} RunningAfterCompletion(events: seq<Event>, k: Key)
    requires k in Run(events).t.results && Finished(Run(events), k.1) && Run(events).t.results[k] == Running
    ensures exists j :: 0 <= j < |events| && events[j] == Notify(k.0, k.1, Running) && Finished(Run(events[..j]), k.1)
  {
    var front, e := events[..|events| - 1], events[|events| - 1];
    var s := Run(front);
    RunKeepsInv(front);
    if !Finished(s, k.1) {
      FinishingStores(s, e, k);
    } else {
      if k !in s.t.results {
        ResultRows(s, e, k);
      }
      StoredStep(s, e, k);
      if s.t.results[k] == Running {
        RunningAfterCompletion(front, k);
        var j :| 0 <= j < |front| && front[j] == Notify(k.0, k.1, Running) && Finished(Run(front[..j]), k.1);
        assert events[j] == front[j] && events[..j] == front[..j];
      } else {
        assert e == Notify(k.0, k.1, Running);
        assert events[|front|] == e && events[..|front|] == front;
      }
    }
  }

  // The synchronous calls of r that have returned or timed out.
  function Returns(events: seq<Event>, r: ReqId): nat {
    if events == [] then 0
    else
      var front, e := events[..|events| - 1], events[|events| - 1];
      Returns(front, r) + if (e.Respond? || e.TimeOut?) && e.req == r && Enabled(Run(front), e) then 1 else 0
  }

  // Every request is called at most once, and the call returns or times out at most once: it is
  // waiting exactly while it has not.
  lemma {:induction false} ReturnsOnce(events: seq<Event>, r: ReqId)
    ensures Returns(events, r) + (if r in Run(events).waiting then 1 else 0) <= 1
    ensures r !in Run(events).t.requests ==> Returns(events, r) == 0
  {
    if events != [] {
      var front, e := events[..|events| - 1], events[|events| - 1];
      RunKeepsInv(front);
      ReturnsOnce(front, r);
      if IsAnswer(e) {
        AnswerKeepsShape(Run(front), e);
      }
      assert r in Run(front).waiting ==> (Run(front).waiting[r], r).1 in Run(front).t.requests;
    }
  }

  // ---------- Handlers that finish ----------

  // A handler announces as many children as it calls, except when it disables an offline board.
  lemma AnnouncedIffCalled(k: Kind)
    ensures Announced(k) == Calls(k) <==> k != Disable(false)
    ensures Announced(k) == if k == Renew then 1 else 3
  {
  }

  // So when a handler has made all its calls and every child has got its terminal outcome once,
  // its main request is completed, unless it disables an offline board.
  lemma FinishedHandlerCompletes(events: seq<Event>, m: ReqId)
    requires m in Run(events).handlers && Run(events).handlers[m].left == 0 && AtMostOnce(events, m)
    requires forall r :: ChildOf(Run(events), r, m) ==> DeliveriesTo(events, r) > 0
    ensures m in Run(events).t.requests
    ensures Run(events).t.requests[m].status == Completed <==> Run(events).handlers[m].kind != Disable(false)
  {
    var s := Run(events);
    RunAccounted(events, m);
    NoRepeatsIffAtMostOnce(events, m);
    AnnouncedIffCalled(s.handlers[m].kind);
    forall r | r in Children(s, m) ensures r in Done(s, m) {
      CompletedIffDelivered(events, r, m);
    }
    assert Done(s, m) == Children(s, m);
  }
}
