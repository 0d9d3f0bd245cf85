/** Boards, their WAMP sessions and the agent each board is assigned to
    (iotronic/wamp/functions.py, iotronic/conductor/endpoints.py).

    The agents and the conductor share two tables. Every handler is one atomic step on them.
    The refinement below shows that the shared tables behave like one small machine per board. */
module Sessions {
  import opened Collections

  type BoardId = string
  type SessionId = int
  type Agent = string

  datatype Status = Registered | Offline | Online

  // What a board last told about its software and its network.
  datatype Info = Info(lrVersion: Option<string>, connectivity: Option<string>)

  const NO_INFO := Info(None, None)

  // What comes with a connection; each part may be absent.
  datatype Report = Report(lrVersion: Option<string>, connectivity: Option<string>, macAddr: Option<string>)

  datatype BoardRow = BoardRow(status: Status, agent: Option<Agent>, info: Info)

  datatype SessionRow = SessionRow(board: BoardId, valid: bool)

  datatype State = State(boards: map<BoardId, BoardRow>, sessions: map<SessionId, SessionRow>)

  // A registration carries the agent drawn at random, or None when it cannot be completed because
  // no agent is online or the board has no location.
  datatype Event =
    | Create(board: BoardId)
    | Destroy(board: BoardId)
    | Connect(board: BoardId, session: SessionId, report: Report)
    | Register(board: BoardId, session: SessionId, drawn: Option<Agent>)
    | Leave(session: SessionId)
    | Reconcile(present: set<SessionId>, agent: Agent)

  // ---------- Table queries ----------

  function ValidOf(sessions: map<SessionId, SessionRow>, b: BoardId): set<SessionId> {
    set i | i in sessions && sessions[i].valid && sessions[i].board == b
  }

  // Query.one(): a value for exactly one row, an exception otherwise.
  function One(rows: set<SessionId>): Result<SessionId> {
    if exists i :: i in rows && rows == {i} then
      var i :| i in rows && rows == {i}; Ok(i)
    else if rows == {} then Err("no row")
    else Err("multiple rows")
  }

  lemma OneIsSingleton(rows: set<SessionId>)
    ensures One(rows).Ok? <==> |rows| == 1
    ensures One(rows).Ok? ==> rows == {One(rows).value}
  {
    if |rows| == 1 {
      EmptyOrInhabited(rows);
      var i :| i in rows;
      assert |rows - {i}| == 0;
      assert rows == {i};
    }
  }

  function TheValid(sessions: map<SessionId, SessionRow>, b: BoardId): Result<SessionId> {
    One(ValidOf(sessions, b))
  }

  function AgentSessions(s: State, a: Agent): set<SessionId> {
    set i | i in s.sessions && s.sessions[i].valid && s.sessions[i].board in s.boards
            && s.boards[s.sessions[i].board].agent == Some(a)
  }

  // ---------- Table updates ----------

  function Invalidate(sessions: map<SessionId, SessionRow>, gone: set<SessionId>): map<SessionId, SessionRow> {
    map i | i in sessions :: if i in gone then sessions[i].(valid := false) else sessions[i]
  }

  function TakeOffline(boards: map<BoardId, BoardRow>, gone: set<BoardId>): map<BoardId, BoardRow> {
    map b | b in boards :: if b in gone then boards[b].(status := Offline) else boards[b]
  }

  // Invalidate the board's valid session, if the query finds exactly one, and add the new one.
  function Announce(sessions: map<SessionId, SessionRow>, b: BoardId, i: SessionId): map<SessionId, SessionRow> {
    var former := TheValid(sessions, b);
    (if former.Ok? then Invalidate(sessions, {former.value}) else sessions)[i := SessionRow(b, true)]
  }

  function RegisteredRow(row: BoardRow, drawn: Option<Agent>): BoardRow {
    if row.status != Registered then row.(status := Offline)
    else if drawn.None? then row
    else row.(status := Offline, agent := drawn)
  }

  // A MAC address takes the place of the connectivity.
  function ConnectedRow(row: BoardRow, report: Report): BoardRow {
    row.(status := Online,
         info := Info(if report.lrVersion.Some? then report.lrVersion else row.info.lrVersion,
                      if report.macAddr.Some? then report.macAddr
                      else if report.connectivity.Some? then report.connectivity
                      else row.info.connectivity))
  }

  function BoardsOf(sessions: map<SessionId, SessionRow>, ids: set<SessionId>): set<BoardId> {
    set i | i in ids && i in sessions :: sessions[i].board
  }

  function DropSessions(s: State, gone: set<SessionId>): State {
    State(TakeOffline(s.boards, BoardsOf(s.sessions, gone)), Invalidate(s.sessions, gone))
  }

  function Step(s: State, e: Event): State {
    match e
    case Create(b) =>
      s.(boards := s.boards[b := BoardRow(Registered, None, NO_INFO)])
    case Destroy(b) =>
      State(s.boards - {b}, map i | i in s.sessions && s.sessions[i].board != b :: s.sessions[i])
    case Connect(b, i, report) =>
      if b !in s.boards then s
      else State(s.boards[b := ConnectedRow(s.boards[b], report)], Announce(s.sessions, b, i))
    case Register(b, i, drawn) =>
      if b !in s.boards then s
      else State(s.boards[b := RegisteredRow(s.boards[b], drawn)], Announce(s.sessions, b, i))
    case Leave(i) =>
      if i in s.sessions && s.sessions[i].valid then DropSessions(s, {i}) else s
    case Reconcile(present, a) =>
      DropSessions(s, AgentSessions(s, a) - present)
  }

  // Board ids are new on creation and session ids are never reused.
  predicate Enabled(s: State, e: Event) {
    match e
    case Create(b) => b !in s.boards
    case Connect(_, i, _) => i !in s.sessions
    case Register(_, i, _) => i !in s.sessions
    case _ => true
  }

  const EMPTY := State(map[], map[])

  function Run(events: seq<Event>): State {
    if events == [] then EMPTY
    else Step(Run(events[..|events| - 1]), events[|events| - 1])
  }

  ghost predicate Legal(events: seq<Event>) {
    events == [] ||
    var front := events[..|events| - 1];
    Legal(front) && Enabled(Run(front), events[|events| - 1])
  }

  // The sessions of `done` are dropped; dropping one more is one turn of update_sessions.
  lemma DropOneMore(s: State, done: set<SessionId>, i: SessionId)
    requires i in s.sessions && s.sessions[i].valid && i !in done && s.sessions[i].board in s.boards
    ensures var t, b := DropSessions(s, done), s.sessions[i].board;
            && i in t.sessions && t.sessions[i] == s.sessions[i] && b in t.boards
            && DropSessions(s, done + {i}) ==
               State(t.boards[b := t.boards[b].(status := Offline)], t.sessions[i := t.sessions[i].(valid := false)])
  {
    assert BoardsOf(s.sessions, done + {i}) == BoardsOf(s.sessions, done) + {s.sessions[i].board};
  }

  // ---------- The handlers ----------

  class Tables {
    var boards: map<BoardId, BoardRow>
    var sessions: map<SessionId, SessionRow>

    ghost function View(): State
      reads this
    {
      State(boards, sessions)
    }

    // Sessions reference existing boards: the foreign key cascades on delete.
    ghost predicate Valid()
      reads this
    {
      forall i :: i in sessions ==> sessions[i].board in boards
    }

    method Supersede(b: BoardId, i: SessionId)
      modifies this`sessions
      ensures sessions == Announce(old(sessions), b, i)
    {
      var former := TheValid(sessions, b);
      if former.Ok? {
        assert former.value in ValidOf(sessions, b);
        sessions := sessions[former.value := sessions[former.value].(valid := false)];
        assert sessions == Invalidate(old(sessions), {former.value});
      }
      sessions := sessions[i := SessionRow(b, true)];
    }

    // Router session ids are new: the handlers below are given one that is in no row.
    method Connection(uuid: BoardId, session: SessionId, report: Report) returns (r: Result<string>)
      requires Valid() && session !in sessions
      modifies this
      ensures Valid() && View() == Step(old(View()), Connect(uuid, session, report))
      ensures r.Err? <==> uuid !in old(boards)
    {
      if uuid !in boards {
        return Err("board not found");
      }
      Supersede(uuid, session);
      var board := boards[uuid].(status := Online);
      if report.lrVersion.Some? && board.info.lrVersion != report.lrVersion {
        board := board.(info := board.info.(lrVersion := report.lrVersion));
      }
      if report.connectivity.Some? {
        board := board.(info := board.info.(connectivity := report.connectivity));
      }
      if report.macAddr.Some? {
        board := board.(info := board.info.(connectivity := report.macAddr));
      }
      boards := boards[uuid := board];
      r := Ok("");
    }

    // `located`: whether the board has a location, which its configuration needs.
    method Registration(uuid: BoardId, session: SessionId, agents: set<Agent>, located: bool)
      returns (r: Result<Option<Agent>>, ghost drawn: Option<Agent>)
      requires Valid() && session !in sessions
      modifies this
      ensures drawn.Some? ==> drawn.value in agents
      ensures uuid in old(boards) && old(boards)[uuid].status == Registered ==>
                (drawn.None? <==> agents == {} || !located)
      ensures Valid() && View() == Step(old(View()), Register(uuid, session, drawn))
      ensures r.Err? <==> uuid !in old(boards)
                          || (old(boards)[uuid].status == Registered && (agents == {} || !located))
      ensures r.Ok? ==> r.value == boards[uuid].agent
    {
      drawn := None;
      if uuid !in boards {
        return Err("board not found"), drawn;
      }
      Supersede(uuid, session);
      if boards[uuid].status != Registered {
        boards := boards[uuid := boards[uuid].(status := Offline)];
        return Ok(boards[uuid].agent), drawn;
      }
      if agents == {} {
        assert boards[uuid := boards[uuid]] == boards;
        return Err("no agent online"), drawn;
      }
      var agent :| agent in agents;
      if !located {
        assert boards[uuid := boards[uuid]] == boards;
        return Err("no location"), drawn;
      }
      drawn := Some(agent);
      boards := boards[uuid := boards[uuid].(status := Offline, agent := Some(agent))];
      r := Ok(Some(agent));
    }

    method BoardOnLeave(session: SessionId)
      requires Valid()
      modifies this
      ensures Valid() && View() == Step(old(View()), Leave(session))
    {
      if session in sessions && sessions[session].valid {
        var board := sessions[session].board;
        sessions := sessions[session := sessions[session].(valid := false)];
        boards := boards[board := boards[board].(status := Offline)];
        assert sessions == Invalidate(old(sessions), {session});
        assert BoardsOf(old(sessions), {session}) == {board};
        assert boards == TakeOffline(old(boards), {board});
      }
    }

    method UpdateSessions(present: set<SessionId>, agent: Agent)
      requires Valid()
      modifies this
      ensures Valid() && View() == Step(old(View()), Reconcile(present, agent))
    {
      var listed := AgentSessions(State(boards, sessions), agent);
      var gone := listed - present;
      assert DropSessions(View(), {}) == View();
      if present == listed {
        assert gone == {};
        return;
      }
      var left := gone;
      while left != {}
        invariant left <= gone
        invariant View() == DropSessions(old(View()), gone - left)
      {
        EmptyOrInhabited(left);
        var elem :| elem in left;
        assert gone - (left - {elem}) == gone - left + {elem};
        DropOneMore(old(View()), gone - left, elem);
        if sessions[elem].valid {
          var board := sessions[elem].board;
          sessions := sessions[elem := sessions[elem].(valid := false)];
          boards := boards[board := boards[board].(status := Offline)];
        }
        left := left - {elem};
      }
      assert gone - left == gone;
    }

    // The session that execute_on_board puts into the called address.
    method AddressedSession(board: BoardId) returns (r: Result<SessionId>)
      ensures r.Ok? <==> board in boards && boards[board].status == Online && |ValidOf(sessions, board)| == 1
      ensures r.Ok? ==> ValidOf(sessions, board) == {r.value}
      ensures r == Addressed(View(), board)
    {
      if board !in boards {
        return Err("board not found");
      }
      var session := TheValid(sessions, board);
      OneIsSingleton(ValidOf(sessions, board));
      if session.Err? || boards[board].status != Online {
        return Err("board not connected");
      }
      r := session;
    }
  }

  function Addressed(s: State, b: BoardId): Result<SessionId> {
    if b !in s.boards then Err("board not found")
    else
      var session := TheValid(s.sessions, b);
      if session.Err? || s.boards[b].status != Online then Err("board not connected") else session
  }

  // ---------- Reference: one machine per board ----------

  // What a board looks like on its own: its live session, whether that session came from a
  // connection, its agent, and whether it still waits for its first complete registration.
  datatype Contact =
    | Unknown
    | Known(session: Option<SessionId>, online: bool, agent: Option<Agent>, waiting: bool)

  function Next(c: Contact, b: BoardId, e: Event): Contact {
    match e
    case Create(b') => if b' == b then Known(None, false, None, true) else c
    case Destroy(b') => if b' == b then Unknown else c
    case Connect(b', i, _) => if b' == b && c.Known? then Known(Some(i), true, c.agent, false) else c
    case Register(b', i, drawn) =>
      if b' != b || c.Unknown? then c
      else if !c.waiting then Known(Some(i), false, c.agent, false)
      else Known(Some(i), false, drawn, drawn.None?)
    case Leave(i) =>
      if c.Known? && c.session == Some(i) then Known(None, false, c.agent, false) else c
    case Reconcile(present, a) =>
      if c.Known? && c.session.Some? && c.session.value !in present && c.agent == Some(a)
      then Known(None, false, c.agent, false) else c
  }

  function Alone(events: seq<Event>, b: BoardId): Contact {
    if events == [] then Unknown
    else Next(Alone(events[..|events| - 1], b), b, events[|events| - 1])
  }

  // How the shared tables show one board.
  function Seen(s: State, b: BoardId): Contact {
    if b !in s.boards then Unknown
    else
      var row := s.boards[b];
      Known(if TheValid(s.sessions, b).Ok? then Some(TheValid(s.sessions, b).value) else None,
            row.status == Online, row.agent, row.status == Registered)
  }

  ghost predicate Inv(s: State) {
    && (forall i :: i in s.sessions ==> s.sessions[i].board in s.boards)
    && (forall i, j :: Live(s, i) && Live(s, j) && s.sessions[i].board == s.sessions[j].board ==> i == j)
    && (forall b :: b in s.boards && s.boards[b].status == Online ==> ValidOf(s.sessions, b) != {})
    && (forall b :: b in s.boards && s.boards[b].agent.Some? ==> s.boards[b].status != Registered)
  }

  predicate Live(s: State, i: SessionId) {
    i in s.sessions && s.sessions[i].valid
  }

  // With at most one valid session per board, the query finds it whenever there is one.
  lemma OneValid(s: State, b: BoardId)
    requires Inv(s)
    ensures forall i :: i in ValidOf(s.sessions, b) ==>
              ValidOf(s.sessions, b) == {i} && TheValid(s.sessions, b) == Ok(i)
    ensures TheValid(s.sessions, b).Err? ==> ValidOf(s.sessions, b) == {}
  {
    var rows := ValidOf(s.sessions, b);
    forall i | i in rows ensures rows == {i} && One(rows) == Ok(i) {
      forall j | j in rows ensures j == i {
        assert Live(s, i) && Live(s, j);
      }
      assert rows == {i};
    }
    EmptyOrInhabited(rows);
  }

  lemma AnnounceValid(s: State, b: BoardId, i: SessionId, other: BoardId)
    requires Inv(s) && i !in s.sessions
    ensures ValidOf(Announce(s.sessions, b, i), other) == if other == b then {i} else ValidOf(s.sessions, other)
  {
    OneValid(s, b);
    forall j | j in s.sessions && s.sessions[j].valid && s.sessions[j].board == b
      ensures TheValid(s.sessions, b) == Ok(j)
    {
      assert j in ValidOf(s.sessions, b);
    }
    var former := TheValid(s.sessions, b);
    assert former.Ok? ==> former.value in ValidOf(s.sessions, b);
  }

  lemma AnnounceRefines(s: State, b: BoardId, i: SessionId, row: BoardRow)
    requires Inv(s) && i !in s.sessions && b in s.boards
    requires row.agent.Some? ==> row.status != Registered
    ensures var s' := State(s.boards[b := row], Announce(s.sessions, b, i));
            && Inv(s')
            && TheValid(s'.sessions, b) == Ok(i)
            && forall other :: other != b ==> Seen(s', other) == Seen(s, other)
  {
    var s' := State(s.boards[b := row], Announce(s.sessions, b, i));
    forall other ensures ValidOf(s'.sessions, other) == if other == b then {i} else ValidOf(s.sessions, other) {
      AnnounceValid(s, b, i, other);
    }
    forall j, k | Live(s', j) && Live(s', k) && s'.sessions[j].board == s'.sessions[k].board ensures j == k {
      assert j in ValidOf(s'.sessions, s'.sessions[j].board) && k in ValidOf(s'.sessions, s'.sessions[j].board);
      OneValid(s, s'.sessions[j].board);
    }
  }

  lemma DropValid(s: State, gone: set<SessionId>, b: BoardId)
    requires Inv(s) && forall i :: i in gone ==> Live(s, i)
    ensures ValidOf(Invalidate(s.sessions, gone), b) == ValidOf(s.sessions, b) - gone
    ensures b in BoardsOf(s.sessions, gone) <==> ValidOf(s.sessions, b) * gone != {}
  {
    if b in BoardsOf(s.sessions, gone) {
      var i :| i in gone && s.sessions[i].board == b;
      assert i in ValidOf(s.sessions, b) * gone;
    }
    EmptyOrInhabited(ValidOf(s.sessions, b) * gone);
  }

  lemma DropRefines(s: State, gone: set<SessionId>, b: BoardId)
    requires Inv(s) && forall i :: i in gone ==> Live(s, i)
    ensures Inv(DropSessions(s, gone))
    ensures var c := Seen(s, b);
            Seen(DropSessions(s, gone), b) ==
            if c.Known? && c.session.Some? && c.session.value in gone then Known(None, false, c.agent, false) else c
  {
    var s' := DropSessions(s, gone);
    forall x
      ensures ValidOf(s'.sessions, x) == ValidOf(s.sessions, x) - gone
      ensures x in BoardsOf(s.sessions, gone) <==> ValidOf(s.sessions, x) * gone != {}
    {
      DropValid(s, gone, x);
    }
    forall x | x in s'.boards && s'.boards[x].status == Online ensures ValidOf(s'.sessions, x) != {} {
      var rows := ValidOf(s.sessions, x);
      assert x !in BoardsOf(s.sessions, gone);
      assert forall i :: i in rows && i in gone ==> i in rows * gone;
      assert rows - gone == rows;
    }
    forall j, k | Live(s', j) && Live(s', k) && s'.sessions[j].board == s'.sessions[k].board ensures j == k {
      assert Live(s, j) && Live(s, k);
    }
    OneValid(s, b);
    if i :| i in ValidOf(s.sessions, b) {
      assert ValidOf(s.sessions, b) == {i};
      if i in gone {
        assert ValidOf(s'.sessions, b) == {};
      } else {
        assert ValidOf(s'.sessions, b) == {i};
      }
    } else {
      EmptyOrInhabited(ValidOf(s.sessions, b));
      assert ValidOf(s'.sessions, b) == {};
    }
  }

  // Every step keeps the invariant and moves each board exactly as its own machine moves.
  lemma StepRefines(s: State, e: Event, b: BoardId)
    requires Inv(s) && Enabled(s, e)
    ensures Inv(Step(s, e))
    ensures Seen(Step(s, e), b) == Next(Seen(s, b), b, e)
  {
    match e
    case Create(b') => CreateRefines(s, b', b);
    case Destroy(b') => DestroyRefines(s, b', b);
    case Connect(b', i, report) =>
      if b' in s.boards {
        AnnounceRefines(s, b', i, ConnectedRow(s.boards[b'], report));
      }
    case Register(b', i, drawn) =>
      if b' in s.boards {
        AnnounceRefines(s, b', i, RegisteredRow(s.boards[b'], drawn));
      }
    case Leave(i) =>
      OneValid(s, b);
      if Live(s, i) {
        DropRefines(s, {i}, b);
        assert s.sessions[i].board == b ==> i in ValidOf(s.sessions, b);
      }
    case Reconcile(present, a) =>
      OneValid(s, b);
      DropRefines(s, AgentSessions(s, a) - present, b);
      var c := Seen(s, b);
      assert c.Known? && c.session.Some? ==> c.session.value in ValidOf(s.sessions, b);
  }

  lemma CreateRefines(s: State, b': BoardId, b: BoardId)
    requires Inv(s) && b' !in s.boards
    ensures Inv(Step(s, Create(b'))) && Seen(Step(s, Create(b')), b) == Next(Seen(s, b), b, Create(b'))
  {
    assert forall i :: i in s.sessions ==> s.sessions[i].board in s.boards;
    EmptyOrInhabited(ValidOf(s.sessions, b'));
    forall j, k | Live(s, j) && Live(s, k) && s.sessions[j].board == s.sessions[k].board ensures j == k {
    }
  }

  lemma DestroyRefines(s: State, b': BoardId, b: BoardId)
    requires Inv(s)
    ensures Inv(Step(s, Destroy(b'))) && Seen(Step(s, Destroy(b')), b) == Next(Seen(s, b), b, Destroy(b'))
  {
    var s' := Step(s, Destroy(b'));
    forall x | x != b' ensures ValidOf(s'.sessions, x) == ValidOf(s.sessions, x) {
    }
    forall j, k | Live(s', j) && Live(s', k) && s'.sessions[j].board == s'.sessions[k].board ensures j == k {
      assert Live(s, j) && Live(s, k);
    }
  }

  // ---------- Main results, over every legal run ----------

  // The shared tables show every board exactly as its own machine would have evolved alone.
  lemma {:induction false} RunRefines(events: seq<Event>, b: BoardId)
    requires Legal(events)
    ensures Inv(Run(events)) && Seen(Run(events), b) == Alone(events, b)
  {
    if events != [] {
      RunRefines(events[..|events| - 1], b);
      StepRefines(Run(events[..|events| - 1]), events[|events| - 1], b);
    }
  }

  // What a board reported last, since its creation.
  function LastVersion(events: seq<Event>, b: BoardId): Option<string> {
    if events == [] then None
    else
      var front := events[..|events| - 1];
      match events[|events| - 1]
      case Create(b') => if b' == b then None else LastVersion(front, b)
      case Connect(b', _, report) =>
        if b' == b && report.lrVersion.Some? then report.lrVersion else LastVersion(front, b)
      case _ => LastVersion(front, b)
  }

  function LastNetwork(events: seq<Event>, b: BoardId): Option<string> {
    if events == [] then None
    else
      var front := events[..|events| - 1];
      match events[|events| - 1]
      case Create(b') => if b' == b then None else LastNetwork(front, b)
      case Connect(b', _, report) =>
        if b' == b && report.macAddr.Some? then report.macAddr
        else if b' == b && report.connectivity.Some? then report.connectivity
        else LastNetwork(front, b)
      case _ => LastNetwork(front, b)
  }

  // Over every legal run a board's row shows the version it reported last and the MAC address, or
  // failing that the connectivity, it reported last. No other event changes them.
  lemma {:induction false} InfoIsLastReported(events: seq<Event>, b: BoardId)
    requires Legal(events) && b in Run(events).boards
    ensures Run(events).boards[b].info.lrVersion == LastVersion(events, b)
    ensures Run(events).boards[b].info.connectivity == LastNetwork(events, b)
  {
    if events != [] {
      var front, e := events[..|events| - 1], events[|events| - 1];
      if b in Run(front).boards {
        InfoIsLastReported(front, b);
      }
      StepOnInfo(Run(front), e, b);
    }
  }

  lemma StepOnInfo(s: State, e: Event, b: BoardId)
    requires b in Step(s, e).boards && Enabled(s, e)
    ensures b !in s.boards ==> e == Create(b) && Step(s, e).boards[b].info == Info(None, None)
    ensures b in s.boards && !(e.Connect? && e.board == b) ==>
              e != Create(b) && Step(s, e).boards[b].info == s.boards[b].info
    ensures b in s.boards && e.Connect? && e.board == b ==>
              var info, was := Step(s, e).boards[b].info, s.boards[b].info;
              && info.lrVersion == (if e.report.lrVersion.Some? then e.report.lrVersion else was.lrVersion)
              && info.connectivity == (if e.report.macAddr.Some? then e.report.macAddr
                                       else if e.report.connectivity.Some? then e.report.connectivity
                                       else was.connectivity)
  {
  }

  // The sessions a board has announced since its creation.
  function AnnouncedIds(events: seq<Event>, b: BoardId): set<SessionId> {
    if events == [] then {}
    else
      var front := events[..|events| - 1];
      match events[|events| - 1]
      case Create(b') => if b' == b then {} else AnnouncedIds(front, b)
      case Connect(b', i, _) => AnnouncedIds(front, b) + if b' == b then {i} else {}
      case Register(b', i, _) => AnnouncedIds(front, b) + if b' == b then {i} else {}
      case _ => AnnouncedIds(front, b)
  }

  function SessionsOf(s: State, b: BoardId): set<SessionId> {
    set i | i in s.sessions && s.sessions[i].board == b
  }

  // Over every legal run a board's session rows are its whole history: superseded and dropped
  // sessions stay in the table.
  lemma {:induction false} SessionsAreHistory(events: seq<Event>, b: BoardId)
    requires Legal(events) && b in Run(events).boards
    ensures SessionsOf(Run(events), b) == AnnouncedIds(events, b)
  {
    if events != [] {
      var front, e := events[..|events| - 1], events[|events| - 1];
      RunRefines(front, b);
      if b in Run(front).boards {
        SessionsAreHistory(front, b);
      }
      StepOnHistory(Run(front), e, b);
    }
  }

  lemma StepOnHistory(s: State, e: Event, b: BoardId)
    requires Inv(s) && Enabled(s, e) && b in Step(s, e).boards
    ensures b !in s.boards ==> e == Create(b) && SessionsOf(Step(s, e), b) == {}
    ensures b in s.boards && !((e.Connect? || e.Register?) && e.board == b) ==>
              e != Create(b) && SessionsOf(Step(s, e), b) == SessionsOf(s, b)
    ensures b in s.boards && (e.Connect? || e.Register?) && e.board == b ==>
              SessionsOf(Step(s, e), b) == SessionsOf(s, b) + {e.session}
  {
    if b !in s.boards {
      assert forall i :: i in s.sessions ==> s.sessions[i].board in s.boards;
    }
  }

  predicate Announces(e: Event, b: BoardId) {
    (e.Connect? || e.Register?) && e.board == b
  }

  function LatestAnnouncement(events: seq<Event>, b: BoardId): Option<Event> {
    if events == [] then None
    else if Announces(events[|events| - 1], b) then Some(events[|events| - 1])
    else LatestAnnouncement(events[..|events| - 1], b)
  }

  lemma {:induction false} LiveSessionIsLatest(events: seq<Event>, b: BoardId)
    ensures var c, last := Alone(events, b), LatestAnnouncement(events, b);
            && (c.Known? && c.session.Some? ==>
                  last.Some? && Announces(last.value, b) && last.value.session == c.session.value
                  && (c.online <==> last.value.Connect?))
            && (c.Known? && c.online ==> c.session.Some?)
  {
    if events != [] {
      LiveSessionIsLatest(events[..|events| - 1], b);
    }
  }

  // Commands reach a board exactly when it is online, over its one valid session,
  // which is the session of its latest announcement, and that was a connection.
  lemma CommandsReachLatestConnection(events: seq<Event>, b: BoardId, i: SessionId)
    requires Legal(events)
    ensures var s := Run(events);
            Addressed(s, b) == Ok(i) <==> b in s.boards && s.boards[b].status == Online && i in ValidOf(s.sessions, b)
    ensures Addressed(Run(events), b) == Ok(i) ==>
              && ValidOf(Run(events).sessions, b) == {i}
              && (var last := LatestAnnouncement(events, b);
                  last.Some? && last.value.Connect? && last.value.board == b && last.value.session == i)
    ensures Addressed(Run(events), b).Err? ==>
              b !in Run(events).boards || Run(events).boards[b].status != Online
  {
    RunRefines(events, b);
    LiveSessionIsLatest(events, b);
    OneValid(Run(events), b);
    EmptyOrInhabited(ValidOf(Run(events).sessions, b));
  }

  // A session superseded by a later announcement of its board is dead for good: its late leave
  // changes neither table. (Ids are not reused after `first`.)
  lemma LateLeaveIsHarmless(events: seq<Event>, b: BoardId, first: nat, second: nat)
    requires Legal(events) && first < second < |events|
    requires Announces(events[first], b) && Announces(events[second], b)
    requires b in Run(events[..second]).boards
    requires forall k :: first < k < |events| && (events[k].Connect? || events[k].Register?) ==>
               events[k].session != events[first].session
    ensures Step(Run(events), Leave(events[first].session)) == Run(events)
  {
    SupersededIsDead(events, b, first, second);
  }

  lemma {:induction false} SupersededIsDead(events: seq<Event>, b: BoardId, first: nat, second: nat)
    requires Legal(events) && first < second < |events|
    requires Announces(events[first], b) && Announces(events[second], b)
    requires b in Run(events[..second]).boards
    requires forall k :: first < k < |events| && (events[k].Connect? || events[k].Register?) ==>
               events[k].session != events[first].session
    ensures !Live(Run(events), events[first].session)
  {
    var i := events[first].session;
    var front, e := events[..|events| - 1], events[|events| - 1];
    RunRefines(front, b);
    if second < |front| {
      assert front[..second] == events[..second];
      SupersededIsDead(front, b, first, second);
    } else {
      SessionKeepsBoard(front, b, first);
      assert front == events[..second];
      var s, s' := Run(front), Run(events);
      RunRefines(events, b);
      AnnounceValid(s, b, e.session, b);
      assert Live(s', i) ==> i in ValidOf(s'.sessions, b);
    }
  }

  lemma {:induction false} SessionKeepsBoard(events: seq<Event>, b: BoardId, first: nat)
    requires Legal(events) && first < |events| && Announces(events[first], b)
    requires forall k :: first < k < |events| && (events[k].Connect? || events[k].Register?) ==>
               events[k].session != events[first].session
    ensures var s, i := Run(events), events[first].session; i in s.sessions ==> s.sessions[i].board == b
  {
    var front := events[..|events| - 1];
    if first < |front| {
      SessionKeepsBoard(front, b, first);
    }
  }

  lemma {:induction false} AssignedIsNotWaiting(events: seq<Event>, b: BoardId)
    ensures var c := Alone(events, b); c.Known? && c.agent.Some? ==> !c.waiting
  {
    if events != [] {
      AssignedIsNotWaiting(events[..|events| - 1], b);
    }
  }

  // Once a board has had its chance, its agent is fixed: an assigned agent is never reassigned,
  // and a board that left the registered state without one never gets one.
  lemma {:induction false} AgentIsFixed(events: seq<Event>, more: seq<Event>, b: BoardId)
    requires Legal(events + more)
    requires b in Run(events).boards && Run(events).boards[b].status != Registered
    requires forall e :: e in more ==> e != Destroy(b)
    ensures var before, after := Run(events), Run(events + more);
            && b in after.boards && after.boards[b].status != Registered
            && after.boards[b].agent == before.boards[b].agent
  {
    if more == [] {
      assert events + more == events;
    } else {
      var front := more[..|more| - 1];
      assert (events + more)[..|events + more| - 1] == events + front;
      assert forall e :: e in front ==> e in more;
      AgentIsFixed(events, front, b);
      assert more[|more| - 1] in more;
      StepKeepsAgent(Run(events + front), more[|more| - 1], b);
    }
  }

  lemma StepKeepsAgent(s: State, e: Event, b: BoardId)
    requires Enabled(s, e) && b in s.boards && s.boards[b].status != Registered && e != Destroy(b)
    ensures var s' := Step(s, e);
            b in s'.boards && s'.boards[b].status != Registered && s'.boards[b].agent == s.boards[b].agent
  {
  }

  // The event that last took the board out of `registered`.
  function LeftWaitingBy(events: seq<Event>, b: BoardId): Option<Event> {
    if events == [] then None
    else
      var front := events[..|events| - 1];
      var before, after := Alone(front, b), Alone(events, b);
      if before.Known? && before.waiting && after.Known? && !after.waiting then Some(events[|events| - 1])
      else LeftWaitingBy(front, b)
  }

  // The event that took a board out of `registered` decides whether it has an agent.
  ghost predicate AgentBy(e: Event, b: BoardId, agent: Option<Agent>) {
    match e
    case Register(b', _, drawn) => b' == b && drawn.Some? && agent == drawn
    case Connect(b', _, _) => b' == b && agent.None?
    case Leave(_) => agent.None?
    case _ => false
  }

  lemma {:induction false} AloneAgentBy(events: seq<Event>, b: BoardId)
    ensures var c, e := Alone(events, b), LeftWaitingBy(events, b);
            c.Known? && !c.waiting ==> e.Some? && AgentBy(e.value, b, c.agent)
  {
    if events != [] {
      AloneAgentBy(events[..|events| - 1], b);
      AssignedIsNotWaiting(events[..|events| - 1], b);
    }
  }

  // A board that has left `registered` has an agent exactly when a registration took it out, and
  // then the one drawn there; it has none exactly when a connection or a leave did.
  lemma AgentIffRegisteredOut(events: seq<Event>, b: BoardId)
    requires Legal(events) && b in Run(events).boards && Run(events).boards[b].status != Registered
    ensures LeftWaitingBy(events, b).Some?
    ensures var agent, e := Run(events).boards[b].agent, LeftWaitingBy(events, b).value;
            && (agent.Some? <==> e.Register?)
            && (agent.Some? ==> e.board == b && agent == e.drawn)
            && (agent.None? <==> e.Connect? || e.Leave?)
  {
    RunRefines(events, b);
    AloneAgentBy(events, b);
  }

  // A board taken out of `registered` by a connection or a leave is without an agent for good.
  lemma OtherwiseStranded(events: seq<Event>, more: seq<Event>, b: BoardId)
    requires Legal(events + more)
    requires b in Run(events).boards && Run(events).boards[b].status != Registered
    requires LeftWaitingBy(events, b).Some? && !LeftWaitingBy(events, b).value.Register?
    requires forall e :: e in more ==> e != Destroy(b)
    ensures var s := Run(events + more); b in s.boards && s.boards[b].agent == None
  {
    LegalPrefix(events, more);
    AgentIffRegisteredOut(events, b);
    AgentIsFixed(events, more, b);
  }

  // One way there: the first registration is not completed but still creates a session, and that
  // session leaves.
  lemma FailedRegistrationStrands(before: seq<Event>, more: seq<Event>, b: BoardId, i: SessionId)
    requires Legal(before + [Register(b, i, None), Leave(i)] + more)
    requires Alone(before, b).Known? && Alone(before, b).waiting
    requires forall e :: e in more ==> e != Destroy(b)
    ensures var s := Run(before + [Register(b, i, None), Leave(i)] + more);
            b in s.boards && s.boards[b].agent == None
  {
    var one, two := before + [Register(b, i, None)], before + [Register(b, i, None), Leave(i)];
    assert two == one + [Leave(i)];
    LegalPrefix(two, more);
    AloneSnoc(before, Register(b, i, None), b);
    LeftBy(one, Leave(i), b);
    RunRefines(two, b);
    OtherwiseStranded(two, more, b);
  }

  // Another: the board connects before it has registered, which nothing forbids.
  lemma EarlyConnectionStrands(before: seq<Event>, more: seq<Event>, b: BoardId, i: SessionId, report: Report)
    requires Legal(before + [Connect(b, i, report)] + more)
    requires Alone(before, b).Known? && Alone(before, b).waiting
    requires forall e :: e in more ==> e != Destroy(b)
    ensures var s := Run(before + [Connect(b, i, report)] + more);
            b in s.boards && s.boards[b].agent == None
  {
    var one := before + [Connect(b, i, report)];
    LegalPrefix(one, more);
    LeftBy(before, Connect(b, i, report), b);
    RunRefines(one, b);
    OtherwiseStranded(one, more, b);
  }

  lemma AloneSnoc(front: seq<Event>, e: Event, b: BoardId)
    ensures Alone(front + [e], b) == Next(Alone(front, b), b, e)
  {
    assert (front + [e])[..|front|] == front;
  }

  lemma LeftBy(front: seq<Event>, e: Event, b: BoardId)
    requires Alone(front, b).Known? && Alone(front, b).waiting
    requires Next(Alone(front, b), b, e).Known? && !Next(Alone(front, b), b, e).waiting
    ensures LeftWaitingBy(front + [e], b) == Some(e)
    ensures Alone(front + [e], b).Known? && !Alone(front + [e], b).waiting
  {
    AloneSnoc(front, e, b);
    assert (front + [e])[..|front|] == front;
  }

  lemma {:induction false} LegalPrefix(events: seq<Event>, more: seq<Event>)
    requires Legal(events + more)
    ensures Legal(events)
  {
    if more == [] {
      assert events + more == events;
    } else {
      assert (events + more)[..|events + more| - 1] == events + more[..|more| - 1];
      LegalPrefix(events, more[..|more| - 1]);
    }
  }

  // Reconciling an agent with its router leaves exactly the sessions both know, takes exactly the
  // boards of the dropped sessions offline, touches nothing else and is idempotent.
  lemma ReconcileIsExact(s: State, present: set<SessionId>, a: Agent)
    requires Inv(s)
    ensures var s', gone := Step(s, Reconcile(present, a)), AgentSessions(s, a) - present;
            && Inv(s')
            && AgentSessions(s', a) == AgentSessions(s, a) * present
            && (forall other :: other != a ==> AgentSessions(s', other) == AgentSessions(s, other))
            && s'.sessions.Keys == s.sessions.Keys && s'.boards.Keys == s.boards.Keys
            && (forall i :: i in s.sessions && i !in gone ==> s'.sessions[i] == s.sessions[i])
            && (forall b :: b in s.boards ==>
                  s'.boards[b] == if ValidOf(s.sessions, b) * gone != {} then s.boards[b].(status := Offline)
                                  else s.boards[b])
            && Step(s', Reconcile(present, a)) == s'
  {
    ReconcileAgents(s, present, a);
    ReconcileRows(s, present, a);
    ReconcileTwice(s, present, a);
  }

  lemma ReconcileTwice(s: State, present: set<SessionId>, a: Agent)
    ensures var s' := Step(s, Reconcile(present, a)); Step(s', Reconcile(present, a)) == s'
  {
    ReconcileAgents(s, present, a);
    NothingDropped(Step(s, Reconcile(present, a)));
  }

  lemma ReconcileAgents(s: State, present: set<SessionId>, a: Agent)
    ensures var s' := Step(s, Reconcile(present, a));
            && AgentSessions(s', a) == AgentSessions(s, a) * present
            && AgentSessions(s', a) - present == {}
            && (forall other :: other != a ==> AgentSessions(s', other) == AgentSessions(s, other))
  {
    var gone := AgentSessions(s, a) - present;
    DropKeepsAgents(s, gone, a);
    forall other | other != a ensures AgentSessions(DropSessions(s, gone), other) == AgentSessions(s, other) {
      DropKeepsAgents(s, gone, other);
    }
  }

  lemma ReconcileRows(s: State, present: set<SessionId>, a: Agent)
    requires Inv(s)
    ensures var s', gone := Step(s, Reconcile(present, a)), AgentSessions(s, a) - present;
            && Inv(s')
            && s'.sessions.Keys == s.sessions.Keys && s'.boards.Keys == s.boards.Keys
            && (forall i :: i in s.sessions && i !in gone ==> s'.sessions[i] == s.sessions[i])
            && (forall b :: b in s.boards ==>
                  s'.boards[b] == if ValidOf(s.sessions, b) * gone != {} then s.boards[b].(status := Offline)
                                  else s.boards[b])
  {
    var gone := AgentSessions(s, a) - present;
    DropRefines(s, gone, "");
    forall b ensures b in BoardsOf(s.sessions, gone) <==> ValidOf(s.sessions, b) * gone != {} {
      DropValid(s, gone, b);
    }
  }

  lemma DropKeepsAgents(s: State, gone: set<SessionId>, a: Agent)
    ensures AgentSessions(DropSessions(s, gone), a) == AgentSessions(s, a) - gone
  {
  }

  lemma NothingDropped(s: State)
    ensures DropSessions(s, {}) == s
  {
  }
}
