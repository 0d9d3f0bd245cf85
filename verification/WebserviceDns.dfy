/** The webservices of one board (iotronic/conductor/endpoints.py): whether their names stay
    distinct, and the comma-separated list of domain names that is sent to the board whenever one
    is created or destroyed. */
module WebserviceDns {
  import opened Collections

  function Qualified(names: seq<string>, domain: string): seq<string> {
    seq(|names|, i requires 0 <= i < |names| => names[i] + "." + domain)
  }

  // The parts separated by single commas.
  function CommaJoin(parts: seq<string>): string
    requires parts != []
  {
    if |parts| == 1 then parts[0] else CommaJoin(parts[..|parts| - 1]) + "," + parts[|parts| - 1]
  }

  function CommaSplit(text: string): (parts: seq<string>)
    ensures parts != []
  {
    if text == "" then [""]
    else
      var front, c := CommaSplit(text[..|text| - 1]), text[|text| - 1];
      if c == ',' then front + [""] else front[..|front| - 1] + [front[|front| - 1] + [c]]
  }

  // Splitting at commas recovers parts that hold none.
  lemma {:induction false} SplitJoin(parts: seq<string>)
    requires parts != [] && forall i :: 0 <= i < |parts| ==> ',' !in parts[i]
    ensures CommaSplit(CommaJoin(parts)) == parts
  {
    var front, last := parts[..|parts| - 1], parts[|parts| - 1];
    assert parts == front + [last] && "" + last == last;
    if |parts| == 1 {
      SplitAppend("", [], "", last);
    } else {
      SplitJoin(front);
      SplitComma(CommaJoin(front));
      SplitAppend(CommaJoin(front) + ",", front, "", last);
    }
  }

  lemma SplitComma(text: string)
    ensures CommaSplit(text + ",") == CommaSplit(text) + [""]
  {
    assert (text + ",")[..|text + ","| - 1] == text;
  }

  lemma SplitOther(text: string, front: seq<string>, last: string, c: char)
    requires CommaSplit(text) == front + [last] && c != ','
    ensures CommaSplit(text + [c]) == front + [last + [c]]
  {
    assert (text + [c])[..|text + [c]| - 1] == text;
    assert (front + [last])[..|front|] == front;
  }

  // Text without commas extends the last part.
  lemma {:induction false} SplitAppend(text: string, front: seq<string>, last: string, more: string)
    requires CommaSplit(text) == front + [last] && ',' !in more
    ensures CommaSplit(text + more) == front + [last + more]
  {
    if more == "" {
      assert text + more == text && last + more == last;
    } else {
      var init, c := more[..|more| - 1], more[|more| - 1];
      SplitAppend(text, front, last, init);
      SplitOther(text + init, front, last + init, c);
      assert more == init + [c];
      Reassociate(text, init, [c]);
      Reassociate(last, init, [c]);
    }
  }

  lemma Reassociate(a: string, b: string, c: string)
    ensures a + b + c == a + (b + c)
  {
  }

  function Other(name: string): string -> bool { n => n != name }

  // What the board is told: the domain itself, then every webservice name under it.
  function Announced(names: seq<string>, domain: string): string {
    CommaJoin([domain] + Qualified(names, domain))
  }

  // The text: the domain, and for every name a comma and the name under the domain.
  lemma AnnouncedSnoc(names: seq<string>, name: string, domain: string)
    ensures Announced([], domain) == domain
    ensures Announced(names + [name], domain) == Announced(names, domain) + "," + name + "." + domain
  {
    var all, front := [domain] + Qualified(names + [name], domain), [domain] + Qualified(names, domain);
    assert all[..|all| - 1] == front;
    assert all[|all| - 1] == name + "." + domain;
    assert CommaJoin(all) == CommaJoin(front) + "," + (name + "." + domain);
    assert CommaJoin(front) + "," + (name + "." + domain) == CommaJoin(front) + "," + name + "." + domain;
  }

  // One turn of the loops below appends one name and its comma.
  lemma ListGrows(list: string, kept: seq<string>, name: string, domain: string)
    requires list == Announced(kept, domain) + ","
    ensures list + (name + "." + domain + ",") == Announced(kept + [name], domain) + ","
  {
    AnnouncedSnoc(kept, name, domain);
  }

  // ---------- The table and the handlers at work on it ----------

  type Id = int    // the uuid of a webservice
  type Port = int

  datatype Row = Row(id: Id, name: string, port: Port)

  // A creation between its check and its row.
  datatype Pending = Pending(name: string, port: Port)

  // The rows of one board, in table order, and the creations under way.
  datatype State = State(rows: seq<Row>, creating: map<Id, Pending>)

  // The check and the row of a creation are separated by calls to the name server, to the board and
  // to the agent; other handlers run in between, and any of the calls may fail (GiveUp).
  datatype Event = Check(id: Id, name: string, port: Port) | Record(id: Id) | GiveUp(id: Id) | Remove(id: Id)

  function Column<T>(rows: seq<Row>, f: Row -> T): (r: seq<T>)
    ensures |r| == |rows| && forall i :: 0 <= i < |rows| ==> r[i] == f(rows[i])
  {
    seq(|rows|, i requires 0 <= i < |rows| => f(rows[i]))
  }

  function IdOf(row: Row): Id { row.id }

  function NameOf(row: Row): string { row.name }

  function PortOf(row: Row): Port { row.port }

  function Names(rows: seq<Row>): (r: seq<string>)
    ensures |r| == |rows| && forall i :: 0 <= i < |rows| ==> r[i] == rows[i].name
  {
    Column(rows, NameOf)
  }

  function Ports(rows: seq<Row>): (r: seq<Port>)
    ensures |r| == |rows| && forall i :: 0 <= i < |rows| ==> r[i] == rows[i].port
  {
    Column(rows, PortOf)
  }

  function Ids(rows: seq<Row>): (r: seq<Id>)
    ensures |r| == |rows| && forall i :: 0 <= i < |rows| ==> r[i] == rows[i].id
  {
    Column(rows, IdOf)
  }

  function OtherId(id: Id): Row -> bool { (row: Row) => row.id != id }

  // A webservice gets a new uuid.
  predicate Enabled(s: State, e: Event) {
    e.Check? ==> e.id !in s.creating && e.id !in Ids(s.rows)
  }

  // The table takes no two rows of a board with one port: the insertion then fails.
  function Step(s: State, e: Event): State {
    match e
    case Check(id, name, port) =>
      if name in Names(s.rows) then s else s.(creating := s.creating[id := Pending(name, port)])
    case Record(id) =>
      if id !in s.creating then s
      else if s.creating[id].port in Ports(s.rows) then s.(creating := s.creating - {id})
      else State(s.rows + [Row(id, s.creating[id].name, s.creating[id].port)], s.creating - {id})
    case GiveUp(id) => s.(creating := s.creating - {id})
    case Remove(id) => s.(rows := Filter(s.rows, OtherId(id)))
  }

  datatype Reply = Exists(row: Row) | Announces(list: string)

  class Webservices {
    var domain: Option<string>    // of the board's enabled webservice; None: there is none
    var rows: seq<Row>
    ghost var creating: map<Id, Pending>    // what the running handlers hold in local variables

    ghost function View(): State
      reads this
    {
      State(rows, creating)
    }

    // create_webservice up to the call to the board.
    method BeginCreate(id: Id, name: string, port: Port, online: bool) returns (r: Result<Reply>)
      modifies this`creating
      ensures r.Err? <==> !online || (name !in Names(rows) && domain.None?)
      ensures View() == if r.Ok? then Step(old(View()), Check(id, name, port)) else old(View())
      ensures r.Ok? ==> (r.value.Exists? <==> name in Names(rows))
      ensures r.Ok? && r.value.Exists? ==> r.value.row in rows && r.value.row.name == name
      ensures r.Ok? && r.value.Announces? ==>
                domain.Some? && r.value.list == Announced(Names(rows) + [name], domain.value)
    {
      if !online {
        return Err("board not connected");
      }
      var listWebs := rows;
      for i := 0 to |listWebs|
        invariant forall j :: 0 <= j < i ==> listWebs[j].name != name
      {
        if listWebs[i].name == name {
          assert Names(listWebs)[i] == name;
          return Ok(Exists(listWebs[i]));
        }
      }
      if domain.None? {
        return Err("enabled webservice not found");
      }
      var listDns := ListAll(listWebs, domain.value);
      listDns := listDns + (name + "." + domain.value);
      AnnouncedSnoc(Names(listWebs), name, domain.value);
      creating := creating[id := Pending(name, port)];
      r := Ok(Announces(listDns));
    }

    // The rest of create_webservice, when the calls in between succeed.
    method FinishCreate(id: Id, name: string, port: Port) returns (r: Result<()>)
      requires id in creating && creating[id].name == name && creating[id].port == port
      modifies this`rows, this`creating
      ensures View() == Step(old(View()), Record(id))
      ensures r.Err? <==> port in Ports(old(rows))
    {
      creating := creating - {id};
      if port in Ports(rows) {
        return Err("duplicate entry");
      }
      rows := rows + [Row(id, name, port)];
      r := Ok(());
    }

    // destroy_webservice up to the call to the board. An offline board is told nothing.
    method BeginDestroy(id: Id, online: bool) returns (r: Result<Option<string>>)
      ensures r.Ok? <==> domain.Some? && id in Ids(rows)
      ensures r.Ok? ==> (r.value.Some? <==> online)
      ensures r.Ok? && online ==>
                exists row :: row in rows && row.id == id &&
                  r.value.value == Announced(Filter(Names(rows), Other(row.name)), domain.value)
    {
      for i := 0 to |rows|
        invariant forall j :: 0 <= j < i ==> rows[j].id != id
      {
        if rows[i].id == id {
          assert Ids(rows)[i] == id;
          if domain.None? {
            return Err("enabled webservice not found");
          }
          if !online {
            return Ok(None);
          }
          var listDns := ListWithout(rows, rows[i].name, domain.value);
          return Ok(Some(listDns));
        }
      }
      r := Err("webservice not found");
    }

    // The rest of destroy_webservice. The agent of an online board is asked to drop the redirect; a
    // board without an agent is an error, and so is a row that has gone meanwhile.
    method FinishDestroy(id: Id, online: bool, hasAgent: bool) returns (r: Result<()>)
      modifies this`rows
      ensures r.Ok? <==> (online ==> hasAgent) && id in Ids(old(rows))
      ensures View() == if r.Ok? then Step(old(View()), Remove(id)) else old(View())
    {
      if online && !hasAgent {
        return Err("board has no agent");
      }
      if id !in Ids(rows) {
        return Err("webservice not found");
      }
      rows := Filter(rows, OtherId(id));
      r := Ok(());
    }
  }

  // The loop that lists the existing names, each followed by a comma.
  method ListAll(listWebs: seq<Row>, domain: string) returns (listDns: string)
    ensures listDns == Announced(Names(listWebs), domain) + ","
  {
    listDns := domain + ",";
    for i := 0 to |listWebs|
      invariant listDns == Announced(Names(listWebs[..i]), domain) + ","
    {
      ListGrows(listDns, Names(listWebs[..i]), listWebs[i].name, domain);
      listDns := listDns + (listWebs[i].name + "." + domain + ",");
      assert Names(listWebs[..i + 1]) == Names(listWebs[..i]) + [listWebs[i].name];
    }
    assert listWebs[..|listWebs|] == listWebs;
  }

  // The loop that lists the other names, and the cut of its last comma.
  method ListWithout(listWebs: seq<Row>, name: string, domain: string) returns (listDns: string)
    ensures listDns == Announced(Filter(Names(listWebs), Other(name)), domain)
  {
    listDns := domain + ",";
    for i := 0 to |listWebs|
      invariant listDns == Announced(Filter(Names(listWebs[..i]), Other(name)), domain) + ","
    {
      assert Names(listWebs[..i + 1]) == Names(listWebs[..i]) + [listWebs[i].name];
      FilterSnoc(Names(listWebs[..i]), listWebs[i].name, Other(name));
      if listWebs[i].name != name {
        ListGrows(listDns, Filter(Names(listWebs[..i]), Other(name)), listWebs[i].name, domain);
        listDns := listDns + (listWebs[i].name + "." + domain + ",");
      }
    }
    assert listWebs[..|listWebs|] == listWebs;
    listDns := listDns[..|listDns| - 1];
  }

  // ---------- Columns ----------

  lemma ColumnSnoc<T>(rows: seq<Row>, row: Row, f: Row -> T)
    ensures Column(rows + [row], f) == Column(rows, f) + [f(row)]
    ensures Distinct(Column(rows + [row], f)) <==> Distinct(Column(rows, f)) && f(row) !in Column(rows, f)
  {
    var column := Column(rows, f);
    assert Column(rows + [row], f) == column + [f(row)];
    DistinctSnoc(column, f(row));
  }

  lemma DistinctSnoc<T>(s: seq<T>, x: T)
    ensures Distinct(s + [x]) <==> Distinct(s) && x !in s
  {
    var longer := s + [x];
    assert forall i :: 0 <= i < |s| ==> longer[i] == s[i];
    if x in s {
      var i :| 0 <= i < |s| && s[i] == x;
      assert longer[i] == longer[|s|];
    }
  }

  lemma {:induction false} FilteredColumn<T(!new)>(rows: seq<Row>, keep: Row -> bool, f: Row -> T)
    ensures forall x :: x in Column(Filter(rows, keep), f) ==> x in Column(rows, f)
    ensures Distinct(Column(rows, f)) ==> Distinct(Column(Filter(rows, keep), f))
  {
    if rows != [] {
      var front, last := rows[..|rows| - 1], rows[|rows| - 1];
      FilteredColumn(front, keep, f);
      ColumnSnoc(front, last, f);
      assert rows == front + [last];
      FilterSnoc(front, last, keep);
      ColumnSnoc(Filter(front, keep), last, f);
    }
  }

  // ---------- What every run keeps ----------

  // Uuids and ports are unique, and a creation under way has its uuid to itself.
  ghost predicate Sound(s: State) {
    && Distinct(Ids(s.rows)) && Distinct(Ports(s.rows))
    && forall id :: id in s.creating ==> id !in Ids(s.rows)
  }

  lemma StepKeepsSound(s: State, e: Event)
    requires Sound(s) && Enabled(s, e)
    ensures Sound(Step(s, e))
  {
    match e
    case Record(id) =>
      if id in s.creating {
        var row := Row(id, s.creating[id].name, s.creating[id].port);
        ColumnSnoc(s.rows, row, IdOf);
        ColumnSnoc(s.rows, row, PortOf);
      }
    case Remove(id) =>
      FilteredColumn(s.rows, OtherId(id), IdOf);
      FilteredColumn(s.rows, OtherId(id), PortOf);
    case _ =>
  }

  function Run(s: State, events: seq<Event>): State {
    if events == [] then s else Step(Run(s, events[..|events| - 1]), events[|events| - 1])
  }

  predicate Legal(s: State, events: seq<Event>) {
    events == [] ||
    var front := events[..|events| - 1];
    Legal(s, front) && Enabled(Run(s, front), events[|events| - 1])
  }

  lemma {:induction false} RunKeepsSound(s: State, events: seq<Event>)
    requires Sound(s) && Legal(s, events)
    ensures Sound(Run(s, events))
  {
    if events != [] {
      RunKeepsSound(s, events[..|events| - 1]);
      StepKeepsSound(Run(s, events[..|events| - 1]), events[|events| - 1]);
    }
  }

  lemma SameId(rows: seq<Row>, a: Row, b: Row)
    requires Distinct(Ids(rows)) && a in rows && b in rows && a.id == b.id
    ensures a == b
  {
    var i :| 0 <= i < |rows| && rows[i] == a;
    var j :| 0 <= j < |rows| && rows[j] == b;
    assert Ids(rows)[i] == Ids(rows)[j];
  }

  // A creation ends when its row is inserted or refused, or when a call before that fails.
  lemma CreationsEnd(s: State, id: Id)
    ensures id !in Step(s, Record(id)).creating && id !in Step(s, GiveUp(id)).creating
    ensures Step(s, GiveUp(id)).rows == s.rows
    ensures id in s.creating && s.creating[id].port in Ports(s.rows) ==> Step(s, Record(id)).rows == s.rows
  {
  }

  // ---------- Distinct names ----------

  // Recording a name that is in the table, under a port that is not.
  predicate Clash(s: State, e: Event) {
    && e.Record? && e.id in s.creating
    && s.creating[e.id].name in Names(s.rows) && s.creating[e.id].port !in Ports(s.rows)
  }

  lemma StepDistinctIff(s: State, e: Event)
    requires Distinct(Names(s.rows))
    ensures Distinct(Names(Step(s, e).rows)) <==> !Clash(s, e)
  {
    match e
    case Record(id) =>
      if id in s.creating {
        ColumnSnoc(s.rows, Row(id, s.creating[id].name, s.creating[id].port), NameOf);
      }
    case Remove(id) => FilteredColumn(s.rows, OtherId(id), NameOf);
    case _ =>
  }

  predicate NoClash(s: State, events: seq<Event>) {
    events == [] ||
    var front := events[..|events| - 1];
    NoClash(s, front) && !Clash(Run(s, front), events[|events| - 1])
  }

  ghost predicate DistinctThroughout(s: State, events: seq<Event>) {
    Distinct(Names(Run(s, events).rows)) && (events == [] || DistinctThroughout(s, events[..|events| - 1]))
  }

  // Over any run the names stay distinct exactly when no creation is recorded whose name, but not
  // whose port, is in the table at that moment.
  lemma {:induction false} RunDistinctIff(s: State, events: seq<Event>)
    requires Distinct(Names(s.rows))
    ensures DistinctThroughout(s, events) <==> NoClash(s, events)
  {
    if events != [] {
      var front := events[..|events| - 1];
      RunDistinctIff(s, front);
      if DistinctThroughout(s, front) {
        StepDistinctIff(Run(s, front), events[|events| - 1]);
      }
    }
  }

  lemma RunSnoc(s: State, front: seq<Event>, e: Event)
    ensures Run(s, front + [e]) == Step(Run(s, front), e)
    ensures Legal(s, front + [e]) <==> Legal(s, front) && Enabled(Run(s, front), e)
    ensures DistinctThroughout(s, front + [e]) <==>
            DistinctThroughout(s, front) && Distinct(Names(Step(Run(s, front), e).rows))
  {
    assert (front + [e])[..|front|] == front;
  }

  const EMPTY := State([], map[])

  // The input that breaks it: two creations of one name with different ports, each checked before
  // the other is recorded.
  lemma OverlappingCreationsCollide(i: Id, j: Id, name: string, p: Port, q: Port)
    requires i != j && p != q
    ensures var events := [Check(i, name, p), Check(j, name, q), Record(i), Record(j)];
            && Legal(EMPTY, events)
            && Run(EMPTY, events).rows == [Row(i, name, p), Row(j, name, q)]
            && !DistinctThroughout(EMPTY, events)
  {
    var two := [Check(i, name, p), Check(j, name, q)];
    BothChecked(i, j, name, p, q);
    RunSnoc(EMPTY, two, Record(i));
    RunSnoc(EMPTY, two + [Record(i)], Record(j));
    assert two + [Record(i)] + [Record(j)] == [Check(i, name, p), Check(j, name, q), Record(i), Record(j)];
    BothRecorded(i, j, name, p, q);
  }

  lemma BothChecked(i: Id, j: Id, name: string, p: Port, q: Port)
    requires i != j
    ensures var events := [Check(i, name, p), Check(j, name, q)];
            && Legal(EMPTY, events)
            && Run(EMPTY, events) == State([], map[i := Pending(name, p), j := Pending(name, q)])
  {
    RunSnoc(EMPTY, [], Check(i, name, p));
    RunSnoc(EMPTY, [Check(i, name, p)], Check(j, name, q));
    assert [] + [Check(i, name, p)] == [Check(i, name, p)];
    assert [Check(i, name, p)] + [Check(j, name, q)] == [Check(i, name, p), Check(j, name, q)];
    assert Names([]) == [];
  }

  lemma BothRecorded(i: Id, j: Id, name: string, p: Port, q: Port)
    requires i != j && p != q
    ensures var s := State([], map[i := Pending(name, p), j := Pending(name, q)]);
            var rows := Step(Step(s, Record(i)), Record(j)).rows;
            rows == [Row(i, name, p), Row(j, name, q)] && !Distinct(Names(rows))
  {
    var rows := [Row(i, name, p), Row(j, name, q)];
    assert Names(rows)[0] == Names(rows)[1];
  }

  // ---------- Overlapping creations ----------

  // Creations under way that share a name share the port.
  ghost predicate Agreeing(s: State) {
    forall i, j :: i in s.creating && j in s.creating && s.creating[i].name == s.creating[j].name ==>
      s.creating[i].port == s.creating[j].port
  }

  // A row that bears the name of a creation under way has its port.
  ghost predicate Fitting(s: State) {
    forall i, row :: i in s.creating && row in s.rows && row.name == s.creating[i].name ==>
      row.port == s.creating[i].port
  }

  ghost predicate AgreeingThroughout(s: State, events: seq<Event>) {
    Agreeing(Run(s, events)) && (events == [] || AgreeingThroughout(s, events[..|events| - 1]))
  }

  lemma StepKeepsFitting(s: State, e: Event)
    requires Agreeing(s) && Fitting(s)
    ensures Fitting(Step(s, e)) && !Clash(s, e)
  {
    match e
    case Check(id, name, port) =>
      forall row | row in s.rows ensures row.name in Names(s.rows) {
        var k :| 0 <= k < |s.rows| && s.rows[k] == row;
        assert Names(s.rows)[k] == row.name;
      }
    case Record(id) =>
      if id in s.creating && s.creating[id].name in Names(s.rows) {
        var k :| 0 <= k < |s.rows| && Names(s.rows)[k] == s.creating[id].name;
        assert s.rows[k] in s.rows && Ports(s.rows)[k] == s.rows[k].port;
      }
    case Remove(id) => FilterMembers(s.rows, OtherId(id));
    case _ =>
  }

  // If overlapping creations of one name always ask for one port, the names stay distinct: in
  // particular if no two overlapping creations share a name.
  lemma {:induction false} AgreeingCreationsStayDistinct(s: State, events: seq<Event>)
    requires Distinct(Names(s.rows)) && Fitting(s) && AgreeingThroughout(s, events)
    ensures DistinctThroughout(s, events) && Fitting(Run(s, events))
  {
    if events != [] {
      var front := events[..|events| - 1];
      AgreeingCreationsStayDistinct(s, front);
      assert Agreeing(Run(s, front)) by {
        assert AgreeingThroughout(s, front);
      }
      StepKeepsFitting(Run(s, front), events[|events| - 1]);
      StepDistinctIff(Run(s, front), events[|events| - 1]);
    }
  }

  ghost predicate StartsNothing(events: seq<Event>) {
    forall e :: e in events ==> !e.Check?
  }

  lemma {:induction false} NothingStarted(s: State, events: seq<Event>)
    requires Agreeing(s) && StartsNothing(events)
    ensures AgreeingThroughout(s, events)
    ensures forall i :: i in Run(s, events).creating ==> i in s.creating && Run(s, events).creating[i] == s.creating[i]
  {
    if events != [] {
      var front, e := events[..|events| - 1], events[|events| - 1];
      assert forall x :: x in front ==> x in events;
      NothingStarted(s, front);
      assert e in events && !e.Check?;
    }
  }

  // Whatever the creations and destructions under way do, the names stay distinct exactly when
  // creations that share a name share the port and no row bears a creation's name under another port.
  lemma FinishingStaysDistinctIff(s: State)
    requires Sound(s) && Distinct(Names(s.rows))
    ensures (forall events :: StartsNothing(events) ==> DistinctThroughout(s, events)) <==> Agreeing(s) && Fitting(s)
  {
    if Agreeing(s) && Fitting(s) {
      forall events | StartsNothing(events) ensures DistinctThroughout(s, events) {
        NothingStarted(s, events);
        AgreeingCreationsStayDistinct(s, events);
      }
    } else if !Fitting(s) {
      var i, row :| i in s.creating && row in s.rows && row.name == s.creating[i].name
                    && row.port != s.creating[i].port;
      var events := FinishOne(s, i, row);
    } else {
      var i, j :| i in s.creating && j in s.creating && s.creating[i].name == s.creating[j].name
                  && s.creating[i].port != s.creating[j].port;
      var events := FinishTwo(s, i, j);
    }
  }

  // The events that remove some rows.
  function Removals(gone: seq<Row>): seq<Event> {
    if gone == [] then [] else Removals(gone[..|gone| - 1]) + [Remove(gone[|gone| - 1].id)]
  }

  lemma {:induction false} RemovalsStartNothing(gone: seq<Row>)
    ensures StartsNothing(Removals(gone))
  {
    if gone != [] {
      RemovalsStartNothing(gone[..|gone| - 1]);
    }
  }

  predicate Spared(row: Row, gone: seq<Row>) {
    row.id !in Ids(gone)
  }

  lemma SparedSnoc(row: Row, gone: seq<Row>, last: Row)
    ensures Spared(row, gone + [last]) <==> Spared(row, gone) && row.id != last.id
  {
    ColumnSnoc(gone, last, IdOf);
  }

  lemma {:induction false} RemovalsClear(s: State, gone: seq<Row>)
    ensures var s' := Run(s, Removals(gone));
            && s'.creating == s.creating
            && forall row :: row in s'.rows <==> row in s.rows && Spared(row, gone)
  {
    if gone != [] {
      var front, last := gone[..|gone| - 1], gone[|gone| - 1];
      assert gone == front + [last];
      RemovalsClear(s, front);
      RunSnoc(s, Removals(front), Remove(last.id));
      FilterMembers(Run(s, Removals(front)).rows, OtherId(last.id));
      forall row: Row ensures Spared(row, gone) <==> Spared(row, front) && row.id != last.id {
        SparedSnoc(row, front, last);
      }
    }
  }

  // Once all other rows are gone, a creation whose name is in the table under another port goes through.
  lemma FinishOne(s: State, i: Id, row: Row) returns (events: seq<Event>)
    requires Sound(s) && Distinct(Names(s.rows)) && i in s.creating && row in s.rows
    requires row.name == s.creating[i].name && row.port != s.creating[i].port
    ensures StartsNothing(events) && !DistinctThroughout(s, events)
  {
    var others := Filter(s.rows, OtherId(row.id));
    FilterMembers(s.rows, OtherId(row.id));
    RemovalsStartNothing(others);
    RemovalsClear(s, others);
    events := Removals(others) + [Record(i)];
    var s1 := Run(s, Removals(others));
    RunSnoc(s, Removals(others), Record(i));
    forall k | 0 <= k < |s1.rows| ensures s1.rows[k] == row {
      assert s1.rows[k] in s1.rows;
      ListedId(others, s1.rows[k]);
      SameId(s.rows, s1.rows[k], row);
    }
    assert Spared(row, others) by {
      forall k | 0 <= k < |others| ensures others[k].id != row.id {
        assert others[k] in others;
      }
    }
    assert row in s1.rows;
    assert row.name in Names(s1.rows) by {
      var k :| 0 <= k < |s1.rows| && s1.rows[k] == row;
      assert Names(s1.rows)[k] == row.name;
    }
    assert Clash(s1, Record(i));
    if Distinct(Names(s1.rows)) {
      StepDistinctIff(s1, Record(i));
    }
  }

  lemma ListedId(rows: seq<Row>, row: Row)
    ensures row in rows ==> row.id in Ids(rows)
  {
    if row in rows {
      var k :| 0 <= k < |rows| && rows[k] == row;
      assert Ids(rows)[k] == row.id;
    }
  }

  lemma HeadListed(rows: seq<Row>)
    ensures rows != [] ==> rows[0] in rows
  {
  }

  // Once the table is empty, two creations of one name with different ports both go through.
  lemma FinishTwo(s: State, i: Id, j: Id) returns (events: seq<Event>)
    requires i in s.creating && j in s.creating && s.creating[i].name == s.creating[j].name
    requires s.creating[i].port != s.creating[j].port
    ensures StartsNothing(events) && !DistinctThroughout(s, events)
  {
    RemovalsStartNothing(s.rows);
    RemovalsClear(s, s.rows);
    var clear := Removals(s.rows);
    var s1 := Run(s, clear);
    forall row ensures row !in s1.rows {
      ListedId(s.rows, row);
    }
    HeadListed(s1.rows);
    assert s1.rows == [];
    RunSnoc(s, clear, Record(i));
    RunSnoc(s, clear + [Record(i)], Record(j));
    events := clear + [Record(i)] + [Record(j)];
    BothGoThrough(s1, i, j);
  }

  lemma BothGoThrough(s: State, i: Id, j: Id)
    requires s.rows == [] && i in s.creating && j in s.creating
    requires s.creating[i].name == s.creating[j].name && s.creating[i].port != s.creating[j].port
    ensures !Distinct(Names(Step(Step(s, Record(i)), Record(j)).rows))
  {
    var row := Row(i, s.creating[i].name, s.creating[i].port);
    var s' := Step(s, Record(i));
    assert s' == State([row], s.creating - {i});
    SameNameOtherPort(s', row, j);
  }

  lemma SameNameOtherPort(s: State, row: Row, j: Id)
    requires s.rows == [row] && j in s.creating && s.creating[j].name == row.name && s.creating[j].port != row.port
    ensures !Distinct(Names(Step(s, Record(j)).rows))
  {
    assert Names([row]) == [row.name] && Ports([row]) == [row.port];
    StepDistinctIff(s, Record(j));
  }

  // ---------- What the board is told ----------

  // Destroying a webservice right after creating it sends the list that stood before.
  lemma DestroyUndoesCreate(s: State, id: Id, name: string, port: Port, domain: string)
    requires Distinct(Names(s.rows)) && name !in Names(s.rows) && port !in Ports(s.rows)
    requires id !in s.creating && id !in Ids(s.rows)
    ensures var s' := Step(Step(s, Check(id, name, port)), Record(id));
            && id in Ids(s'.rows)
            && Announced(Filter(Names(s'.rows), Other(name)), domain) == Announced(Names(s.rows), domain)
            && Step(s', Remove(id)).rows == s.rows
  {
    CreatedAtOnce(s, id, name, port);
    LastRowTakenOut(s.rows, Row(id, name, port));
  }

  lemma CreatedAtOnce(s: State, id: Id, name: string, port: Port)
    requires name !in Names(s.rows) && port !in Ports(s.rows)
    ensures Step(Step(s, Check(id, name, port)), Record(id)).rows == s.rows + [Row(id, name, port)]
  {
  }

  lemma LastRowTakenOut(rows: seq<Row>, row: Row)
    requires row.name !in Names(rows) && row.id !in Ids(rows)
    ensures row.id in Ids(rows + [row])
    ensures Filter(Names(rows + [row]), Other(row.name)) == Names(rows)
    ensures Filter(rows + [row], OtherId(row.id)) == rows
  {
    ColumnSnoc(rows, row, NameOf);
    ColumnSnoc(rows, row, IdOf);
    FilterLast(Names(rows), row.name, Other(row.name));
    forall i | 0 <= i < |rows| ensures rows[i].id != row.id {
      assert Ids(rows)[i] == rows[i].id;
    }
    FilterLast(rows, row, OtherId(row.id));
  }

  lemma FilterLast<T>(s: seq<T>, x: T, keep: T -> bool)
    requires !keep(x) && forall i :: 0 <= i < |s| ==> keep(s[i])
    ensures Filter(s + [x], keep) == s
  {
    FilterSnoc(s, x, keep);
    FilterAll(s, keep);
  }

  predicate NoCommas(names: seq<string>) {
    forall i :: 0 <= i < |names| ==> ',' !in names[i]
  }

  // From a creation's check to its row, whatever the other handlers do: the list it sent is the
  // table's own list once its row is there exactly when they left the names as it read them.
  lemma AnnouncementCurrentIff(s: State, id: Id, name: string, port: Port, more: seq<Event>, domain: string)
    requires name !in Names(s.rows) && (forall e :: e in more ==> !e.Check? || e.id != id)
    requires var later := Run(Step(s, Check(id, name, port)), more);
             && id in later.creating && port !in Ports(later.rows)
             && NoCommas(Names(s.rows)) && NoCommas(Names(later.rows)) && ',' !in domain && ',' !in name
    ensures var later := Run(Step(s, Check(id, name, port)), more);
            Announced(Names(s.rows) + [name], domain) == Announced(Names(Step(later, Record(id)).rows), domain) <==>
            Names(later.rows) == Names(s.rows)
  {
    var later := Run(Step(s, Check(id, name, port)), more);
    PendingStays(Step(s, Check(id, name, port)), id, more);
    ColumnSnoc(later.rows, Row(id, name, port), NameOf);
    var read, names := Names(s.rows), Names(later.rows);
    var sent, now := read + [name], names + [name];
    if Announced(sent, domain) == Announced(now, domain) {
      AnnouncementsDiffer(sent, now, domain);
      assert read == sent[..|sent| - 1] && names == now[..|now| - 1];
    }
  }

  lemma {:induction false} PendingStays(s: State, id: Id, events: seq<Event>)
    requires forall e :: e in events ==> !e.Check? || e.id != id
    ensures id in Run(s, events).creating ==> id in s.creating && Run(s, events).creating[id] == s.creating[id]
  {
    if events != [] {
      var front, e := events[..|events| - 1], events[|events| - 1];
      assert forall x :: x in front ==> x in events;
      PendingStays(s, id, front);
      assert e in events;
    }
  }

  // The list sent when a webservice is destroyed is the table's own list once its row is gone
  // exactly when no other row bears its name.
  lemma RemovalAnnouncedIff(s: State, row: Row, domain: string)
    requires Sound(s) && row in s.rows && ',' !in domain && NoCommas(Names(s.rows))
    ensures Announced(Filter(Names(s.rows), Other(row.name)), domain) ==
            Announced(Names(Step(s, Remove(row.id)).rows), domain) <==>
            forall other :: other in s.rows && other.id != row.id ==> other.name != row.name
  {
    var sent, now := Filter(Names(s.rows), Other(row.name)), Names(Step(s, Remove(row.id)).rows);
    FilteredNoCommas(Names(s.rows), Other(row.name));
    RemainingNoCommas(s.rows, row.id);
    RemainingNamesIff(s, row);
    if Announced(sent, domain) == Announced(now, domain) {
      AnnouncementsDiffer(sent, now, domain);
    }
  }

  lemma FilteredNoCommas(names: seq<string>, keep: string -> bool)
    requires NoCommas(names)
    ensures NoCommas(Filter(names, keep))
  {
    FilterMembers(names, keep);
    var kept := Filter(names, keep);
    forall i | 0 <= i < |kept| ensures ',' !in kept[i] {
      assert kept[i] in kept && kept[i] in names;
    }
  }

  lemma RemainingNoCommas(rows: seq<Row>, id: Id)
    requires NoCommas(Names(rows))
    ensures NoCommas(Names(Filter(rows, OtherId(id))))
  {
    FilteredColumn(rows, OtherId(id), NameOf);
    var kept := Names(Filter(rows, OtherId(id)));
    forall i | 0 <= i < |kept| ensures ',' !in kept[i] {
      assert kept[i] in kept && kept[i] in Names(rows);
    }
  }

  lemma RemainingNamesIff(s: State, row: Row)
    requires Sound(s) && row in s.rows
    ensures Filter(Names(s.rows), Other(row.name)) == Names(Step(s, Remove(row.id)).rows) <==>
            forall other :: other in s.rows && other.id != row.id ==> other.name != row.name
  {
    if other :| other in s.rows && other.id != row.id && other.name == row.name {
      FilterMembers(s.rows, OtherId(row.id));
      FilterMembers(Names(s.rows), Other(row.name));
      var kept := Filter(s.rows, OtherId(row.id));
      var i :| 0 <= i < |kept| && kept[i] == other;
      assert Names(kept)[i] == row.name;
      assert row.name in Names(kept) && row.name !in Filter(Names(s.rows), Other(row.name));
    } else {
      forall other | other in s.rows ensures other.id == row.id <==> other.name == row.name {
        if other.id == row.id {
          SameId(s.rows, other, row);
        }
      }
      SameFilter(s.rows, row);
    }
  }

  lemma {:induction false} SameFilter(rows: seq<Row>, row: Row)
    requires forall other :: other in rows ==> (other.id == row.id <==> other.name == row.name)
    ensures Filter(Names(rows), Other(row.name)) == Names(Filter(rows, OtherId(row.id)))
  {
    if rows != [] {
      var front, last := rows[..|rows| - 1], rows[|rows| - 1];
      assert rows == front + [last];
      assert last in rows && forall other :: other in front ==> other in rows;
      SameFilter(front, row);
      SameFilterSnoc(front, last, row);
    }
  }

  lemma SameFilterSnoc(front: seq<Row>, last: Row, row: Row)
    requires last.id == row.id <==> last.name == row.name
    requires Filter(Names(front), Other(row.name)) == Names(Filter(front, OtherId(row.id)))
    ensures Filter(Names(front + [last]), Other(row.name)) == Names(Filter(front + [last], OtherId(row.id)))
  {
    ColumnSnoc(front, last, NameOf);
    FilterSnoc(Names(front), last.name, Other(row.name));
    FilterSnoc(front, last, OtherId(row.id));
    ColumnSnoc(Filter(front, OtherId(row.id)), last, NameOf);
  }

  lemma AnnouncementIsReadable(names: seq<string>, domain: string)
    requires ',' !in domain && NoCommas(names)
    ensures var parts := CommaSplit(Announced(names, domain));
            && |parts| == |names| + 1 && parts[0] == domain
            && forall i :: 0 <= i < |names| ==> parts[i + 1] == names[i] + "." + domain
  {
    SplitJoin([domain] + Qualified(names, domain));
  }

  // No two sets of names are announced alike.
  lemma AnnouncementsDiffer(names: seq<string>, others: seq<string>, domain: string)
    requires ',' !in domain && NoCommas(names) && NoCommas(others)
    requires Announced(names, domain) == Announced(others, domain)
    ensures names == others
  {
    AnnouncementIsReadable(names, domain);
    AnnouncementIsReadable(others, domain);
    var a, b := [domain] + Qualified(names, domain), [domain] + Qualified(others, domain);
    assert |names| == |a| - 1 == |b| - 1 == |others|;
    forall i | 0 <= i < |names| ensures names[i] == others[i] {
      assert a[i + 1] == names[i] + "." + domain && b[i + 1] == others[i] + "." + domain;
      SuffixCancels(names[i], others[i], "." + domain);
      assert names[i] + "." + domain == names[i] + ("." + domain);
      assert others[i] + "." + domain == others[i] + ("." + domain);
    }
  }

  lemma SuffixCancels(a: string, b: string, tail: string)
    ensures a + tail == b + tail ==> a == b
  {
    if a + tail == b + tail {
      assert |a| == |b| && (a + tail)[..|a|] == a && (b + tail)[..|b|] == b;
    }
  }
}
