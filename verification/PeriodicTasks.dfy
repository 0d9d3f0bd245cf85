/** The periodic scheduler of iotronic/openstack/common/periodic_task.py.

    Clock readings and the random draw are inputs; time is a real number of seconds. */
module PeriodicTasks {
  import opened Collections

  type Name = string

  const DEFAULT_INTERVAL := 60.0

  // A last run of None: the task asked to run immediately and has not run yet.

  // One visit of the scheduler to a task: the clock when it is checked, the clock when its new
  // last run is computed, the random number in [0, 1), and whether the task raises if it runs.
  datatype Visit = Visit(check: real, boundary: real, draw: real, fails: bool)

  predicate GoodVisit(v: Visit) {
    v.check <= v.boundary && 0.0 <= v.draw < 1.0
  }

  function MinReal(a: real, b: real): real {
    if b < a then b else a
  }

  // Python's float % for a positive divisor.
  function FloorMod(a: real, b: real): real
    requires b > 0.0
  {
    a - b * (a / b).Floor as real
  }

  function NearestBoundary(last: Option<real>, spacing: real, now: real, draw: real): real
    requires spacing > 0.0
  {
    if last.None? then now
    else now - FloorMod(now - last.value, spacing) + Jitter(spacing, draw) as real
  }

  predicate Due(last: Option<real>, spacing: real, now: real) {
    last.None? || last.value + spacing - now <= 0.0
  }

  // Whole spacings between two times.
  function Periods(elapsed: real, spacing: real): int
    requires spacing > 0.0
  {
    (elapsed / spacing).Floor
  }

  function Jitter(spacing: real, draw: real): int {
    (spacing * (draw / 20.0)).Floor
  }

  // The new last run is the latest point a whole number of spacings, at least one, after the old
  // one, plus a jitter of whole seconds that is at most a twentieth of the spacing.
  lemma BoundaryAdvances(last: real, spacing: real, now: real, draw: real) returns (periods: int, jitter: int)
    requires spacing > 0.0 && 0.0 <= draw < 1.0 && now >= last + spacing
    ensures periods >= 1 && jitter >= 0 && jitter as real <= spacing / 20.0
    ensures jitter as real <= spacing * (draw / 20.0) < jitter as real + 1.0
    ensures NearestBoundary(Some(last), spacing, now, draw) == last + spacing * periods as real + jitter as real
    ensures NearestBoundary(Some(last), spacing, now, draw) >= last + spacing
    ensures last + spacing * periods as real <= now < last + spacing * periods as real + spacing
  {
    periods, jitter := Periods(now - last, spacing), Jitter(spacing, draw);
    assert periods >= 1 && last + spacing * periods as real <= now < last + spacing * periods as real + spacing by {
      PeriodsBound(now - last, spacing);
    }
    assert jitter >= 0 && jitter as real <= spacing / 20.0 by {
      JitterBound(spacing, draw);
    }
    BoundaryIs(last, spacing, now, draw);
    BoundaryAfter(last, spacing, now, draw);
  }

  lemma BoundaryAfter(last: real, spacing: real, now: real, draw: real)
    requires spacing > 0.0 && 0.0 <= draw < 1.0 && now >= last + spacing
    ensures NearestBoundary(Some(last), spacing, now, draw) >= last + spacing
  {
    var whole := spacing * Periods(now - last, spacing) as real;
    assert whole >= spacing by { PeriodsBound(now - last, spacing); }
    var jitter := Jitter(spacing, draw) as real;
    assert jitter >= 0.0 by { JitterBound(spacing, draw); }
    assert NearestBoundary(Some(last), spacing, now, draw) == last + whole + jitter by {
      BoundaryIs(last, spacing, now, draw);
    }
  }

  lemma BoundaryIs(last: real, spacing: real, now: real, draw: real)
    requires spacing > 0.0
    ensures NearestBoundary(Some(last), spacing, now, draw) ==
            last + spacing * Periods(now - last, spacing) as real + Jitter(spacing, draw) as real
  {
    var whole := spacing * Periods(now - last, spacing) as real;
    assert FloorMod(now - last, spacing) == now - last - whole;
  }

  lemma PeriodsBound(elapsed: real, spacing: real)
    requires spacing > 0.0 && elapsed >= spacing
    ensures Periods(elapsed, spacing) >= 1
    ensures spacing * Periods(elapsed, spacing) as real >= spacing
    ensures spacing * Periods(elapsed, spacing) as real <= elapsed &&
            elapsed < spacing * Periods(elapsed, spacing) as real + spacing
  {
    QuotientAtLeastOne(elapsed, spacing);
    FloorModBound(elapsed, spacing);
    ScaleUp(spacing, Periods(elapsed, spacing) as real);
    FloorModIs(elapsed, spacing);
  }

  lemma FloorModIs(a: real, b: real)
    requires b > 0.0
    ensures FloorMod(a, b) == a - b * Periods(a, b) as real
  {
  }

  lemma QuotientAtLeastOne(a: real, b: real)
    requires b > 0.0 && a >= b
    ensures a / b >= 1.0
  {
    assert a / b * b == a;
  }

  lemma FloorModBound(a: real, b: real)
    requires b > 0.0
    ensures 0.0 <= FloorMod(a, b) < b
  {
    var q := a / b;
    var rest := q - q.Floor as real;
    assert a == b * q;
    assert FloorMod(a, b) == b * rest;
    assert 0.0 <= rest < 1.0;
    ScaleDown(b, rest);
  }

  lemma ScaleDown(b: real, x: real)
    requires b > 0.0 && 0.0 <= x < 1.0
    ensures 0.0 <= b * x < b
  {
    assert b - b * x == b * (1.0 - x);
  }

  lemma ScaleUp(b: real, k: real)
    requires b > 0.0 && k >= 1.0
    ensures b * k >= b
  {
    assert b * k - b == b * (k - 1.0);
  }

  lemma JitterBound(spacing: real, draw: real)
    requires spacing > 0.0 && 0.0 <= draw < 1.0
    ensures 0.0 <= spacing * (draw / 20.0) <= spacing / 20.0
    ensures 0 <= Jitter(spacing, draw) && Jitter(spacing, draw) as real <= spacing / 20.0
  {
    var x := draw / 20.0;
    assert 0.0 <= x <= 1.0 / 20.0;
    assert spacing * x >= 0.0;
    assert spacing * (1.0 / 20.0 - x) >= 0.0;
    assert spacing * (1.0 / 20.0) - spacing * x == spacing * (1.0 / 20.0 - x);
  }

  // ---------- One task, visited again and again ----------

  function Visited(last: Option<real>, spacing: real, v: Visit): Option<real>
    requires spacing > 0.0
  {
    if Due(last, spacing, v.check) then Some(NearestBoundary(last, spacing, v.boundary, v.draw)) else last
  }

  function LastAfter(last: Option<real>, spacing: real, visits: seq<Visit>): Option<real>
    requires spacing > 0.0
  {
    if visits == [] then last
    else Visited(LastAfter(last, spacing, visits[..|visits| - 1]), spacing, visits[|visits| - 1])
  }

  // The times at which the task was found due, and ran.
  function RunTimes(last: Option<real>, spacing: real, visits: seq<Visit>): seq<real>
    requires spacing > 0.0
  {
    if visits == [] then []
    else
      var front, v := visits[..|visits| - 1], visits[|visits| - 1];
      RunTimes(last, spacing, front) + if Due(LastAfter(last, spacing, front), spacing, v.check) then [v.check] else []
  }

  // k spacings, added up.
  function Elapsed(spacing: real, k: nat): real {
    if k == 0 then 0.0 else Elapsed(spacing, k - 1) + spacing
  }

  lemma {:induction false} ElapsedIsProduct(spacing: real, k: nat)
    ensures Elapsed(spacing, k) == spacing * k as real
  {
    if k > 0 {
      ElapsedIsProduct(spacing, k - 1);
      assert spacing * k as real == spacing * (k - 1) as real + spacing;
    }
  }

  lemma VisitAdvances(last: real, spacing: real, v: Visit)
    requires spacing > 0.0 && GoodVisit(v) && Due(Some(last), spacing, v.check)
    ensures Visited(Some(last), spacing, v).Some? && Visited(Some(last), spacing, v).value >= last + spacing
  {
    BoundaryAfter(last, spacing, v.boundary, v.draw);
  }

  // After |runs| runs the last run has moved on by as many spacings, and no run came before its turn.
  lemma {:induction false} RunsElapse(start: real, spacing: real, visits: seq<Visit>)
    requires spacing > 0.0 && forall i :: 0 <= i < |visits| ==> GoodVisit(visits[i])
    ensures var runs, last := RunTimes(Some(start), spacing, visits), LastAfter(Some(start), spacing, visits);
            && (forall k :: 0 <= k < |runs| ==> runs[k] >= start + Elapsed(spacing, k + 1))
            && last.Some? && last.value >= start + Elapsed(spacing, |runs|)
  {
    if visits != [] {
      var front, v := visits[..|visits| - 1], visits[|visits| - 1];
      RunsElapse(start, spacing, front);
      var last := LastAfter(Some(start), spacing, front);
      if Due(last, spacing, v.check) {
        VisitAdvances(last.value, spacing, v);
      }
    }
  }

  // Rate bound: however late the scheduler comes and however the jitter falls, the k-th run of a
  // task (counted from 0) happens no earlier than k + 1 spacings after its initial last run.
  lemma RateBound(start: real, spacing: real, visits: seq<Visit>)
    requires spacing > 0.0 && forall i :: 0 <= i < |visits| ==> GoodVisit(visits[i])
    ensures var runs := RunTimes(Some(start), spacing, visits);
            forall k :: 0 <= k < |runs| ==> runs[k] - start >= spacing * (k + 1) as real
  {
    RunsElapse(start, spacing, visits);
    var runs := RunTimes(Some(start), spacing, visits);
    forall k | 0 <= k < |runs| ensures runs[k] - start >= spacing * (k + 1) as real {
      ElapsedIsProduct(spacing, k + 1);
    }
  }

  // A task that asked to run immediately is bound in the same way by its own first run.
  lemma RateBoundImmediate(spacing: real, visits: seq<Visit>)
    requires spacing > 0.0 && visits != [] && forall i :: 0 <= i < |visits| ==> GoodVisit(visits[i])
    ensures var runs := RunTimes(None, spacing, visits);
            && runs != [] && runs[0] == visits[0].check
            && forall k :: 0 <= k < |runs| ==> runs[k] - runs[0] >= spacing * k as real
  {
    FirstVisitRuns(spacing, visits);
    RunsElapse(visits[0].boundary, spacing, visits[1..]);
    var runs, rest := RunTimes(None, spacing, visits), RunTimes(Some(visits[0].boundary), spacing, visits[1..]);
    forall k | 0 <= k < |runs| ensures runs[k] - runs[0] >= spacing * k as real {
      ElapsedIsProduct(spacing, k);
      if k > 0 {
        assert runs[k] == rest[k - 1];
      }
    }
  }

  lemma {:induction false} FirstVisitRuns(spacing: real, visits: seq<Visit>)
    requires spacing > 0.0 && visits != []
    ensures LastAfter(None, spacing, visits) == LastAfter(Some(visits[0].boundary), spacing, visits[1..])
    ensures RunTimes(None, spacing, visits) ==
            [visits[0].check] + RunTimes(Some(visits[0].boundary), spacing, visits[1..])
  {
    var front := visits[..|visits| - 1];
    if front == [] {
      assert visits[1..] == [];
    } else {
      FirstVisitRuns(spacing, front);
      assert visits[1..][..|visits[1..]| - 1] == front[1..];
    }
  }

  // ---------- A pass over all tasks ----------

  // What a pass does to one task: it runs if it is due; otherwise it does not become due before
  // the returned wait has passed.
  predicate Served(before: Option<real>, after: Option<real>, ran: bool, idle: real, spacing: real, v: Visit)
    requires spacing > 0.0
  {
    Outcome(before, after, ran, spacing, v) && Fits(idle, before, ran, spacing, v)
  }

  predicate Outcome(before: Option<real>, after: Option<real>, ran: bool, spacing: real, v: Visit)
    requires spacing > 0.0
  {
    after == Visited(before, spacing, v) && (ran <==> Due(before, spacing, v.check))
  }

  predicate Fits(idle: real, before: Option<real>, ran: bool, spacing: real, v: Visit) {
    idle <= spacing && (ran || (before.Some? && v.check + idle <= before.value + spacing))
  }

  // The wait is that of this task: its spacing or, when it was skipped, the time left until it is due.
  predicate Bounds(idle: real, before: Option<real>, ran: bool, spacing: real, v: Visit) {
    idle == spacing || (!ran && before.Some? && idle == before.value + spacing - v.check)
  }

  // One pass: the tasks with their spacings and last runs, and what the clock and the random source
  // give at each visit.
  datatype Round = Round(tasks: seq<Name>, spacings: map<Name, real>, start: map<Name, Option<real>>,
                         visits: seq<Visit>) {
    ghost predicate Good() {
      && Distinct(tasks) && |visits| == |tasks|
      && forall i :: 0 <= i < |tasks| ==> tasks[i] in start && tasks[i] in spacings && spacings[tasks[i]] > 0.0
    }

    ghost predicate DueAt(i: nat)
      requires Good() && i < |tasks|
    {
      Due(start[tasks[i]], spacings[tasks[i]], visits[i].check)
    }

    // Last runs, tasks run and wait after the first i visits.
    ghost function LastRuns(i: nat): map<Name, Option<real>>
      requires Good() && i <= |tasks|
    {
      if i == 0 then start
      else LastRuns(i - 1)[tasks[i - 1] := Visited(start[tasks[i - 1]], spacings[tasks[i - 1]], visits[i - 1])]
    }

    ghost function Ran(i: nat): seq<Name>
      requires Good() && i <= |tasks|
    {
      if i == 0 then [] else if DueAt(i - 1) then Ran(i - 1) + [tasks[i - 1]] else Ran(i - 1)
    }

    ghost function Wait(i: nat): real
      requires Good() && i <= |tasks|
    {
      if i == 0 then 60.0
      else
        var idle := MinReal(Wait(i - 1), spacings[tasks[i - 1]]);
        if DueAt(i - 1) then idle
        else MinReal(idle, start[tasks[i - 1]].value + spacings[tasks[i - 1]] - visits[i - 1].check)
    }

    lemma {:induction false} LastRunsFacts(i: nat)
      requires Good() && i <= |tasks|
      ensures LastRuns(i).Keys == start.Keys
      ensures forall j :: 0 <= j < i ==>
                LastRuns(i)[tasks[j]] == Visited(start[tasks[j]], spacings[tasks[j]], visits[j])
      ensures forall n :: n in start && n !in tasks[..i] ==> LastRuns(i)[n] == start[n]
    {
      if i > 0 {
        LastRunsFacts(i - 1);
        assert tasks[..i] == tasks[..i - 1] + [tasks[i - 1]];
      }
    }

    lemma NotYetVisited(i: nat)
      requires Good() && i < |tasks|
      ensures tasks[i] in LastRuns(i) && LastRuns(i)[tasks[i]] == start[tasks[i]]
    {
      LastRunsFacts(i);
      assert tasks[i] !in tasks[..i];
    }

    lemma {:induction false} RanFacts(i: nat)
      requires Good() && i <= |tasks|
      ensures Distinct(Ran(i))
      ensures forall n :: n in Ran(i) ==> n in tasks[..i]
      ensures forall j :: 0 <= j < i ==> (tasks[j] in Ran(i) <==> DueAt(j))
    {
      if i > 0 {
        RanFacts(i - 1);
        assert tasks[..i] == tasks[..i - 1] + [tasks[i - 1]];
        assert tasks[i - 1] !in tasks[..i - 1];
      }
    }

    lemma {:induction false} WaitFacts(i: nat)
      requires Good() && i <= |tasks|
      ensures 0.0 < Wait(i) <= 60.0
      ensures forall j :: 0 <= j < i ==> Fits(Wait(i), start[tasks[j]], DueAt(j), spacings[tasks[j]], visits[j])
      ensures Wait(i) == 60.0 || exists j ::
                (0 <= j < i && Bounds(Wait(i), start[tasks[j]], DueAt(j), spacings[tasks[j]], visits[j]))
    {
      if i > 0 {
        WaitFacts(i - 1);
        if Wait(i) != Wait(i - 1) {
          assert Bounds(Wait(i), start[tasks[i - 1]], DueAt(i - 1), spacings[tasks[i - 1]], visits[i - 1]);
        }
      }
    }
  }

  class Scheduler {
    const tasks: seq<Name>
    const spacings: map<Name, real>
    var lastRun: map<Name, Option<real>>

    // Tasks are registered under distinct names, with a positive spacing and a last run each.
    ghost predicate Valid()
      reads this
    {
      && Distinct(tasks)
      && forall i :: 0 <= i < |tasks| ==> tasks[i] in lastRun && tasks[i] in spacings && spacings[tasks[i]] > 0.0
    }

    // visits[i] holds what the clock and the random source give when task i is visited.
    // A pass visits all tasks unless one raises and the caller wants that reported.
    method RunPeriodicTasks(visits: seq<Visit>, raiseOnError: bool)
      returns (idleFor: real, ran: seq<Name>, visited: nat, raised: bool)
      requires Valid() && |visits| == |tasks|
      modifies this
      ensures Valid() && visited <= |tasks| && 0.0 < idleFor <= 60.0
      ensures idleFor == 60.0 || exists i ::
                (0 <= i < visited
                 && Bounds(idleFor, old(lastRun)[tasks[i]], tasks[i] in ran, spacings[tasks[i]], visits[i]))
      ensures if raised then raiseOnError && 0 < visited && visits[visited - 1].fails && tasks[visited - 1] in ran
              else visited == |tasks|
      ensures forall i :: 0 <= i < visited ==>
                Served(old(lastRun)[tasks[i]], lastRun[tasks[i]], tasks[i] in ran, idleFor,
                       spacings[tasks[i]], visits[i])
      ensures forall i :: visited <= i < |tasks| ==> lastRun[tasks[i]] == old(lastRun)[tasks[i]] && tasks[i] !in ran
      ensures Distinct(ran) && forall n :: n in ran ==> n in tasks
      ensures forall n :: n !in tasks && n in old(lastRun) ==> n in lastRun && lastRun[n] == old(lastRun)[n]
    {
      ghost var round := Round(tasks, spacings, lastRun, visits);
      idleFor, ran, visited, raised := VisitAll(visits, raiseOnError, round);
      RoundEnds(round, visited);
    }

    // The loop over the tasks.
    method VisitAll(visits: seq<Visit>, raiseOnError: bool, ghost round: Round)
      returns (idleFor: real, ran: seq<Name>, visited: nat, raised: bool)
      requires round == Round(tasks, spacings, lastRun, visits) && round.Good()
      modifies this`lastRun
      ensures visited <= |tasks|
      ensures lastRun == round.LastRuns(visited) && ran == round.Ran(visited) && idleFor == round.Wait(visited)
      ensures if raised then raiseOnError && 0 < visited && visits[visited - 1].fails && round.DueAt(visited - 1)
              else visited == |tasks|
    {
      idleFor, ran, visited, raised := DEFAULT_INTERVAL, [], 0, false;
      for i := 0 to |tasks|
        invariant visited == i && !raised
        invariant lastRun == round.LastRuns(i) && ran == round.Ran(i) && idleFor == round.Wait(i)
      {
        round.NotYetVisited(i);
        var name, v := tasks[i], visits[i];
        var spacing, last := spacings[name], lastRun[name];
        visited := i + 1;
        idleFor := MinReal(idleFor, spacing);
        if last.Some? {
          var delta := last.value + spacing - v.check;
          if delta > 0.0 {
            idleFor := MinReal(idleFor, delta);
            assert lastRun[name := last] == lastRun;
            continue;
          }
        }
        lastRun := lastRun[name := Some(NearestBoundary(last, spacing, v.boundary, v.draw))];
        ran := ran + [name];
        if v.fails && raiseOnError {
          raised := true;
          return;
        }
      }
    }
  }

  lemma RoundEnds(round: Round, i: nat)
    requires round.Good() && i <= |round.tasks|
    ensures var lastRun, ran, idle, tasks := round.LastRuns(i), round.Ran(i), round.Wait(i), round.tasks;
            && lastRun.Keys == round.start.Keys && 0.0 < idle <= 60.0
            && (idle == 60.0 || exists j ::
                  (0 <= j < i
                   && Bounds(idle, round.start[tasks[j]], tasks[j] in ran, round.spacings[tasks[j]], round.visits[j])))
            && (forall j :: 0 <= j < i ==>
                  && (tasks[j] in ran <==> round.DueAt(j))
                  && Served(round.start[tasks[j]], lastRun[tasks[j]], tasks[j] in ran, idle,
                            round.spacings[tasks[j]], round.visits[j]))
            && (forall j :: i <= j < |tasks| ==> lastRun[tasks[j]] == round.start[tasks[j]] && tasks[j] !in ran)
            && Distinct(ran) && (forall n :: n in ran ==> n in tasks)
            && (forall n :: n !in tasks && n in round.start ==> lastRun[n] == round.start[n])
  {
    round.LastRunsFacts(i);
    round.RanFacts(i);
    round.WaitFacts(i);
    forall j | i <= j < |round.tasks| ensures round.tasks[j] !in round.tasks[..i] {
    }
  }
}
