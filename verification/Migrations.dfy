/** Online data migrations in batches (iotronic/cmd/dbsync.py).

    Each migration function is known by the number of rows it has left. Called with a limit n >= 1
    it migrates min(remaining, n) rows; a limit of 0 would mean all of them. */
module Migrations {
  import opened Collections

  function Total(remaining: seq<nat>): nat {
    if remaining == [] then 0 else remaining[0] + Total(remaining[1..])
  }

  // One migration function, by the contract its documentation gives.
  function MigratedBy(rows: nat, limit: nat): nat {
    if limit == 0 then rows else Min(rows, limit)
  }

  function Migrated(remaining: seq<nat>, i: nat, limit: nat): (r: seq<nat>)
    requires i < |remaining|
    ensures |r| == |remaining|
  {
    remaining[i := remaining[i] - Min(remaining[i], limit)]
  }

  // Rows left after a budget is spent on the functions in order.
  function Spend(remaining: seq<nat>, budget: nat): (r: seq<nat>)
    ensures |r| == |remaining|
  {
    if remaining == [] then []
    else
      var n := Min(remaining[0], budget);
      [remaining[0] - n] + Spend(remaining[1..], budget - n)
  }

  // Spending is conservative and greedy: exactly the budget goes, or everything; and a function
  // is touched only when all before it are finished.
  lemma {:induction false} SpendLaw(remaining: seq<nat>, budget: nat)
    ensures Total(Spend(remaining, budget)) == Total(remaining) - Min(Total(remaining), budget)
    ensures forall i :: 0 <= i < |remaining| ==> Spend(remaining, budget)[i] <= remaining[i]
    ensures forall i, j :: 0 <= i < j < |remaining| && Spend(remaining, budget)[j] < remaining[j] ==>
              Spend(remaining, budget)[i] == 0
  {
    if remaining != [] {
      var n := Min(remaining[0], budget);
      SpendLaw(remaining[1..], budget - n);
      var after := Spend(remaining, budget);
      assert after[1..] == Spend(remaining[1..], budget - n);
      forall j | 0 < j < |remaining| ensures after[j] == after[1..][j - 1] && remaining[j] == remaining[1..][j - 1] {
      }
      if budget == n {
        SpendNothing(remaining[1..]);
      }
    }
  }

  lemma SpendTotal(remaining: seq<nat>, budget: nat)
    ensures Total(Spend(remaining, budget)) == Total(remaining) - Min(Total(remaining), budget)
  {
    SpendLaw(remaining, budget);
  }

  lemma {:induction false} SpendNothing(remaining: seq<nat>)
    ensures Spend(remaining, 0) == remaining
  {
    if remaining != [] {
      SpendNothing(remaining[1..]);
      assert remaining == [remaining[0]] + remaining[1..];
    }
  }

  lemma {:induction false} TotalZero(remaining: seq<nat>)
    ensures Total(remaining) == 0 <==> forall i :: 0 <= i < |remaining| ==> remaining[i] == 0
  {
    if remaining != [] {
      TotalZero(remaining[1..]);
      assert forall i :: 0 < i < |remaining| ==> remaining[i] == remaining[1..][i - 1];
    }
  }

  // Rows left when the first i functions are finished and the others untouched.
  function Cleared(was: seq<nat>, i: nat): (r: seq<nat>)
    requires i <= |was|
    ensures |r| == |was|
  {
    if i == 0 then was else [0] + Cleared(was[1..], i - 1)
  }

  // Rows the first i functions had between them.
  function SumTo(was: seq<nat>, i: nat): nat
    requires i <= |was|
  {
    if i == 0 then 0 else was[0] + SumTo(was[1..], i - 1)
  }

  lemma ConsUpdate(rest: seq<nat>, i: nat, n: nat)
    requires 0 < i <= |rest|
    ensures ([0] + rest)[i] == rest[i - 1] && ([0] + rest)[i := n] == [0] + rest[i - 1 := n]
  {
  }

  lemma {:induction false} ClearNext(was: seq<nat>, i: nat)
    requires i < |was|
    ensures Cleared(was, i)[i] == was[i]
    ensures Cleared(was, i)[i := 0] == Cleared(was, i + 1)
    ensures SumTo(was, i + 1) == SumTo(was, i) + was[i]
  {
    if i == 0 {
      assert was[0 := 0] == [0] + was[1..];
    } else {
      ClearNext(was[1..], i - 1);
      ConsUpdate(Cleared(was[1..], i - 1), i, 0);
    }
  }

  // The budget runs out in the function at i.
  lemma {:induction false} SpendStops(was: seq<nat>, i: nat, budget: nat)
    requires i < |was| && SumTo(was, i) <= budget <= SumTo(was, i) + was[i]
    ensures budget <= Total(was)
    ensures Spend(was, budget) == Cleared(was, i)[i := was[i] - (budget - SumTo(was, i))]
  {
    if i == 0 {
      SpendNothing(was[1..]);
    } else {
      SpendStops(was[1..], i - 1, budget - was[0]);
      ConsUpdate(Cleared(was[1..], i - 1), i, was[i] - (budget - SumTo(was, i)));
    }
  }

  // The budget lasts.
  lemma {:induction false} SpendAll(was: seq<nat>, budget: nat)
    requires SumTo(was, |was|) <= budget
    ensures SumTo(was, |was|) == Total(was) && Cleared(was, |was|) == Spend(was, budget)
  {
    if was != [] {
      SpendAll(was[1..], budget - was[0]);
    }
  }

  // One turn of the loop: the budget lasts beyond the function at i or is spent in it.
  lemma TurnOutcome(was: seq<nat>, i: nat, budget: nat)
    requires i < |was| && SumTo(was, i) < budget
    ensures var now, left := Cleared(was, i), budget - SumTo(was, i);
            && now[i] == was[i]
            && (was[i] < left ==>
                  Migrated(now, i, left) == Cleared(was, i + 1) && SumTo(was, i + 1) == SumTo(was, i) + was[i])
            && (was[i] >= left ==> Migrated(now, i, left) == Spend(was, budget) && budget <= Total(was))
  {
    ClearNext(was, i);
    if was[i] >= budget - SumTo(was, i) {
      SpendStops(was, i, budget);
    }
  }

  class Command {
    var remaining: seq<nat>    // rows left for each entry of ONLINE_MIGRATIONS

    // A call of one migration function. It is never called with the limit 0.
    method Migrate(i: nat, limit: nat) returns (migrated: nat)
      requires i < |remaining| && limit >= 1
      modifies this
      ensures migrated == Min(old(remaining)[i], limit)
      ensures remaining == Migrated(old(remaining), i, limit)
    {
      migrated := MigratedBy(remaining[i], limit);
      remaining := remaining[i := remaining[i] - migrated];
    }

    method RunMigrationFunctions(maxCount: nat) returns (finished: bool)
      requires maxCount >= 1
      modifies this
      ensures remaining == Spend(old(remaining), maxCount)
      ensures Total(remaining) == Total(old(remaining)) - Min(Total(old(remaining)), maxCount)
      ensures finished <==> Total(old(remaining)) < maxCount
      ensures finished ==> Total(remaining) == 0
    {
      var totalMigrated: nat := 0;
      ghost var was := remaining;
      var i: nat := 0;
      while i < |remaining|
        invariant i <= |remaining| == |was| && totalMigrated < maxCount
        invariant remaining == Cleared(was, i) && totalMigrated == SumTo(was, i)
        decreases |was| - i
      {
        TurnOutcome(was, i, maxCount);
        var migrated := Migrate(i, maxCount - totalMigrated);
        totalMigrated := totalMigrated + migrated;
        if totalMigrated >= maxCount {
          SpendTotal(was, maxCount);
          return false;
        }
        i := i + 1;
      }
      SpendAll(was, maxCount);
      SpendTotal(was, maxCount);
      finished := true;
    }

    // Exit status of the command: 0 complete, 1 to be run again, 127 refused.
    method RunOnlineDataMigrations(maxCount: Option<int>) returns (exit: int, ghost batches: nat)
      modifies this
      ensures |remaining| == |old(remaining)|
      ensures maxCount.None? ==> exit == 0 && (forall i :: 0 <= i < |remaining| ==> remaining[i] == 0)
                                 && 50 * (batches - 1) <= Total(old(remaining)) < 50 * batches
      ensures maxCount.Some? && maxCount.value < 1 ==> exit == 127 && remaining == old(remaining)
      ensures maxCount.Some? && maxCount.value >= 1 ==>
                && remaining == Spend(old(remaining), maxCount.value)
                && exit == (if Total(old(remaining)) < maxCount.value then 0 else 1)
                && (exit == 0 ==> forall i :: 0 <= i < |remaining| ==> remaining[i] == 0)
    {
      batches := 0;
      var finished := false;
      if maxCount.None? {
        while !finished
          invariant |remaining| == |old(remaining)|
          invariant finished ==> Total(remaining) == 0
          invariant if finished then batches >= 1 && 50 * (batches - 1) <= Total(old(remaining)) < 50 * batches
                    else Total(old(remaining)) == Total(remaining) + 50 * batches
          decreases !finished, Total(remaining)
        {
          finished := RunMigrationFunctions(50);
          batches := batches + 1;
        }
        TotalZero(remaining);
        return 0, batches;
      }
      if maxCount.value < 1 {
        return 127, batches;
      }
      finished := RunMigrationFunctions(maxCount.value);
      TotalZero(remaining);
      exit := if finished then 0 else 1;
    }
  }
}
