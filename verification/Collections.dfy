/** Small vocabulary shared by the component models: results, Python list
    operations, and sorted enumerations of integer sets. */
module Collections {

  datatype Option<+T> = None | Some(value: T) {
    function GetOr(default: T): T {
      if None? then default else value
    }
  }

  datatype Result<+T> = Ok(value: T) | Err(reason: string)

  predicate Distinct<T(==)>(s: seq<T>) {
    forall i, j :: 0 <= i < j < |s| ==> s[i] != s[j]
  }

  function Elements<T(==)>(s: seq<T>): set<T> {
    set x | x in s
  }

  lemma ElementsSnoc<T>(s: seq<T>, x: T)
    ensures Elements(s + [x]) == Elements(s) + {x}
    ensures x !in s ==> |Elements(s + [x])| == |Elements(s)| + 1
  {
    assert Elements(s + [x]) == Elements(s) + {x};
  }

  lemma {:induction false} DistinctCount<T>(s: seq<T>)
    requires Distinct(s)
    ensures |Elements(s)| == |s|
  {
    if s != [] {
      var front := s[..|s| - 1];
      DistinctCount(front);
      ElementsSnoc(front, s[|s| - 1]);
      assert s == front + [s[|s| - 1]];
    }
  }

  function Min(a: int, b: int): int {
    if a <= b then a else b
  }

  // The first k elements, or all of them when there are fewer.
  function Take<T>(s: seq<T>, k: int): seq<T> {
    if k <= 0 then [] else if k >= |s| then s else s[..k]
  }

  function Filter<T>(s: seq<T>, keep: T -> bool): seq<T> {
    if s == [] then []
    else
      var last := s[|s| - 1];
      Filter(s[..|s| - 1], keep) + (if keep(last) then [last] else [])
  }

  lemma {:induction false} FilterMembers<T(!new)>(s: seq<T>, keep: T -> bool)
    ensures forall x :: x in Filter(s, keep) <==> x in s && keep(x)
  {
    if s != [] {
      FilterMembers(s[..|s| - 1], keep);
      assert s == s[..|s| - 1] + [s[|s| - 1]];
    }
  }

  lemma {:induction false} FilterAppend<T>(s: seq<T>, t: seq<T>, keep: T -> bool)
    ensures Filter(s + t, keep) == Filter(s, keep) + Filter(t, keep)
  {
    if t == [] {
      assert s + t == s;
    } else {
      FilterAppend(s, t[..|t| - 1], keep);
      assert (s + t)[..|s + t| - 1] == s + t[..|t| - 1];
    }
  }

  lemma FilterSnoc<T>(s: seq<T>, x: T, keep: T -> bool)
    ensures Filter(s + [x], keep) == if keep(x) then Filter(s, keep) + [x] else Filter(s, keep)
  {
    assert (s + [x])[..|s|] == s;
    assert Filter(s, keep) + [] == Filter(s, keep);
  }

  lemma {:induction false} FilterAll<T>(s: seq<T>, keep: T -> bool)
    requires forall i :: 0 <= i < |s| ==> keep(s[i])
    ensures Filter(s, keep) == s
  {
    if s != [] {
      FilterAll(s[..|s| - 1], keep);
    }
  }

  lemma {:induction false} FilterNone<T>(s: seq<T>, keep: T -> bool)
    requires forall i :: 0 <= i < |s| ==> !keep(s[i])
    ensures Filter(s, keep) == []
  {
    if s != [] {
      FilterNone(s[..|s| - 1], keep);
    }
  }

  // Two filters commute.
  lemma {:induction false} FilterCommute<T>(s: seq<T>, f: T -> bool, g: T -> bool)
    ensures Filter(Filter(s, f), g) == Filter(Filter(s, g), f)
  {
    if s != [] {
      var front, last := s[..|s| - 1], s[|s| - 1];
      FilterCommute(front, f, g);
      var fl := if f(last) then [last] else [];
      var gl := if g(last) then [last] else [];
      FilterAppend(Filter(front, f), fl, g);
      FilterAppend(Filter(front, g), gl, f);
      assert Filter<T>([], f) == [] && Filter<T>([], g) == [];
      assert Filter([last], f) == fl && Filter([last], g) == gl by {
        assert [last][..0] == [];
      }
    }
  }

  // ---------- Python's list.remove and list.insert(0, ...) ----------

  // Removes the first occurrence of x; the list is unchanged when there is none.
  function RemoveFirst<T(==)>(s: seq<T>, x: T): seq<T> {
    if s == [] then [] else if s[0] == x then s[1..] else [s[0]] + RemoveFirst(s[1..], x)
  }

  lemma {:induction false} RemoveFirstAbsent<T>(s: seq<T>, x: T)
    requires x !in s
    ensures RemoveFirst(s, x) == s
  {
    if s != [] {
      RemoveFirstAbsent(s[1..], x);
    }
  }

  lemma {:induction false} RemoveFirstDistinct<T>(s: seq<T>, x: T)
    requires Distinct(s)
    ensures Distinct(RemoveFirst(s, x))
    ensures Elements(RemoveFirst(s, x)) == Elements(s) - {x}
  {
    if s != [] {
      assert s == [s[0]] + s[1..];
      if s[0] != x {
        RemoveFirstDistinct(s[1..], x);
        ConsDistinct(s[0], RemoveFirst(s[1..], x), Elements(s[1..]) - {x});
        assert Elements(s) - {x} == {s[0]} + (Elements(s[1..]) - {x});
      } else {
        assert Elements(s[1..]) == Elements(s) - {x};
      }
    }
  }

  lemma ConsDistinct<T>(x: T, rest: seq<T>, elements: set<T>)
    requires Distinct(rest) && Elements(rest) == elements && x !in elements
    ensures Distinct([x] + rest) && Elements([x] + rest) == {x} + elements
  {
    assert forall k :: 0 <= k < |rest| ==> rest[k] in Elements(rest);
  }

  // ---------- Sorted enumeration of a finite set of integers ----------

  predicate Ascending(s: seq<int>) {
    forall i, j :: 0 <= i < j < |s| ==> s[i] < s[j]
  }

  lemma EmptyOrInhabited(s: set<int>)
    ensures s == {} || exists x :: x in s
  {
    if forall x :: x !in s {
      assert s == {};
    }
  }

  lemma FreshInt(used: set<int>)
    ensures exists i :: i !in used
  {
    var top, left := 0, used;
    while left != {}
      invariant left <= used && forall i :: i in used && i !in left ==> i < top
    {
      EmptyOrInhabited(left);
      var i :| i in left;
      left := left - {i};
      if i >= top {
        top := i + 1;
      }
    }
    assert top !in used;
  }

  lemma {:induction false} HasLeast(s: set<int>)
    requires s != {}
    ensures exists m :: m in s && forall y :: y in s ==> m <= y
  {
    EmptyOrInhabited(s);
    var x :| x in s;
    var rest := s - {x};
    if rest == {} {
      assert s == {x};
      assert x in s && forall y :: y in s ==> x <= y;
    } else {
      HasLeast(rest);
      var m :| m in rest && forall y :: y in rest ==> m <= y;
      var k := if x < m then x else m;
      forall y | y in s ensures k <= y {
        assert y == x || y in rest;
      }
      assert k in s && forall y :: y in s ==> k <= y;
    }
  }

  // Python's sorted() on a set of integers.
  function SortedSeq(s: set<int>): seq<int>
    decreases |s|
  {
    if s == {} then []
    else
      HasLeast(s);
      var m :| m in s && forall y :: y in s ==> m <= y;
      [m] + SortedSeq(s - {m})
  }

  lemma {:induction false} SortedSeqFacts(s: set<int>)
    ensures Ascending(SortedSeq(s))
    ensures forall x :: x in SortedSeq(s) <==> x in s
    decreases |s|
  {
    if s != {} {
      HasLeast(s);
      var m :| m in s && forall y :: y in s ==> m <= y;
      SortedSeqFacts(s - {m});
      ConsLeast(m, SortedSeq(s - {m}), s);
    }
  }

  lemma ConsLeast(m: int, rest: seq<int>, s: set<int>)
    requires m in s && forall y :: y in s ==> m <= y
    requires Ascending(rest) && forall x :: x in rest <==> x in s && x != m
    ensures Ascending([m] + rest)
    ensures forall x :: x in [m] + rest <==> x in s
  {
    assert forall i :: 0 <= i < |rest| ==> rest[i] in rest;
  }

  lemma AscendingTail(s: seq<int>)
    requires Ascending(s) && s != []
    ensures Ascending(s[1..])
    ensures forall x :: x in s[1..] <==> x in s && x != s[0]
    ensures forall x :: x in s ==> s[0] <= x
  {
    assert s == [s[0]] + s[1..];
  }

  lemma {:induction false} AscendingUnique(a: seq<int>, b: seq<int>)
    requires Ascending(a) && Ascending(b)
    requires forall x :: x in a <==> x in b
    ensures a == b
  {
    if a == [] {
      assert Elements(b) == {};
      DistinctCount(b);
    } else {
      assert a[0] in a && a[0] in b;
      AscendingTail(a);
      AscendingTail(b);
      assert b[0] in b && b[0] in a;
      AscendingUnique(a[1..], b[1..]);
      assert a == [a[0]] + a[1..] && b == [b[0]] + b[1..];
    }
  }

  lemma {:induction false} FilterAscending(s: seq<int>, keep: int -> bool)
    requires Ascending(s)
    ensures Ascending(Filter(s, keep))
  {
    if s != [] {
      FilterAscending(s[..|s| - 1], keep);
      var front := Filter(s[..|s| - 1], keep);
      FilterMembers(s[..|s| - 1], keep);
      assert forall i :: 0 <= i < |front| ==> front[i] in front;
    }
  }

  // Enumerating a subset picked out by a predicate is filtering the enumeration.
  lemma SortedSeqFilter(s: set<int>, keep: int -> bool)
    ensures SortedSeq(set x | x in s && keep(x)) == Filter(SortedSeq(s), keep)
  {
    SortedSeqFacts(s);
    SortedSeqFacts(set x | x in s && keep(x));
    FilterAscending(SortedSeq(s), keep);
    FilterMembers(SortedSeq(s), keep);
    AscendingUnique(SortedSeq(set x | x in s && keep(x)), Filter(SortedSeq(s), keep));
  }
}
