/** Listing a collection page by page along its next links (iotronic/api/controllers/v1,
    iotronic/db/sqlalchemy/api.py). The table is fixed while the links are followed. */
module Pagination {
  import opened Collections

  // A row of the listed table: its id, unique, and its value in the sort column.
  datatype Row = Row(key: int, id: int)

  // The query orders by the sort column and then by id, both in the same direction.
  predicate Before(asc: bool, a: Row, b: Row) {
    if asc then a.key < b.key || (a.key == b.key && a.id < b.id)
    else b.key < a.key || (a.key == b.key && b.id < a.id)
  }

  predicate Ordered(asc: bool, s: seq<Row>) {
    forall i, j :: 0 <= i < j < |s| ==> Before(asc, s[i], s[j])
  }

  // ---------- The query ----------

  function Insert(asc: bool, s: seq<Row>, x: Row): seq<Row> {
    if s == [] || Before(asc, x, s[0]) then [x] + s else [s[0]] + Insert(asc, s[1..], x)
  }

  // ORDER BY over any enumeration of the selected rows.
  function Sort(asc: bool, rows: seq<Row>): seq<Row> {
    if rows == [] then [] else Insert(asc, Sort(asc, rows[1..]), rows[0])
  }

  function AfterMarker(asc: bool, marker: Option<Row>): Row -> bool {
    r => marker.None? || Before(asc, marker.value, r)
  }

  // Rows strictly after the marker, in order, at most `limit` of them.
  function Page(asc: bool, table: seq<Row>, marker: Option<Row>, limit: nat): seq<Row> {
    Take(Sort(asc, Filter(table, AfterMarker(asc, marker))), limit)
  }

  // None: the request did not give a limit.
  function ValidateLimit(limit: Option<int>, maxLimit: int): Result<int> {
    if limit.None? then Ok(maxLimit)
    else if limit.value <= 0 then Err("Limit must be positive")
    else Ok(Min(maxLimit, limit.value))
  }

  predicate HasNext(page: seq<Row>, limit: int) {
    page != [] && |page| == limit
  }

  // The marker of the next link, if there is one.
  function GetNext(page: seq<Row>, limit: int): Option<Row> {
    if HasNext(page, limit) then Some(page[|page| - 1]) else None
  }

  // ---------- Ordering facts ----------

  lemma {:induction false} InsertOrders(asc: bool, s: seq<Row>, x: Row)
    requires Ordered(asc, s) && forall y :: y in s ==> y.id != x.id
    ensures Ordered(asc, Insert(asc, s, x))
    ensures multiset(Insert(asc, s, x)) == multiset(s) + multiset{x}
  {
    if s != [] && !Before(asc, x, s[0]) {
      InsertOrders(asc, s[1..], x);
      var rest := Insert(asc, s[1..], x);
      assert s == [s[0]] + s[1..];
      forall i | 0 <= i < |rest| ensures Before(asc, s[0], rest[i]) {
        assert rest[i] in multiset(rest);
        assert rest[i] in s[1..] || rest[i] == x;
        assert s[0] in s;
      }
    }
  }

  predicate UniqueIds(rows: seq<Row>) {
    forall i, j :: 0 <= i < j < |rows| ==> rows[i].id != rows[j].id
  }

  lemma {:induction false} SortOrders(asc: bool, rows: seq<Row>)
    requires UniqueIds(rows)
    ensures Ordered(asc, Sort(asc, rows))
    ensures multiset(Sort(asc, rows)) == multiset(rows)
  {
    if rows != [] {
      SortOrders(asc, rows[1..]);
      var rest := Sort(asc, rows[1..]);
      assert rows == [rows[0]] + rows[1..];
      forall y | y in rest ensures y.id != rows[0].id {
        assert y in multiset(rest) && y in rows[1..];
      }
      InsertOrders(asc, rest, rows[0]);
    }
  }

  // An order leaves no choice: two ordered lists of the same rows are the same list.
  lemma {:induction false} OrderedUnique(asc: bool, s: seq<Row>, t: seq<Row>)
    requires Ordered(asc, s) && Ordered(asc, t) && multiset(s) == multiset(t)
    ensures s == t
  {
    assert |s| == |multiset(s)| == |multiset(t)| == |t|;
    if s != [] {
      SameHead(asc, s, t);
      TailRows(s);
      TailRows(t);
      OrderedUnique(asc, s[1..], t[1..]);
    }
  }

  lemma TailRows(s: seq<Row>)
    requires s != []
    ensures s == [s[0]] + s[1..] && multiset(s[1..]) == multiset(s) - multiset{s[0]}
  {
    assert s == [s[0]] + s[1..];
  }

  lemma SameHead(asc: bool, s: seq<Row>, t: seq<Row>)
    requires s != [] && t != [] && Ordered(asc, s) && Ordered(asc, t) && multiset(s) == multiset(t)
    ensures s[0] == t[0]
  {
    assert s[0] in multiset(t) && t[0] in multiset(s);
    var i :| 0 <= i < |t| && t[i] == s[0];
    var j :| 0 <= j < |s| && s[j] == t[0];
    assert i > 0 ==> Before(asc, t[0], t[i]);
    assert j > 0 ==> Before(asc, s[0], s[j]);
  }

  lemma FilterMultiset(s: seq<Row>, t: seq<Row>, keep: Row -> bool)
    requires multiset(s) == multiset(t)
    ensures multiset(Filter(s, keep)) == multiset(Filter(t, keep))
  {
    forall x ensures multiset(Filter(s, keep))[x] == multiset(Filter(t, keep))[x] {
      FilterCount(s, keep, x);
      FilterCount(t, keep, x);
    }
  }

  lemma {:induction false} FilterCount(s: seq<Row>, keep: Row -> bool, x: Row)
    ensures multiset(Filter(s, keep))[x] == if keep(x) then multiset(s)[x] else 0
  {
    if s != [] {
      FilterCount(s[..|s| - 1], keep, x);
      assert s == s[..|s| - 1] + [s[|s| - 1]];
    }
  }

  lemma {:induction false} FilterOrdered(asc: bool, s: seq<Row>, keep: Row -> bool)
    requires Ordered(asc, s)
    ensures Ordered(asc, Filter(s, keep))
  {
    if s != [] {
      var front := s[..|s| - 1];
      FilterOrdered(asc, front, keep);
      FilterMembers(front, keep);
      var kept := Filter(front, keep);
      forall i | 0 <= i < |kept| ensures Before(asc, kept[i], s[|s| - 1]) {
        assert kept[i] in kept;
        assert kept[i] in front;
      }
    }
  }

  // A page is the stretch of the whole ordered listing that starts after the marker.
  lemma PageIsSlice(asc: bool, table: seq<Row>, at: nat, limit: nat)
    requires UniqueIds(table) && at <= |Sort(asc, table)|
    ensures var all := Sort(asc, table);
            var marker := if at == 0 then None else Some(all[at - 1]);
            Page(asc, table, marker, limit) == Take(all[at..], limit)
  {
    var all := Sort(asc, table);
    var marker := if at == 0 then None else Some(all[at - 1]);
    var keep := AfterMarker(asc, marker);
    SortOrders(asc, table);
    UniqueIdsFilter(table, keep);
    SortOrders(asc, Filter(table, keep));
    FilterMultiset(all, table, keep);
    FilterOrdered(asc, all, keep);
    OrderedUnique(asc, Sort(asc, Filter(table, keep)), Filter(all, keep));
    MarkerSplits(asc, all, at);
  }

  lemma MarkerSplits(asc: bool, all: seq<Row>, at: nat)
    requires Ordered(asc, all) && at <= |all|
    ensures Filter(all, AfterMarker(asc, if at == 0 then None else Some(all[at - 1]))) == all[at..]
  {
    var marker := if at == 0 then None else Some(all[at - 1]);
    var low, high := all[..at], all[at..];
    assert all == low + high;
    forall i | 0 <= i < |low| ensures !AfterMarker(asc, marker)(low[i]) {
      assert low[i] == all[i] && (i == at - 1 || Before(asc, all[i], all[at - 1]));
    }
    forall i | 0 <= i < |high| ensures AfterMarker(asc, marker)(high[i]) {
      assert high[i] == all[at + i] && (at == 0 || Before(asc, all[at - 1], all[at + i]));
    }
    FilterSplit(low, high, AfterMarker(asc, marker));
  }

  lemma FilterSplit(low: seq<Row>, high: seq<Row>, keep: Row -> bool)
    requires forall i :: 0 <= i < |low| ==> !keep(low[i])
    requires forall i :: 0 <= i < |high| ==> keep(high[i])
    ensures Filter(low + high, keep) == high
  {
    FilterAppend(low, high, keep);
    FilterNone(low, keep);
    FilterAll(high, keep);
  }

  lemma {:induction false} UniqueIdsFilter(rows: seq<Row>, keep: Row -> bool)
    requires UniqueIds(rows)
    ensures UniqueIds(Filter(rows, keep))
  {
    if rows != [] {
      var front := rows[..|rows| - 1];
      UniqueIdsFilter(front, keep);
      FilterMembers(front, keep);
      var kept := Filter(front, keep);
      assert forall i :: 0 <= i < |kept| ==> kept[i] in kept && kept[i] in front;
    }
  }

  // ---------- Following the links ----------

  // The pages a client sees from the first request on, until a page carries no next link:
  // together every row exactly once, in order, in floor(rows / limit) + 1 pages.
  method FollowLinks(asc: bool, table: seq<Row>, requested: Option<int>, maxLimit: int)
    returns (pages: Result<seq<seq<Row>>>)
    requires UniqueIds(table) && maxLimit > 0
    ensures pages.Err? <==> requested.Some? && requested.value <= 0
    ensures pages.Ok? ==>
              var limit := if requested.None? || requested.value > maxLimit then maxLimit else requested.value;
              && Flatten(pages.value) == Sort(asc, table)
              && (|pages.value| - 1) * limit <= |table| < |pages.value| * limit
              && forall i :: 0 <= i < |pages.value| - 1 ==> |pages.value[i]| == limit
  {
    var validated := ValidateLimit(requested, maxLimit);
    if validated.Err? {
      return Err(validated.reason);
    }
    SortOrders(asc, table);
    assert |Sort(asc, table)| == |multiset(Sort(asc, table))| == |multiset(table)| == |table|;
    var seen := FollowFrom(asc, table, validated.value, Sort(asc, table));
    pages := Ok(seen);
  }

  method FollowFrom(asc: bool, table: seq<Row>, limit: int, ghost all: seq<Row>) returns (seen: seq<seq<Row>>)
    requires UniqueIds(table) && limit > 0 && all == Sort(asc, table)
    ensures Flatten(seen) == all && (|seen| - 1) * limit <= |all| < |seen| * limit
    ensures forall i :: 0 <= i < |seen| - 1 ==> |seen[i]| == limit
  {
    seen := [];
    var marker: Option<Row> := None;
    ghost var at: nat := 0;
    while true
      invariant at == |seen| * limit && at <= |all|
      invariant marker == if at == 0 then None else Some(all[at - 1])
      invariant Flatten(seen) == all[..at]
      invariant forall i :: 0 <= i < |seen| ==> |seen[i]| == limit
      decreases |all| - at
    {
      var page := FetchPage(asc, table, marker, limit, all, at);
      FlattenSnoc(seen, page, all, at);
      OneMore(|seen|, limit);
      marker := GetNext(page, limit);
      seen := seen + [page];
      if marker.None? {
        assert all[..at + |page|] == all;
        return;
      }
      at := at + limit;
    }
  }

  lemma OneMore(k: int, limit: int)
    ensures (k + 1) * limit == k * limit + limit
  {
  }

  // One request, for the rows after position `at` of the whole listing.
  method FetchPage(asc: bool, table: seq<Row>, marker: Option<Row>, limit: int, ghost all: seq<Row>, ghost at: nat)
    returns (page: seq<Row>)
    requires UniqueIds(table) && limit > 0 && all == Sort(asc, table) && at <= |all|
    requires marker == if at == 0 then None else Some(all[at - 1])
    ensures page == all[at..Min(at + limit, |all|)]
  {
    PageIsSlice(asc, table, at, limit);
    page := Page(asc, table, marker, limit);
  }

  lemma FlattenSnoc(seen: seq<seq<Row>>, page: seq<Row>, all: seq<Row>, at: nat)
    requires at + |page| <= |all| && Flatten(seen) == all[..at] && page == all[at..at + |page|]
    ensures Flatten(seen + [page]) == all[..at + |page|]
  {
    assert (seen + [page])[..|seen|] == seen;
    assert all[..at + |page|] == all[..at] + page;
  }

  function Flatten(pages: seq<seq<Row>>): seq<Row> {
    if pages == [] then [] else Flatten(pages[..|pages| - 1]) + pages[|pages| - 1]
  }

  // The listing itself: every row once, in order.
  lemma ListingIsComplete(asc: bool, table: seq<Row>)
    requires UniqueIds(table)
    ensures multiset(Sort(asc, table)) == multiset(table)
    ensures var all := Sort(asc, table);
            forall i, j :: 0 <= i < j < |all| ==>
              if all[i].key == all[j].key then (if asc then all[i].id < all[j].id else all[i].id > all[j].id)
              else (if asc then all[i].key < all[j].key else all[i].key > all[j].key)
  {
    SortOrders(asc, table);
    var all := Sort(asc, table);
    forall i, j | 0 <= i < j < |all|
      ensures if all[i].key == all[j].key then (if asc then all[i].id < all[j].id else all[i].id > all[j].id)
              else (if asc then all[i].key < all[j].key else all[i].key > all[j].key)
    {
      assert Before(asc, all[i], all[j]);
    }
  }

  // The pages themselves, put together, are the table's rows in their order.
  lemma {:induction false} FlattenPosition(pages: seq<seq<Row>>, limit: nat, p: nat, k: nat)
    requires p < |pages| && k < |pages[p]| && forall i :: 0 <= i < |pages| - 1 ==> |pages[i]| == limit
    ensures p * limit + k < |Flatten(pages)| && Flatten(pages)[p * limit + k] == pages[p][k]
  {
    var front := pages[..|pages| - 1];
    FlattenLength(front, limit);
    if p < |front| {
      FlattenPosition(front, limit, p, k);
    }
  }

  lemma {:induction false} FlattenLength(pages: seq<seq<Row>>, limit: nat)
    requires forall i :: 0 <= i < |pages| ==> |pages[i]| == limit
    ensures |Flatten(pages)| == |pages| * limit
  {
    if pages != [] {
      FlattenLength(pages[..|pages| - 1], limit);
      OneMore(|pages| - 1, limit);
    }
  }
}
