/**
 Cursor pagination: the rows that `build_select_ext` selects, and what a client
 gets that pages with `startAfter` = the last id of the previous page.
 */
module CursorPaging {
  import opened Wrappers
  import opened ListLoop

  /** Ids and field values are numbered by their rank in the database's order; a missing field is null. */
  datatype Row = Row(id: int, fields: map<string, int>)

  datatype Query = Query(matches: Row -> bool, orderBy: string, descending: bool)

  /** `sql_field_expr`: the id column or a document field. */
  function KeyOf(q: Query, row: Row): Option<int> {
    if q.orderBy == "id" then Some(row.id)
    else if q.orderBy in row.fields then Some(row.fields[q.orderBy])
    else None
  }

  /** The position used by ORDER BY: nulls last ascending, first descending. */
  predicate Leq(q: Query, a: Row, b: Row) {
    var x, y := KeyOf(q, a), KeyOf(q, b);
    if !q.descending then y.None? || (x.Some? && x.value <= y.value)
    else x.None? || (y.Some? && x.value >= y.value)
  }

  /** Strictly after; comparing with null is never true. */
  predicate Beyond(q: Query, x: Option<int>, cursor: Option<int>) {
    x.Some? && cursor.Some? && (if q.descending then x.value < cursor.value else x.value > cursor.value)
  }

  /** `(SELECT key FROM collection WHERE id = cursor)`: null when there is no such row. */
  function CursorKey(q: Query, table: seq<Row>, cursor: int): Option<int> {
    if q.orderBy == "id" then Some(cursor)
    else if table == [] then None
    else if table[0].id == cursor then KeyOf(q, table[0])
    else CursorKey(q, table[1..], cursor)
  }

  predicate AfterCursor(q: Query, table: seq<Row>, startAfter: Option<int>, row: Row) {
    startAfter.None? || Beyond(q, KeyOf(q, row), CursorKey(q, table, startAfter.value))
  }

  function Insert(q: Query, x: Row, s: seq<Row>): seq<Row> {
    if s == [] || Leq(q, x, s[0]) then [x] + s else [s[0]] + Insert(q, x, s[1..])
  }

  function Sort(q: Query, s: seq<Row>): seq<Row> {
    if s == [] then [] else Insert(q, s[0], Sort(q, s[1..]))
  }

  /** The rows of the SELECT, before LIMIT and OFFSET. */
  function Select(q: Query, table: seq<Row>, startAfter: Option<int>): seq<Row> {
    Sort(q, Filter((row: Row) => q.matches(row) && AfterCursor(q, table, startAfter, row), table))
  }

  // ----- sorting and filtering -----

  ghost predicate Sorted(q: Query, s: seq<Row>) {
    forall i, j | 0 <= i < j < |s| :: Leq(q, s[i], s[j])
  }

  lemma {:induction false} InsertSorted(q: Query, x: Row, s: seq<Row>)
    requires Sorted(q, s)
    ensures Sorted(q, Insert(q, x, s))
    ensures forall y :: y in Insert(q, x, s) <==> y == x || y in s
  {
    if s != [] && !Leq(q, x, s[0]) {
      InsertSorted(q, x, s[1..]);
      assert s == [s[0]] + s[1..];
      var r := Insert(q, x, s[1..]);
      forall j | 0 <= j < |r|
        ensures Leq(q, s[0], r[j])
      {
        assert r[j] in r;
      }
    }
  }

  lemma {:induction false} SortSorted(q: Query, s: seq<Row>)
    ensures Sorted(q, Sort(q, s))
    ensures forall y :: y in Sort(q, s) <==> y in s
  {
    if s != [] {
      SortSorted(q, s[1..]);
      InsertSorted(q, s[0], Sort(q, s[1..]));
      assert s == [s[0]] + s[1..];
    }
  }

  lemma {:induction false} InsertAdds(q: Query, x: Row, s: seq<Row>)
    ensures multiset(Insert(q, x, s)) == multiset(s) + multiset{x}
  {
    if s != [] && !Leq(q, x, s[0]) {
      InsertAdds(q, x, s[1..]);
      assert s == [s[0]] + s[1..];
    }
  }

  /** Sorting keeps every row as often as it was there. */
  lemma {:induction false} SortPermutes(q: Query, s: seq<Row>)
    ensures multiset(Sort(q, s)) == multiset(s)
  {
    if s != [] {
      SortPermutes(q, s[1..]);
      InsertAdds(q, s[0], Sort(q, s[1..]));
      assert s == [s[0]] + s[1..];
    }
  }

  lemma {:induction false} FilterMembers<T>(p: T -> bool, s: seq<T>)
    ensures forall y :: y in Filter(p, s) <==> y in s && p(y)
  {
    if s != [] {
      FilterMembers(p, s[1..]);
      assert s == [s[0]] + s[1..];
    }
  }

  /** Filtering a sorted list after an insertion, or inserting after filtering. */
  lemma {:induction false} FilterInsert(q: Query, p: Row -> bool, x: Row, s: seq<Row>)
    requires Sorted(q, s)
    ensures Filter(p, Insert(q, x, s)) == if p(x) then Insert(q, x, Filter(p, s)) else Filter(p, s)
  {
    if s == [] {
      assert Insert(q, x, s) == [x];
      assert [x][1..] == [];
    } else if Leq(q, x, s[0]) {
      assert ([x] + s)[1..] == s;
      FilterMembers(p, s);
      var f := Filter(p, s);
      if f != [] {
        assert f[0] in s;
        assert Leq(q, s[0], f[0]);
      }
    } else {
      FilterInsert(q, p, x, s[1..]);
      var r := Insert(q, x, s[1..]);
      assert ([s[0]] + r)[1..] == r;
      if p(s[0]) {
        assert Filter(p, s)[1..] == Filter(p, s[1..]);
      }
    }
  }

  lemma {:induction false} FilterSort(q: Query, p: Row -> bool, s: seq<Row>)
    ensures Filter(p, Sort(q, s)) == Sort(q, Filter(p, s))
  {
    if s != [] {
      FilterSort(q, p, s[1..]);
      SortSorted(q, s[1..]);
      FilterInsert(q, p, s[0], Sort(q, s[1..]));
      if p(s[0]) {
        assert Filter(p, s)[1..] == Filter(p, s[1..]);
      }
    }
  }

  lemma {:induction false} FilterTwice<T>(p: T -> bool, r: T -> bool, both: T -> bool, s: seq<T>)
    requires forall x :: both(x) <==> p(x) && r(x)
    ensures Filter(both, s) == Filter(r, Filter(p, s))
  {
    if s != [] {
      FilterTwice(p, r, both, s[1..]);
      if p(s[0]) {
        assert Filter(p, s)[1..] == Filter(p, s[1..]);
      }
    }
  }

  // ----- strictly ordered results -----

  /** Every row has a key, and no two rows share it. */
  ghost predicate DistinctKeys(q: Query, s: seq<Row>) {
    && (forall i | 0 <= i < |s| :: KeyOf(q, s[i]).Some?)
    && (forall i, j | 0 <= i < j < |s| :: KeyOf(q, s[i]) != KeyOf(q, s[j]))
  }

  ghost predicate Strict(q: Query, s: seq<Row>) {
    && (forall i | 0 <= i < |s| :: KeyOf(q, s[i]).Some?)
    && (forall i, j | 0 <= i < j < |s| :: Beyond(q, KeyOf(q, s[j]), KeyOf(q, s[i])))
  }

  lemma {:induction false} InsertStrict(q: Query, x: Row, s: seq<Row>)
    requires Strict(q, s) && KeyOf(q, x).Some? && forall y | y in s :: KeyOf(q, y) != KeyOf(q, x)
    ensures Strict(q, Insert(q, x, s))
    ensures forall y :: y in Insert(q, x, s) <==> y == x || y in s
  {
    if s != [] {
      assert s == [s[0]] + s[1..];
      if !Leq(q, x, s[0]) {
        InsertStrict(q, x, s[1..]);
        var r := Insert(q, x, s[1..]);
        forall j | 0 <= j < |r|
          ensures KeyOf(q, r[j]).Some? && Beyond(q, KeyOf(q, r[j]), KeyOf(q, s[0]))
        {
          assert r[j] in r;
        }
      }
    }
  }

  lemma {:induction false} SortStrict(q: Query, s: seq<Row>)
    requires DistinctKeys(q, s)
    ensures Strict(q, Sort(q, s))
    ensures forall y :: y in Sort(q, s) <==> y in s
  {
    if s != [] {
      SortStrict(q, s[1..]);
      assert s == [s[0]] + s[1..];
      InsertStrict(q, s[0], Sort(q, s[1..]));
    }
  }

  ghost predicate UniqueIds(table: seq<Row>) {
    forall i, j | 0 <= i < j < |table| :: table[i].id != table[j].id
  }

  lemma {:induction false} FilterSame<T>(p: T -> bool, r: T -> bool, s: seq<T>)
    requires forall x :: p(x) == r(x)
    ensures Filter(p, s) == Filter(r, s)
  {
    if s != [] { FilterSame(p, r, s[1..]); }
  }

  lemma {:induction false} CursorRow(q: Query, table: seq<Row>, row: Row)
    requires row in table && UniqueIds(table)
    ensures CursorKey(q, table, row.id) == KeyOf(q, row)
  {
    if q.orderBy != "id" && table[0].id != row.id {
      assert table == [table[0]] + table[1..];
      CursorRow(q, table[1..], row);
    } else if q.orderBy != "id" {
      var k :| 0 <= k < |table| && table[k] == row;
    }
  }

  /** All matching rows, in order. */
  function Matching(q: Query, table: seq<Row>): seq<Row> {
    Sort(q, Filter(q.matches, table))
  }

  lemma FirstPageRows(q: Query, table: seq<Row>)
    ensures Select(q, table, None) == Matching(q, table)
  {
    FilterSame((row: Row) => q.matches(row) && AfterCursor(q, table, None, row), q.matches, table);
  }

  /** The rows whose key is strictly beyond that of the row `e`. */
  function Behind(q: Query, e: Row): Row -> bool {
    (row: Row) => Beyond(q, KeyOf(q, row), KeyOf(q, e))
  }

  /** Starting after a row selects, in order, the matching rows whose key is strictly beyond its key. */
  lemma NextPageRows(q: Query, table: seq<Row>, e: Row)
    requires UniqueIds(table) && e in table
    ensures Select(q, table, Some(e.id)) == Filter(Behind(q, e), Matching(q, table))
  {
    var both := (row: Row) => q.matches(row) && AfterCursor(q, table, Some(e.id), row);
    CursorRow(q, table, e);
    FilterTwice(q.matches, Behind(q, e), both, table);
    FilterSort(q, Behind(q, e), Filter(q.matches, table));
  }

  // ----- the order and the cursor in terms of the stored values -----

  /** `a` may come before `b` in ORDER BY: by the id, or by the field with missing values last when ascending and first when descending. */
  ghost predicate MayPrecede(q: Query, a: Row, b: Row) {
    if q.orderBy == "id" then if q.descending then a.id >= b.id else a.id <= b.id
    else if q.descending then q.orderBy in a.fields ==> q.orderBy in b.fields && a.fields[q.orderBy] >= b.fields[q.orderBy]
    else q.orderBy in b.fields ==> q.orderBy in a.fields && a.fields[q.orderBy] <= b.fields[q.orderBy]
  }

  ghost predicate InOrder(q: Query, s: seq<Row>) {
    forall i, j | 0 <= i < j < |s| :: MayPrecede(q, s[i], s[j])
  }

  /** The row's stored value is strictly after that of the row `e`; a missing value never is. */
  ghost predicate StrictlyAfter(q: Query, row: Row, e: Row) {
    if q.orderBy == "id" then if q.descending then row.id < e.id else row.id > e.id
    else && q.orderBy in row.fields && q.orderBy in e.fields
         && if q.descending then row.fields[q.orderBy] < e.fields[q.orderBy] else row.fields[q.orderBy] > e.fields[q.orderBy]
  }

  lemma OrderIsByValue(q: Query, a: Row, b: Row)
    ensures Leq(q, a, b) <==> MayPrecede(q, a, b)
    ensures Behind(q, b)(a) <==> StrictlyAfter(q, a, b)
  {
  }

  lemma SortedIsInOrder(q: Query, s: seq<Row>)
    requires Sorted(q, s)
    ensures InOrder(q, s)
  {
    forall i, j | 0 <= i < j < |s|
      ensures MayPrecede(q, s[i], s[j])
    {
      OrderIsByValue(q, s[i], s[j]);
    }
  }

  /** The first SELECT returns the matching rows, each as often as it is stored, in the order of their values. */
  lemma FirstSelect(q: Query, table: seq<Row>)
    ensures InOrder(q, Select(q, table, None))
    ensures forall row :: multiset(Select(q, table, None))[row] == if q.matches(row) then multiset(table)[row] else 0
  {
    FirstPageRows(q, table);
    SortSorted(q, Filter(q.matches, table));
    SortedIsInOrder(q, Matching(q, table));
    SortPermutes(q, Filter(q.matches, table));
    FilterCounts(q.matches, table);
  }

  lemma {:induction false} FilterCounts<T>(p: T -> bool, s: seq<T>)
    ensures forall x :: multiset(Filter(p, s))[x] == if p(x) then multiset(s)[x] else 0
  {
    if s != [] {
      FilterCounts(p, s[1..]);
      assert s == [s[0]] + s[1..];
    }
  }

  /** Starting after the row `e` returns exactly the matching rows with a value strictly after its value, in order. */
  lemma NextSelect(q: Query, table: seq<Row>, e: Row)
    requires UniqueIds(table) && e in table
    ensures InOrder(q, Select(q, table, Some(e.id)))
    ensures forall row :: row in Select(q, table, Some(e.id)) <==> row in table && q.matches(row) && StrictlyAfter(q, row, e)
  {
    NextPageRows(q, table, e);
    SortSorted(q, Filter(q.matches, table));
    FilterMembers(q.matches, table);
    FilterMembers(Behind(q, e), Matching(q, table));
    FilterSortedStays(q, Behind(q, e), Matching(q, table));
    SortedIsInOrder(q, Filter(Behind(q, e), Matching(q, table)));
    forall row
      ensures Behind(q, e)(row) <==> StrictlyAfter(q, row, e)
    {
      OrderIsByValue(q, row, e);
    }
  }

  /** Ordered by a field, a cursor that names no row selects nothing; ordered by id, it need not name one. */
  lemma UnknownCursor(q: Query, table: seq<Row>, cursor: int)
    requires forall row | row in table :: row.id != cursor
    ensures q.orderBy != "id" ==> Select(q, table, Some(cursor)) == []
    ensures q.orderBy == "id" ==>
              forall row :: row in Select(q, table, Some(cursor)) <==>
                row in table && q.matches(row) && if q.descending then row.id < cursor else row.id > cursor
  {
    var kept := (row: Row) => q.matches(row) && AfterCursor(q, table, Some(cursor), row);
    FilterMembers(kept, table);
    SortSorted(q, Filter(kept, table));
    if q.orderBy != "id" {
      NoCursorKey(q, table, cursor);
      FilterNone(kept, table);
    }
  }

  lemma {:induction false} NoCursorKey(q: Query, table: seq<Row>, cursor: int)
    requires q.orderBy != "id" && forall row | row in table :: row.id != cursor
    ensures CursorKey(q, table, cursor) == None
  {
    if table != [] {
      assert table == [table[0]] + table[1..];
      NoCursorKey(q, table[1..], cursor);
    }
  }

  // ----- a whole paging session -----

  /**
   What paging by the last id collects of the rows `s` in pages of `n`: a short
   page ends it, and after a full one it goes on with the rows whose key is
   strictly beyond that of the page's last row.
   */
  function Pages(q: Query, s: seq<Row>, n: nat): seq<Row>
    requires n > 0
    decreases |s|
  {
    if |s| < n then s
    else
      FilterDrops(Behind(q, s[n - 1]), s, n - 1);
      s[..n] + Pages(q, Filter(Behind(q, s[n - 1]), s), n)
  }

  lemma {:induction false} FilterDrops<T>(p: T -> bool, s: seq<T>, i: nat)
    requires i < |s| && !p(s[i])
    ensures |Filter(p, s)| < |s|
  {
    FilterShorter(p, s[1..]);
    if i > 0 { FilterDrops(p, s[1..], i - 1); }
  }

  lemma {:induction false} FilterShorter<T>(p: T -> bool, s: seq<T>)
    ensures |Filter(p, s)| <= |s|
  {
    if s != [] { FilterShorter(p, s[1..]); }
  }

  /** Filters commute. */
  lemma FilterSwap<T>(p: T -> bool, r: T -> bool, s: seq<T>)
    ensures Filter(p, Filter(r, s)) == Filter(r, Filter(p, s))
  {
    var both := (x: T) => p(x) && r(x);
    FilterTwice(p, r, both, s);
    FilterTwice(r, p, both, s);
  }

  /** A stronger filter absorbs a weaker one. */
  lemma FilterAbsorbs<T>(p: T -> bool, r: T -> bool, s: seq<T>)
    requires forall x :: p(x) ==> r(x)
    ensures Filter(p, Filter(r, s)) == Filter(p, s)
  {
    var both := (x: T) => r(x) && p(x);
    FilterTwice(r, p, both, s);
    FilterSame(both, p, s);
  }

  function CursorId(last: Option<Row>): Option<int> {
    if last.Some? then Some(last.value.id) else None
  }

  /** The readable rows that the next SELECT can still return. */
  function Remaining(q: Query, table: seq<Row>, readable: Row -> bool, last: Option<Row>): seq<Row> {
    Filter(readable, Select(q, table, CursorId(last)))
  }

  /** The readable rows behind a full page, as the next SELECT and as `Pages` see them. */
  lemma NextRest(q: Query, table: seq<Row>, readable: Row -> bool, last: Option<Row>, e: Row)
    requires UniqueIds(table) && e in table && (last.Some? ==> last.value in table && Behind(q, last.value)(e))
    ensures Remaining(q, table, readable, Some(e)) == Filter(Behind(q, e), Remaining(q, table, readable, last))
  {
    var rows := Matching(q, table);
    NextPageRows(q, table, e);
    if last.None? {
      FirstPageRows(q, table);
      FilterSwap(readable, Behind(q, e), rows);
    } else {
      var prev := Behind(q, last.value);
      NextPageRows(q, table, last.value);
      FilterSwap(readable, Behind(q, e), Filter(prev, rows));
      FilterAbsorbs(Behind(q, e), prev, rows);
    }
  }

  /** A row of a page is in the table and behind the cursor the page was asked with. */
  lemma PageRow(q: Query, table: seq<Row>, readable: Row -> bool, last: Option<Row>, e: Row)
    requires UniqueIds(table) && (last.Some? ==> last.value in table) && e in Remaining(q, table, readable, last)
    ensures e in table && (last.Some? ==> Behind(q, last.value)(e))
  {
    var rows := Matching(q, table);
    FilterMembers(readable, Select(q, table, CursorId(last)));
    FilterMembers(q.matches, table);
    SortSorted(q, Filter(q.matches, table));
    if last.None? {
      FirstPageRows(q, table);
    } else {
      NextPageRows(q, table, last.value);
      FilterMembers(Behind(q, last.value), rows);
    }
  }

  /** A full page is the first page of `Pages`, and its last row is the cursor for the others. */
  lemma FullPage(q: Query, table: seq<Row>, readable: Row -> bool, last: Option<Row>, n: nat)
    requires UniqueIds(table) && (last.Some? ==> last.value in table) && 0 < n <= |Remaining(q, table, readable, last)|
    ensures var rest := Remaining(q, table, readable, last); var e := rest[n - 1];
            && e in table
            && |Remaining(q, table, readable, Some(e))| < |rest|
            && Pages(q, rest, n) == rest[..n] + Pages(q, Remaining(q, table, readable, Some(e)), n)
  {
    var rest := Remaining(q, table, readable, last);
    PageRow(q, table, readable, last, rest[n - 1]);
    NextRest(q, table, readable, last, rest[n - 1]);
    FilterDrops(Behind(q, rest[n - 1]), rest, n - 1);
  }

  /** What the client has, with what it would still get, is the whole session. */
  ghost predicate OnTrack(q: Query, table: seq<Row>, readable: Row -> bool, n: nat, all: seq<Row>, last: Option<Row>) {
    && n > 0 && UniqueIds(table) && (last.Some? ==> last.value in table)
    && all + Pages(q, Remaining(q, table, readable, last), n) == Pages(q, Filter(readable, Matching(q, table)), n)
  }

  lemma OnTrackStart(q: Query, table: seq<Row>, readable: Row -> bool, n: nat)
    requires n > 0 && UniqueIds(table)
    ensures OnTrack(q, table, readable, n, [], None)
  {
    FirstPageRows(q, table);
    assert [] + Pages(q, Remaining(q, table, readable, None), n) == Pages(q, Remaining(q, table, readable, None), n);
  }

  lemma OnTrackNext(q: Query, table: seq<Row>, readable: Row -> bool, n: nat, all: seq<Row>, last: Option<Row>, page: seq<Row>)
    requires OnTrack(q, table, readable, n, all, last) && page == Take(n, Remaining(q, table, readable, last)) && |page| == n
    ensures OnTrack(q, table, readable, n, all + page, Some(page[n - 1]))
    ensures |Remaining(q, table, readable, Some(page[n - 1]))| < |Remaining(q, table, readable, last)|
  {
    FullPage(q, table, readable, last, n);
    var later := Pages(q, Remaining(q, table, readable, Some(page[n - 1])), n);
    assert all + (page + later) == (all + page) + later;
  }

  lemma OnTrackEnd(q: Query, table: seq<Row>, readable: Row -> bool, n: nat, all: seq<Row>, last: Option<Row>, page: seq<Row>)
    requires OnTrack(q, table, readable, n, all, last) && page == Take(n, Remaining(q, table, readable, last)) && |page| < n
    ensures all + page == Pages(q, Filter(readable, Matching(q, table)), n)
  {
    assert Pages(q, Remaining(q, table, readable, last), n) == page;
  }

  /** A client that asks for pages until one comes back short, on any table: it finishes with what `Pages` says. */
  method PageThrough(q: Query, table: seq<Row>, readable: Row -> bool, limit: Option<int>) returns (all: seq<Row>)
    requires UniqueIds(table)
    ensures all == Pages(q, Filter(readable, Matching(q, table)), RequestedLimit(limit))
    ensures InOrder(q, all) && forall row | row in all :: row in table && q.matches(row) && readable(row)
    ensures all == Filter(readable, Matching(q, table)) <==>
            CleanBreaks(q, Filter(readable, Matching(q, table)), RequestedLimit(limit))
    ensures DistinctKeys(q, Filter(q.matches, table)) ==> EachOnceInOrder(q, table, readable, all)
  {
    all := [];
    var n := RequestedLimit(limit);
    var last: Option<Row> := None;
    OnTrackStart(q, table, readable, n);
    while true
      invariant OnTrack(q, table, readable, n, all, last)
      decreases |Remaining(q, table, readable, last)|
    {
      var page := List(Select(q, table, CursorId(last)), readable, limit, None, last.Some?);
      assert page == Take(n, Remaining(q, table, readable, last));
      if |page| < n {
        OnTrackEnd(q, table, readable, n, all, last, page);
        all := all + page;
        SessionInOrder(q, table, readable, n);
        SessionCompleteIff(q, table, readable, n);
        if DistinctKeys(q, Filter(q.matches, table)) { PagingIsComplete(q, table, readable, n); }
        return;
      }
      OnTrackNext(q, table, readable, n, all, last, page);
      all := all + page;
      last := Some(page[n - 1]);
    }
  }

  // ----- when nothing is skipped -----

  /** After each full page, the key of every row still to come is strictly beyond that of the page's last row. */
  ghost predicate CleanBreaks(q: Query, s: seq<Row>, n: nat)
    requires n > 0
    decreases |s|
  {
    |s| <= n || ((forall j | n <= j < |s| :: Behind(q, s[n - 1])(s[j])) && CleanBreaks(q, s[n..], n))
  }

  lemma {:induction false} PagesShorter(q: Query, s: seq<Row>, n: nat)
    requires n > 0 && Sorted(q, s)
    ensures |Pages(q, s, n)| <= |s|
    decreases |s|
  {
    if |s| >= n {
      var rest := Filter(Behind(q, s[n - 1]), s);
      BehindPage(q, s, n);
      FilterDrops(Behind(q, s[n - 1]), s, n - 1);
      FilterSortedStays(q, Behind(q, s[n - 1]), s);
      PagesShorter(q, rest, n);
      FilterShorter(Behind(q, s[n - 1]), s[n..]);
    }
  }

  lemma {:induction false} FilterSortedStays(q: Query, p: Row -> bool, s: seq<Row>)
    requires Sorted(q, s)
    ensures Sorted(q, Filter(p, s))
  {
    if s != [] {
      FilterSortedStays(q, p, s[1..]);
      FilterMembers(p, s[1..]);
      var f := Filter(p, s[1..]);
      forall j | 0 <= j < |f| ensures Leq(q, s[0], f[j]) { assert f[j] in f; }
    }
  }

  lemma {:induction false} FilterNone<T>(p: T -> bool, s: seq<T>)
    requires forall j | 0 <= j < |s| :: !p(s[j])
    ensures Filter(p, s) == []
  {
    if s != [] { FilterNone(p, s[1..]); }
  }

  lemma {:induction false} FilterAll<T>(p: T -> bool, s: seq<T>)
    requires forall j | 0 <= j < |s| :: p(s[j])
    ensures Filter(p, s) == s
  {
    if s != [] { FilterAll(p, s[1..]); }
  }

  /** No row of a page is behind its last row. */
  lemma BehindPage(q: Query, s: seq<Row>, n: nat)
    requires 0 < n <= |s| && Sorted(q, s)
    ensures Filter(Behind(q, s[n - 1]), s) == Filter(Behind(q, s[n - 1]), s[n..])
  {
    var p := Behind(q, s[n - 1]);
    FilterConcat(p, s[..n], s[n..]);
    assert s[..n] + s[n..] == s;
    forall j | 0 <= j < n ensures !p(s[..n][j]) { NotBehind(q, s, j, n - 1); }
    FilterNone(p, s[..n]);
  }

  lemma NotBehind(q: Query, s: seq<Row>, j: nat, k: nat)
    requires Sorted(q, s) && j <= k < |s|
    ensures !Behind(q, s[k])(s[j])
  {
  }

  /** Everything is collected when the rows behind the first page are all of the others, and are collected. */
  lemma FirstPage(q: Query, s: seq<Row>, n: nat)
    requires 0 < n <= |s| && Sorted(q, s)
    ensures var rest := Filter(Behind(q, s[n - 1]), s[n..]);
            |rest| <= |s[n..]| && (Pages(q, s, n) == s <==> Pages(q, rest, n) == s[n..])
  {
    var p := Behind(q, s[n - 1]);
    BehindPage(q, s, n);
    FilterShorter(p, s[n..]);
    var later := Pages(q, Filter(p, s[n..]), n);
    assert (s[..n] + later)[n..] == later && s == s[..n] + s[n..];
  }

  /** The exact condition: paging collects everything if and only if every page boundary is a clean break. */
  lemma {:induction false} CompleteIffCleanBreaks(q: Query, s: seq<Row>, n: nat)
    requires n > 0 && Sorted(q, s)
    ensures Pages(q, s, n) == s <==> CleanBreaks(q, s, n)
    decreases |s|
  {
    if |s| >= n {
      var p := Behind(q, s[n - 1]);
      var rest := Filter(p, s[n..]);
      FirstPage(q, s, n);
      if forall j | n <= j < |s| :: p(s[j]) {
        FilterAll(p, s[n..]);
        CompleteIffCleanBreaks(q, s[n..], n);
      } else {
        var j :| n <= j < |s| && !p(s[j]);
        FilterDrops(p, s[n..], j - n);
        FilterSortedStays(q, p, s[n..]);
        PagesShorter(q, rest, n);
      }
    }
  }

  lemma {:induction false} PagesSorted(q: Query, s: seq<Row>, n: nat)
    requires n > 0 && Sorted(q, s)
    ensures Sorted(q, Pages(q, s, n))
    decreases |s|
  {
    if |s| >= n {
      var p := Behind(q, s[n - 1]);
      FilterDrops(p, s, n - 1);
      FilterSortedStays(q, p, s);
      PagesSorted(q, Filter(p, s), n);
      var later := Pages(q, Filter(p, s), n);
      PagesMembers(q, Filter(p, s), n);
      FilterMembers(p, s);
      forall i, j | 0 <= i < n && 0 <= j < |later|
        ensures Leq(q, s[i], later[j])
      {
        assert later[j] in later;
        BeyondIsLater(q, s, i, n - 1, later[j]);
      }
      JoinSorted(q, s[..n], later);
    }
  }

  lemma BeyondIsLater(q: Query, s: seq<Row>, i: nat, k: nat, row: Row)
    requires Sorted(q, s) && i <= k < |s| && Behind(q, s[k])(row)
    ensures Leq(q, s[i], row)
  {
  }

  lemma JoinSorted(q: Query, a: seq<Row>, b: seq<Row>)
    requires Sorted(q, a) && Sorted(q, b) && forall i, j | 0 <= i < |a| && 0 <= j < |b| :: Leq(q, a[i], b[j])
    ensures Sorted(q, a + b)
  {
  }

  /** Whatever a session skips, it returns readable matching rows only, in the order of their values. */
  lemma SessionInOrder(q: Query, table: seq<Row>, readable: Row -> bool, n: nat)
    requires n > 0
    ensures var all := Pages(q, Filter(readable, Matching(q, table)), n);
            InOrder(q, all) && forall row | row in all :: row in table && q.matches(row) && readable(row)
  {
    SortSorted(q, Filter(q.matches, table));
    FilterSortedStays(q, readable, Matching(q, table));
    PagesSorted(q, Filter(readable, Matching(q, table)), n);
    SortedIsInOrder(q, Pages(q, Filter(readable, Matching(q, table)), n));
    PagesMembers(q, Filter(readable, Matching(q, table)), n);
    FilterMembers(readable, Matching(q, table));
    FilterMembers(q.matches, table);
  }

  /** So a session on any table returns every readable matching row, in order, if and only if the page boundaries are clean breaks. */
  lemma SessionCompleteIff(q: Query, table: seq<Row>, readable: Row -> bool, n: nat)
    requires n > 0
    ensures var rows := Filter(readable, Matching(q, table)); Pages(q, rows, n) == rows <==> CleanBreaks(q, rows, n)
  {
    SortSorted(q, Filter(q.matches, table));
    FilterSortedStays(q, readable, Matching(q, table));
    CompleteIffCleanBreaks(q, Filter(readable, Matching(q, table)), n);
  }

  lemma {:induction false} StrictIsClean(q: Query, s: seq<Row>, n: nat)
    requires n > 0 && Strict(q, s)
    ensures CleanBreaks(q, s, n)
    decreases |s|
  {
    if |s| > n { StrictIsClean(q, s[n..], n); }
  }

  /** In pages of one row, that means a key on every row and no two alike (a single row needs no key). */
  lemma {:induction false} CleanInOnesIsStrict(q: Query, s: seq<Row>)
    ensures CleanBreaks(q, s, 1) <==> |s| <= 1 || Strict(q, s)
    decreases |s|
  {
    if |s| > 1 {
      CleanInOnesIsStrict(q, s[1..]);
      if CleanBreaks(q, s, 1) {
        assert Behind(q, s[0])(s[1]);
        forall i, j | 0 <= i < j < |s| ensures Beyond(q, KeyOf(q, s[j]), KeyOf(q, s[i])) {
          if i == 0 {
            assert Behind(q, s[0])(s[j]);
          } else if |s[1..]| > 1 {
            assert s[1..][i - 1] == s[i] && s[1..][j - 1] == s[j];
          }
        }
        forall i | 0 <= i < |s| ensures KeyOf(q, s[i]).Some? { assert i > 0 ==> Behind(q, s[0])(s[i]); }
      } else if Strict(q, s) {
        StrictIsClean(q, s, 1);
      }
    }
  }

  /** The readable matching rows, strictly in order, so no row comes twice. */
  ghost predicate EachOnceInOrder(q: Query, table: seq<Row>, readable: Row -> bool, all: seq<Row>) {
    && Strict(q, all)
    && forall row :: row in all <==> row in table && q.matches(row) && readable(row)
  }

  /** On rows with distinct keys, for every page size, the session collects the readable matching rows in order, each once. */
  lemma PagingIsComplete(q: Query, table: seq<Row>, readable: Row -> bool, n: nat)
    requires n > 0 && DistinctKeys(q, Filter(q.matches, table))
    ensures Pages(q, Filter(readable, Matching(q, table)), n) == Filter(readable, Matching(q, table))
    ensures EachOnceInOrder(q, table, readable, Filter(readable, Matching(q, table)))
  {
    var s := Filter(readable, Matching(q, table));
    CollectedRows(q, table, readable);
    StrictIsClean(q, s, n);
    StrictIsSorted(q, s);
    CompleteIffCleanBreaks(q, s, n);
  }

  lemma StrictIsSorted(q: Query, s: seq<Row>)
    requires Strict(q, s)
    ensures Sorted(q, s)
  {
    forall i, j | 0 <= i < j < |s| ensures Leq(q, s[i], s[j]) {
      assert Beyond(q, KeyOf(q, s[j]), KeyOf(q, s[i]));
    }
  }

  lemma CollectedRows(q: Query, table: seq<Row>, readable: Row -> bool)
    requires DistinctKeys(q, Filter(q.matches, table))
    ensures Strict(q, Filter(readable, Matching(q, table)))
    ensures forall row :: row in Filter(readable, Matching(q, table)) <==> row in table && q.matches(row) && readable(row)
  {
    SortStrict(q, Filter(q.matches, table));
    FilterStrict(q, readable, Matching(q, table));
    FilterMembers(q.matches, table);
    FilterMembers(readable, Matching(q, table));
  }

  lemma {:induction false} FilterStrict(q: Query, p: Row -> bool, s: seq<Row>)
    requires Strict(q, s)
    ensures Strict(q, Filter(p, s))
  {
    if s != [] {
      FilterStrict(q, p, s[1..]);
      FilterMembers(p, s[1..]);
      var f := Filter(p, s[1..]);
      forall j | 0 <= j < |f|
        ensures Beyond(q, KeyOf(q, f[j]), KeyOf(q, s[0]))
      {
        assert f[j] in f;
      }
    }
  }

  // ----- what is skipped -----

  lemma {:induction false} PagesMembers(q: Query, s: seq<Row>, n: nat)
    requires n > 0
    ensures forall row :: row in Pages(q, s, n) ==> row in s
    decreases |s|
  {
    if |s| >= n {
      FilterDrops(Behind(q, s[n - 1]), s, n - 1);
      FilterMembers(Behind(q, s[n - 1]), s);
      PagesMembers(q, Filter(Behind(q, s[n - 1]), s), n);
    }
  }

  /** Everything returned after a full page is strictly beyond that page's last row ... */
  lemma LaterPagesAreBehind(q: Query, s: seq<Row>, n: nat, row: Row)
    requires 0 < n <= |s| && row in Pages(q, s, n)[n..]
    ensures Behind(q, s[n - 1])(row)
  {
    var rest := Filter(Behind(q, s[n - 1]), s);
    assert Pages(q, s, n)[n..] == Pages(q, rest, n);
    PagesMembers(q, rest, n);
    FilterMembers(Behind(q, s[n - 1]), s);
  }

  /** ... so in pages of one row, of the rows that share a key at most one is ever returned. */
  lemma {:induction false} OneRowPerKey(q: Query, s: seq<Row>, i: nat, j: nat)
    requires i < j < |Pages(q, s, 1)|
    ensures Beyond(q, KeyOf(q, Pages(q, s, 1)[j]), KeyOf(q, Pages(q, s, 1)[i]))
    decreases |s|
  {
    var all, rest := Pages(q, s, 1), Filter(Behind(q, s[0]), s);
    FilterDrops(Behind(q, s[0]), s, 0);
    assert all[1..] == Pages(q, rest, 1);
    if i == 0 {
      assert all[j] == all[1..][j - 1];
      LaterPagesAreBehind(q, s, 1, all[j]);
    } else {
      OneRowPerKey(q, rest, i - 1, j - 1);
    }
  }

  /** Starting after a row drops every row with the same key, and every row without one. */
  lemma TiesAndNullsAreSkipped(q: Query, table: seq<Row>, a: Row, b: Row)
    requires a in table && UniqueIds(table)
    requires KeyOf(q, b) == KeyOf(q, a) || KeyOf(q, b).None?
    ensures b !in Select(q, table, Some(a.id))
  {
    NextPageRows(q, table, a);
    FilterMembers(Behind(q, a), Matching(q, table));
  }

  /** Two readable matching rows with one key: in pages of one row the session does not return both. */
  lemma TiedRowIsLost(q: Query, table: seq<Row>, readable: Row -> bool, a: Row, b: Row)
    requires a != b && KeyOf(q, a) == KeyOf(q, b)
    ensures !(a in Pages(q, Filter(readable, Matching(q, table)), 1) && b in Pages(q, Filter(readable, Matching(q, table)), 1))
  {
    var s := Filter(readable, Matching(q, table));
    var all := Pages(q, s, 1);
    if a in all && b in all {
      var i :| 0 <= i < |all| && all[i] == a;
      var j :| 0 <= j < |all| && all[j] == b;
      if i < j { OneRowPerKey(q, s, i, j); } else { OneRowPerKey(q, s, j, i); }
    }
  }
}
