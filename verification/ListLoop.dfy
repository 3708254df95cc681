/** The batching loop of the GraphQL `list` resolver, over one fixed, ordered result set. */
module ListLoop {
  import opened Wrappers

  /** `filter_readable_docs`; the rule engine is an arbitrary predicate. */
  function Filter<T>(p: T -> bool, s: seq<T>): seq<T> {
    if s == [] then [] else if p(s[0]) then [s[0]] + Filter(p, s[1..]) else Filter(p, s[1..])
  }

  function Take<T>(n: nat, s: seq<T>): seq<T> { if n <= |s| then s[..n] else s }

  function Drop<T>(n: nat, s: seq<T>): seq<T> { if n <= |s| then s[n..] else [] }

  /** What the database returns for LIMIT and OFFSET. */
  function Fetch<T>(rows: seq<T>, limit: nat, offset: nat): seq<T> {
    Take(limit, Drop(offset, rows))
  }

  /** `limit.unwrap_or(20).clamp(1, 100)` */
  function RequestedLimit(limit: Option<int>): nat {
    var n := if limit.Some? then limit.value else 20;
    if n < 1 then 1 else if n > 100 then 100 else n
  }

  function RequestedOffset(offset: Option<int>): nat {
    if offset.Some? && offset.value > 0 then offset.value else 0
  }

  /** One row passes or not; with `FilterConcat` this says what filtering does to any rows. */
  lemma FilterOne<T>(p: T -> bool, x: T)
    ensures Filter(p, [x]) == if p(x) then [x] else []
  {
    assert [x][1..] == [];
  }

  lemma {:induction false} FilterConcat<T>(p: T -> bool, a: seq<T>, b: seq<T>)
    ensures Filter(p, a + b) == Filter(p, a) + Filter(p, b)
  {
    if a == [] {
      assert a + b == b;
    } else {
      FilterConcat(p, a[1..], b);
      assert (a + b)[1..] == a[1..] + b;
    }
  }

  /** The readable rows from an offset on. */
  function ReadableFrom<T>(p: T -> bool, rows: seq<T>, offset: nat): seq<T> {
    Filter(p, Drop(offset, rows))
  }

  function RowsLeft<T>(rows: seq<T>, offset: nat): nat {
    if offset <= |rows| then |rows| - offset else 0
  }

  /** One batch splits the readable rows that remain; a short batch is the last. */
  lemma Batch<T>(p: T -> bool, rows: seq<T>, fetch: nat, current: nat)
    requires fetch > 0
    ensures |Fetch(rows, fetch, current)| <= fetch
    ensures |Fetch(rows, fetch, current)| == fetch ==>
              && ReadableFrom(p, rows, current) == Filter(p, Fetch(rows, fetch, current)) + ReadableFrom(p, rows, current + fetch)
              && RowsLeft(rows, current + fetch) < RowsLeft(rows, current)
    ensures |Fetch(rows, fetch, current)| < fetch ==> ReadableFrom(p, rows, current) == Filter(p, Fetch(rows, fetch, current))
  {
    var docs, left := Fetch(rows, fetch, current), Drop(current + fetch, rows);
    assert Drop(current, rows) == docs + left;
    FilterConcat(p, docs, left);
  }

  /** Stopping early never changes the page: what remains can only add beyond the limit. */
  lemma EarlyStop<T>(found: seq<T>, tail: seq<T>, limit: nat)
    requires |found| >= limit || tail == []
    ensures Take(limit, found) == Take(limit, found + tail)
  {
    if tail == [] { assert found + tail == found; }
  }

  /**
   The loop returns the first readable rows after the offset, up to the limit,
   whatever the batch size, and it terminates.  The limit is 20 unless given, and
   between 1 and 100; a missing or negative offset is 0.
   */
  method List<T>(rows: seq<T>, readable: T -> bool, limit: Option<int>, offset: Option<int>, hasCursor: bool)
    returns (page: seq<T>)
    ensures page == Take(RequestedLimit(limit), ReadableFrom(readable, rows, RequestedOffset(offset)))
    ensures var most := match limit { case None => 20 case Some(n) => Max(1, Min(n, 100)) };
            var skipped := match offset { case None => 0 case Some(n) => Max(0, n) };
            var found := Filter(readable, if skipped <= |rows| then rows[skipped..] else []);
            |page| == Min(most, |found|) && page == found[..|page|]
  {
    var requested := RequestedLimit(limit);
    var filtered := Collect(rows, readable, requested, if hasCursor then requested + 1 else requested, RequestedOffset(offset));
    page := Take(requested, filtered);
  }

  /** The loop itself: at least the first `requested` readable rows, or all of them. */
  method Collect<T>(rows: seq<T>, readable: T -> bool, requested: nat, fetchLimit: nat, offset: nat) returns (filtered: seq<T>)
    requires fetchLimit > 0
    ensures Take(requested, filtered) == Take(requested, ReadableFrom(readable, rows, offset))
  {
    filtered := [];
    var current: nat := offset;
    ghost var target := ReadableFrom(readable, rows, offset);
    while |filtered| < requested
      invariant target == filtered + ReadableFrom(readable, rows, current)
      decreases RowsLeft(rows, current)
    {
      var docs := Fetch(rows, fetchLimit, current);
      Batch(readable, rows, fetchLimit, current);
      if docs == [] {
        assert target == filtered + [];
        return;
      }
      filtered := filtered + Filter(readable, docs);
      if |docs| < fetchLimit { return; }
      current := current + |docs|;
    }
    EarlyStop(filtered, ReadableFrom(readable, rows, current), requested);
  }
}
