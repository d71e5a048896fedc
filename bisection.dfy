/**
 * Adaptive date-range bisection (general_query_data_recursive): query a range through an
 * opaque fetcher and, while a page reaches the source's row cap, split the range in two.
 */
module Bisection {
  import opened Wrappers
  import opened Spans

  /** The number of rows at which the search portal may have cut a result page short. */
  const LIMIT_QUERY := 499

  /**
   * A fetcher: for a year, an optional description filter (the `opts` of the program)
   * and a closed day range, the rows the portal exports. The browser work behind it is
   * not modelled; the program never calls it with lo > hi.
   */
  type Fetcher<R> = (int, Option<string>, int, int) -> seq<R>

  /** The rows general_query_data_recursive returns for [start, end]. */
  function Query<R>(get: Fetcher<R>, year: int, filter: Option<string>, start: int, end: int): seq<R>
    decreases end - start
  {
    if start > end then []
    else
      var page := get(year, filter, start, end);
      if |page| < LIMIT_QUERY || start == end then page
      else
        var mid := Mid(start, end);
        if mid >= end then page
        else Query(get, year, filter, start, mid) + Query(get, year, filter, mid + 1, end)
  }

  /** The ranges whose pages Query keeps, left to right: the leaves of its recursion. */
  function Leaves<R>(get: Fetcher<R>, year: int, filter: Option<string>, start: int, end: int): seq<Span>
    decreases end - start
  {
    if start > end then []
    else
      var page := get(year, filter, start, end);
      if |page| < LIMIT_QUERY || start == end then [Span(start, end)]
      else
        var mid := Mid(start, end);
        if mid >= end then [Span(start, end)]
        else Leaves(get, year, filter, start, mid) + Leaves(get, year, filter, mid + 1, end)
  }

  /** The fetched pages of a list of ranges, concatenated in order. */
  function Flatten<R>(get: Fetcher<R>, year: int, filter: Option<string>, ws: seq<Span>): seq<R>
    decreases |ws|
  {
    if ws == [] then [] else get(year, filter, ws[0].lo, ws[0].hi) + Flatten(get, year, filter, ws[1..])
  }

  lemma {:induction false} FlattenAppend<R>(get: Fetcher<R>, year: int, filter: Option<string>, a: seq<Span>, b: seq<Span>)
    ensures Flatten(get, year, filter, a + b) == Flatten(get, year, filter, a) + Flatten(get, year, filter, b)
    decreases |a|
  {
    if a == [] {
      assert a + b == b;
    } else {
      assert (a + b)[1..] == a[1..] + b;
      FlattenAppend(get, year, filter, a[1..], b);
    }
  }

  /**
   * An empty range yields no rows without a query; a page under the cap, or the page of a
   * single day, is returned exactly as fetched, even when that single day reaches the cap.
   */
  lemma AcceptedPage<R>(get: Fetcher<R>, year: int, filter: Option<string>, start: int, end: int)
    ensures start > end ==> Query(get, year, filter, start, end) == []
    ensures start <= end && (|get(year, filter, start, end)| < LIMIT_QUERY || start == end) ==>
      Query(get, year, filter, start, end) == get(year, filter, start, end)
  {
  }

  /** A range that reaches the cap and spans several days is split into two non-empty, strictly shorter halves. */
  lemma SplitShrinks(start: int, end: int)
    requires start < end
    ensures start <= Mid(start, end) < end
    ensures Mid(start, end) - start < end - start && end - (Mid(start, end) + 1) < end - start
  {
  }

  /** The result of Query is the concatenation of the pages of its leaves, in order. */
  lemma {:induction false} QueryIsLeafPages<R>(get: Fetcher<R>, year: int, filter: Option<string>, start: int, end: int)
    ensures Query(get, year, filter, start, end) == Flatten(get, year, filter, Leaves(get, year, filter, start, end))
    decreases end - start
  {
    if start <= end {
      var page := get(year, filter, start, end);
      if |page| >= LIMIT_QUERY && start != end {
        var mid := Mid(start, end);
        var left, right := Leaves(get, year, filter, start, mid), Leaves(get, year, filter, mid + 1, end);
        assert Leaves(get, year, filter, start, end) == left + right;
        assert Query(get, year, filter, start, end) == Query(get, year, filter, start, mid) + Query(get, year, filter, mid + 1, end);
        QueryIsLeafPages(get, year, filter, start, mid);
        QueryIsLeafPages(get, year, filter, mid + 1, end);
        FlattenAppend(get, year, filter, left, right);
      } else {
        var one := [Span(start, end)];
        assert Leaves(get, year, filter, start, end) == one;
        assert Flatten(get, year, filter, one) == page + Flatten(get, year, filter, one[1..]);
      }
    }
  }

  /** The leaves cut [start, end] into disjoint consecutive ranges, left to right, missing no day. */
  lemma {:induction false} LeavesTile<R>(get: Fetcher<R>, year: int, filter: Option<string>, start: int, end: int)
    requires start <= end + 1
    ensures Tiles(Leaves(get, year, filter, start, end), start, end)
    decreases end - start
  {
    if start <= end {
      var page := get(year, filter, start, end);
      if |page| >= LIMIT_QUERY && start != end {
        var mid := Mid(start, end);
        LeavesTile(get, year, filter, start, mid);
        LeavesTile(get, year, filter, mid + 1, end);
        TilesAppend(Leaves(get, year, filter, start, mid), Leaves(get, year, filter, mid + 1, end), start, mid, end);
      } else {
        assert Tiles([Span(start, end)][1..], end + 1, end);
      }
    }
  }

  /**
   * Every leaf was accepted for a reason: its page is under the cap, or it is a single day.
   * The `mid >= end` fallback never produces a leaf.
   */
  lemma {:induction false} LeavesAccepted<R>(get: Fetcher<R>, year: int, filter: Option<string>, start: int, end: int)
    ensures forall k :: 0 <= k < |Leaves(get, year, filter, start, end)| ==>
      var w := Leaves(get, year, filter, start, end)[k];
      |get(year, filter, w.lo, w.hi)| < LIMIT_QUERY || w.lo == w.hi
    decreases end - start
  {
    if start <= end {
      var page := get(year, filter, start, end);
      if |page| >= LIMIT_QUERY && start != end {
        var mid := Mid(start, end);
        LeavesAccepted(get, year, filter, start, mid);
        LeavesAccepted(get, year, filter, mid + 1, end);
      }
    }
  }

  /**
   * An additive fetcher: the page of a range is the page of its first part followed by the
   * page of the rest (a source that lists rows by day and never cuts a page short).
   */
  ghost predicate Additive<R>(get: Fetcher<R>, year: int, filter: Option<string>)
  {
    forall lo, m, hi :: lo < m <= hi ==>
      get(year, filter, lo, hi) == get(year, filter, lo, m - 1) + get(year, filter, m, hi)
  }

  /** With an additive fetcher, the pages of a tiling of [lo, hi] add up to the page of [lo, hi]. */
  lemma {:induction false} FlattenTiles<R>(get: Fetcher<R>, year: int, filter: Option<string>, ws: seq<Span>, lo: int, hi: int)
    requires Additive(get, year, filter)
    requires Tiles(ws, lo, hi) && lo <= hi
    ensures Flatten(get, year, filter, ws) == get(year, filter, lo, hi)
    decreases |ws|
  {
    var rest := ws[1..];
    TilesBounds(rest, ws[0].hi + 1, hi);
    if rest == [] {
      assert ws[0].hi == hi;
    } else {
      FlattenTiles(get, year, filter, rest, ws[0].hi + 1, hi);
      assert get(year, filter, lo, hi) == get(year, filter, lo, ws[0].hi + 1 - 1) + get(year, filter, ws[0].hi + 1, hi);
    }
  }

  /**
   * Completeness: with an additive fetcher, bisection loses and duplicates no row; the
   * result is exactly the page of the whole range, whatever pages reached the cap on the way.
   */
  lemma QueryComplete<R>(get: Fetcher<R>, year: int, filter: Option<string>, start: int, end: int)
    requires Additive(get, year, filter)
    requires start <= end
    ensures Query(get, year, filter, start, end) == get(year, filter, start, end)
  {
    QueryIsLeafPages(get, year, filter, start, end);
    LeavesTile(get, year, filter, start, end);
    FlattenTiles(get, year, filter, Leaves(get, year, filter, start, end), start, end);
  }

  /**
   * Additivity up to order: the rows of a range are the rows of its first part and of the
   * rest, in whatever order the source lists them (oldest first, newest first, or otherwise).
   */
  ghost predicate MultisetAdditive<R>(data: Fetcher<R>, year: int, filter: Option<string>)
  {
    forall lo, m, hi :: lo < m <= hi ==>
      multiset(data(year, filter, lo, hi)) == multiset(data(year, filter, lo, m - 1)) + multiset(data(year, filter, m, hi))
  }

  /**
   * The portal as a cut-off view of the full data: a range holding fewer than LIMIT_QUERY
   * rows is exported whole; any other export has LIMIT_QUERY rows or more, and may be
   * any page of that size, cut short or not.
   */
  ghost predicate CappedBy<R>(get: Fetcher<R>, data: Fetcher<R>, year: int, filter: Option<string>)
  {
    forall lo, hi :: lo <= hi ==>
      if |data(year, filter, lo, hi)| < LIMIT_QUERY then get(year, filter, lo, hi) == data(year, filter, lo, hi)
      else |get(year, filter, lo, hi)| >= LIMIT_QUERY
  }

  /** No single day of [start, end] holds LIMIT_QUERY rows or more. */
  ghost predicate DaysUnderCap<R>(data: Fetcher<R>, year: int, filter: Option<string>, start: int, end: int)
  {
    forall d :: start <= d <= end ==> |data(year, filter, d, d)| < LIMIT_QUERY
  }

  /** With a multiset-additive source, the pages of a tiling of [lo, hi] hold exactly the rows of [lo, hi]. */
  lemma {:induction false} FlattenTilesMultiset<R>(data: Fetcher<R>, year: int, filter: Option<string>, ws: seq<Span>, lo: int, hi: int)
    requires MultisetAdditive(data, year, filter)
    requires Tiles(ws, lo, hi) && lo <= hi
    ensures multiset(Flatten(data, year, filter, ws)) == multiset(data(year, filter, lo, hi))
    decreases |ws|
  {
    var rest := ws[1..];
    TilesBounds(rest, ws[0].hi + 1, hi);
    if rest == [] {
      assert ws[0].hi == hi;
    } else {
      FlattenTilesMultiset(data, year, filter, rest, ws[0].hi + 1, hi);
      assert multiset(data(year, filter, lo, hi))
        == multiset(data(year, filter, lo, ws[0].hi + 1 - 1)) + multiset(data(year, filter, ws[0].hi + 1, hi));
    }
  }

  /** Two fetchers that agree on every range of ws give the same pages for ws. */
  lemma {:induction false} FlattenAgree<R>(get: Fetcher<R>, data: Fetcher<R>, year: int, filter: Option<string>, ws: seq<Span>)
    requires forall k :: 0 <= k < |ws| ==> get(year, filter, ws[k].lo, ws[k].hi) == data(year, filter, ws[k].lo, ws[k].hi)
    ensures Flatten(get, year, filter, ws) == Flatten(data, year, filter, ws)
    decreases |ws|
  {
    if ws != [] {
      assert get(year, filter, ws[0].lo, ws[0].hi) == data(year, filter, ws[0].lo, ws[0].hi);
      forall k | 0 <= k < |ws[1..]|
        ensures get(year, filter, ws[1..][k].lo, ws[1..][k].hi) == data(year, filter, ws[1..][k].lo, ws[1..][k].hi)
      {
        assert ws[1..][k] == ws[k + 1];
      }
      FlattenAgree(get, data, year, filter, ws[1..]);
    }
  }

  /**
   * Against a capped source whose single days stay under the cap, every page bisection
   * keeps is a whole page: the leaves' pages are the full data of the leaves.
   */
  lemma LeafPagesAreData<R>(get: Fetcher<R>, data: Fetcher<R>, year: int, filter: Option<string>, start: int, end: int)
    requires CappedBy(get, data, year, filter)
    requires DaysUnderCap(data, year, filter, start, end)
    requires start <= end
    ensures Flatten(get, year, filter, Leaves(get, year, filter, start, end))
      == Flatten(data, year, filter, Leaves(get, year, filter, start, end))
  {
    var ws := Leaves(get, year, filter, start, end);
    LeavesAccepted(get, year, filter, start, end);
    LeavesTile(get, year, filter, start, end);
    TilesOrdered(ws, start, end);
    forall k | 0 <= k < |ws|
      ensures get(year, filter, ws[k].lo, ws[k].hi) == data(year, filter, ws[k].lo, ws[k].hi)
    {
      var w := ws[k];
      assert start <= w.lo <= w.hi <= end;
      if w.lo == w.hi {
        assert |data(year, filter, w.lo, w.lo)| < LIMIT_QUERY;
      }
    }
    FlattenAgree(get, data, year, filter, ws);
  }

  /**
   * Completeness against a source that cuts pages at the cap: as long as no single day
   * reaches the cap, bisection returns exactly the full data of [start, end].
   */
  lemma CappedQueryComplete<R>(get: Fetcher<R>, data: Fetcher<R>, year: int, filter: Option<string>, start: int, end: int)
    requires CappedBy(get, data, year, filter) && Additive(data, year, filter)
    requires DaysUnderCap(data, year, filter, start, end)
    requires start <= end
    ensures Query(get, year, filter, start, end) == data(year, filter, start, end)
  {
    QueryIsLeafPages(get, year, filter, start, end);
    LeafPagesAreData(get, data, year, filter, start, end);
    LeavesTile(get, year, filter, start, end);
    FlattenTiles(data, year, filter, Leaves(get, year, filter, start, end), start, end);
  }

  /**
   * The same for a source listing each range in any order: bisection returns exactly the
   * rows of [start, end], each as often as the data holds it.
   */
  lemma CappedQueryMultiset<R>(get: Fetcher<R>, data: Fetcher<R>, year: int, filter: Option<string>, start: int, end: int)
    requires CappedBy(get, data, year, filter) && MultisetAdditive(data, year, filter)
    requires DaysUnderCap(data, year, filter, start, end)
    requires start <= end
    ensures multiset(Query(get, year, filter, start, end)) == multiset(data(year, filter, start, end))
  {
    QueryIsLeafPages(get, year, filter, start, end);
    LeafPagesAreData(get, data, year, filter, start, end);
    LeavesTile(get, year, filter, start, end);
    FlattenTilesMultiset(data, year, filter, Leaves(get, year, filter, start, end), start, end);
  }
}
