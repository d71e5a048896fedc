/**
 * The window schedules of query_obras_data and query_vidrios_data: how a year of notices
 * is cut into date windows, each fetched through the bisection, and how the pages are
 * put together.
 */
module Windows {
  import opened Wrappers
  import opened Spans
  import opened Bisection
  import opened Records
  import opened Calendar

  /** Why a run stops without data. */
  datatype QueryError =
    | InvalidYear         // datetime.date(given_year, 1, 1) rejects a year below 1
    | UndefinedTimedelta  // the second half of a long current year names the unimported timedelta

  /** Days added to a window's first day to reach its last: 15-day windows for obras. */
  const OBRAS_OFFSET := 14
  /** Days added to a window's first day to reach its last: 301-day windows for vidrios. */
  const VIDRIOS_OFFSET := 300
  /** A current year longer than this many days is fetched in two halves. */
  const HALVING_THRESHOLD := 300

  /**
   * The windows of the chunk loop over [cur, end]: each starts the day after the previous
   * one ends and reaches offset days further, cut short at end.
   */
  function Chunks(cur: int, end: int, offset: nat): seq<Span>
    decreases end - cur + 1
  {
    if cur > end then []
    else
      var next := if cur + offset > end then end else cur + offset;
      [Span(cur, next)] + Chunks(next + 1, end, offset)
  }

  /** The chunk windows cut [cur, end] into consecutive pieces. */
  lemma {:induction false} ChunksTile(cur: int, end: int, offset: nat)
    requires cur <= end + 1
    ensures Tiles(Chunks(cur, end, offset), cur, end)
    decreases end - cur + 1
  {
    if cur <= end {
      var next := if cur + offset > end then end else cur + offset;
      ChunksTile(next + 1, end, offset);
    }
  }

  /** Every window spans at most offset + 1 days, and all but the last exactly that many. */
  ghost predicate WindowsOfWidth(ws: seq<Span>, offset: nat)
  {
    && (forall k :: 0 <= k < |ws| ==> ws[k].hi - ws[k].lo <= offset)
    && (forall k :: 0 <= k < |ws| - 1 ==> ws[k].hi - ws[k].lo == offset)
  }

  /** The chunk loop makes windows of offset + 1 days, the last one possibly shorter. */
  lemma {:induction false} ChunksWidth(cur: int, end: int, offset: nat)
    ensures WindowsOfWidth(Chunks(cur, end, offset), offset)
    decreases end - cur + 1
  {
    if cur <= end {
      var next := if cur + offset > end then end else cur + offset;
      ChunksWidth(next + 1, end, offset);
      var ws, rest := Chunks(cur, end, offset), Chunks(next + 1, end, offset);
      assert ws == [Span(cur, next)] + rest;
      if rest != [] {
        assert next == cur + offset;
      }
      forall k | 0 < k < |ws| ensures ws[k] == rest[k - 1] {
      }
    }
  }

  /** The rows of every window, each fetched through the bisection, concatenated in window order. */
  function QueryAll<R>(get: Fetcher<R>, year: int, filter: Option<string>, ws: seq<Span>): seq<R>
    decreases |ws|
  {
    if ws == [] then []
    else Query(get, year, filter, ws[0].lo, ws[0].hi) + QueryAll(get, year, filter, ws[1..])
  }

  /** Querying two runs of windows one after the other concatenates their rows. */
  lemma {:induction false} QueryAllAppend<R>(get: Fetcher<R>, year: int, filter: Option<string>, a: seq<Span>, b: seq<Span>)
    ensures QueryAll(get, year, filter, a + b) == QueryAll(get, year, filter, a) + QueryAll(get, year, filter, b)
    decreases |a|
  {
    if a == [] {
      assert a + b == b;
    } else {
      assert (a + b)[1..] == a[1..] + b;
      QueryAllAppend(get, year, filter, a[1..], b);
    }
  }

  /** Two windows give the rows of the first followed by those of the second. */
  lemma QueryAllPair<R>(get: Fetcher<R>, year: int, filter: Option<string>, ws: seq<Span>)
    requires |ws| == 2
    ensures QueryAll(get, year, filter, ws)
      == Query(get, year, filter, ws[0].lo, ws[0].hi) + Query(get, year, filter, ws[1].lo, ws[1].hi)
  {
    assert QueryAll(get, year, filter, ws[1..][1..]) == [];
  }

  /**
   * Windows that cut [lo, hi] into consecutive pieces lose and repeat nothing: with an
   * additive fetcher their rows are exactly the rows of one query over [lo, hi].
   */
  lemma {:induction false} QueryAllComplete<R>(get: Fetcher<R>, year: int, filter: Option<string>, ws: seq<Span>, lo: int, hi: int)
    requires Additive(get, year, filter)
    requires Tiles(ws, lo, hi)
    ensures QueryAll(get, year, filter, ws) == if lo <= hi then get(year, filter, lo, hi) else []
    decreases |ws|
  {
    TilesBounds(ws, lo, hi);
    if ws != [] {
      var w := ws[0];
      QueryComplete(get, year, filter, w.lo, w.hi);
      QueryAllComplete(get, year, filter, ws[1..], w.hi + 1, hi);
      TilesBounds(ws[1..], w.hi + 1, hi);
      if w.hi < hi {
        assert get(year, filter, lo, hi) == get(year, filter, lo, w.hi + 1 - 1) + get(year, filter, w.hi + 1, hi);
      }
    }
  }

  /**
   * The same against the portal as it is: with a source that cuts pages at the cap, lists
   * each range in any order and has no single day at the cap, windows that cut [lo, hi]
   * return exactly the rows of [lo, hi], each as often as the data holds it.
   */
  lemma {:induction false} QueryAllCapped<R>(get: Fetcher<R>, data: Fetcher<R>, year: int, filter: Option<string>, ws: seq<Span>, lo: int, hi: int)
    requires CappedBy(get, data, year, filter) && MultisetAdditive(data, year, filter)
    requires DaysUnderCap(data, year, filter, lo, hi)
    requires Tiles(ws, lo, hi)
    ensures multiset(QueryAll(get, year, filter, ws)) == if lo <= hi then multiset(data(year, filter, lo, hi)) else multiset{}
    decreases |ws|
  {
    TilesBounds(ws, lo, hi);
    if ws != [] {
      var w := ws[0];
      TilesOrdered(ws, lo, hi);
      CappedQueryMultiset(get, data, year, filter, w.lo, w.hi);
      QueryAllCapped(get, data, year, filter, ws[1..], w.hi + 1, hi);
      TilesBounds(ws[1..], w.hi + 1, hi);
      if w.hi < hi {
        assert multiset(data(year, filter, lo, hi))
          == multiset(data(year, filter, lo, w.hi + 1 - 1)) + multiset(data(year, filter, w.hi + 1, hi));
      }
    }
  }

  /** A full year as the program fetches it: January 1 to the midpoint, then the rest. */
  function YearHalves(y: int): seq<Span>
    requires 1 <= y
  {
    YearLength(y);
    var s, e := YearStart(y), YearEnd(y);
    var m := Mid(s, e);
    [Span(s, m), Span(m + 1, e)]
  }

  /** The two halves cut the year into consecutive pieces. */
  lemma YearHalvesTile(y: int)
    requires 1 <= y
    ensures Tiles(YearHalves(y), YearStart(y), YearEnd(y))
  {
    YearLength(y);
    var s, e := YearStart(y), YearEnd(y);
    HalvesTile(s, Mid(s, e), e);
  }

  /** The first half of a year holds 183 days, the second 182 (183 in a leap year). */
  lemma YearHalvesBalanced(y: int)
    requires 1 <= y
    ensures var ws := YearHalves(y);
      ws[0].hi - ws[0].lo + 1 == 183 && ws[1].hi - ws[1].lo + 1 == (if IsLeap(y) then 183 else 182)
  {
    YearLength(y);
    var s, e := YearStart(y), YearEnd(y);
    assert e - s == (if IsLeap(y) then 365 else 364);
  }

  /** [s, m] and [m + 1, e] tile [s, e]. */
  lemma HalvesTile(s: int, m: int, e: int)
    requires s <= m < e
    ensures Tiles([Span(s, m), Span(m + 1, e)], s, e)
  {
    var ws := [Span(s, m), Span(m + 1, e)];
    assert Tiles(ws[2..], e + 1, e);
    assert ws[1..][1..] == ws[2..];
  }

  /** The halves of count full years, from year from onwards, year by year. */
  function FullYears(from: int, count: nat): seq<Span>
    requires 1 <= from
  {
    if count == 0 then [] else FullYears(from, count - 1) + YearHalves(from + count - 1)
  }

  /** One more year adds its halves at the end. */
  lemma FullYearsSnoc(from: int, count: nat, y: int)
    requires 1 <= from && y == from + count
    ensures FullYears(from, count + 1) == FullYears(from, count) + YearHalves(y)
  {
  }

  /**
   * The halves of count full years from year from cut the days [lo, hi]: from January 1
   * of from to the day before January 1 of from + count.
   */
  lemma {:induction false} FullYearsTile(from: int, count: nat, lo: int, hi: int)
    requires 1 <= from && lo == YearStart(from) && hi == YearStart(from + count) - 1
    ensures Tiles(FullYears(from, count), lo, hi)
    decreases count
  {
    if count > 0 {
      var y := from + count - 1;
      FullYearsTile(from, count - 1, lo, YearStart(y) - 1);
      YearHalvesTile(y);
      TilesAppend(FullYears(from, count - 1), YearHalves(y), lo, YearStart(y) - 1, hi);
    }
  }

  /** The last day the given year is fetched to: today in the current year, December 31 before it. */
  function GivenYearEnd(givenYear: int, currentYear: int, today: int): int
    requires 1 <= givenYear
  {
    if givenYear == currentYear then today else YearEnd(givenYear)
  }

  /**
   * The windows query_obras_data fetches, in order: the given year in 15-day chunks,
   * each full year in between as two halves, and the current year (when it is not the
   * given year) as one window. A current year of more than 300 days would be halved,
   * but the code for its second half names timedelta, which is not imported: that run
   * stops with UndefinedTimedelta.
   */
  function ObrasWindows(givenYear: int, currentYear: int, today: int): Result<seq<Span>, QueryError>
    requires InYear(today, currentYear)
  {
    if givenYear > currentYear then Success([])
    else if givenYear < 1 then Failure(InvalidYear)
    else
      var chunks := Chunks(YearStart(givenYear), GivenYearEnd(givenYear, currentYear, today), OBRAS_OFFSET);
      if givenYear == currentYear then Success(chunks)
      else
        var s := YearStart(currentYear);
        if today - s + 1 > HALVING_THRESHOLD then Failure(UndefinedTimedelta)
        else Success(EarlierYearWindows(givenYear, currentYear, today))
  }

  /**
   * The windows of a given year before the current one: that year in 15-day chunks, the
   * full years in between as halves, and the current year through today as one window.
   */
  function EarlierYearWindows(givenYear: int, currentYear: int, today: int): seq<Span>
    requires 1 <= givenYear < currentYear
  {
    Chunks(YearStart(givenYear), YearEnd(givenYear), OBRAS_OFFSET)
      + FullYears(givenYear + 1, currentYear - givenYear - 1)
      + [Span(YearStart(currentYear), today)]
  }

  /**
   * The obras schedule fails exactly for a year below 1 and for a current year of more
   * than 300 days behind an earlier given year.
   */
  lemma ObrasWindowsFail(givenYear: int, currentYear: int, today: int)
    requires InYear(today, currentYear)
    ensures ObrasWindows(givenYear, currentYear, today).Failure? <==>
      givenYear <= currentYear && (givenYear < 1 || (givenYear < currentYear && today - YearStart(currentYear) + 1 > HALVING_THRESHOLD))
    ensures ObrasWindows(givenYear, currentYear, today) == Failure(UndefinedTimedelta) <==>
      1 <= givenYear < currentYear && today - YearStart(currentYear) + 1 > HALVING_THRESHOLD
  {
  }

  /**
   * When it succeeds, the obras schedule's windows cut the days from January 1 of the
   * given year through today into consecutive pieces.
   */
  lemma ObrasWindowsTile(givenYear: int, currentYear: int, today: int)
    requires InYear(today, currentYear) && 1 <= givenYear <= currentYear
    requires ObrasWindows(givenYear, currentYear, today).Success?
    ensures Tiles(ObrasWindows(givenYear, currentYear, today).value, YearStart(givenYear), today)
  {
    var e := GivenYearEnd(givenYear, currentYear, today);
    YearLength(givenYear);
    ChunksTile(YearStart(givenYear), e, OBRAS_OFFSET);
    if givenYear < currentYear {
      EarlierYearWindowsTile(givenYear, currentYear, today);
    }
  }

  /** The chunk windows of a whole year cut that year. */
  lemma YearChunksTile(y: int, offset: nat)
    requires 1 <= y
    ensures Tiles(Chunks(YearStart(y), YearEnd(y), offset), YearStart(y), YearEnd(y))
  {
    YearLength(y);
    ChunksTile(YearStart(y), YearEnd(y), offset);
  }

  /** The windows of an earlier given year, the full years between and the current year, in order, cut the whole span. */
  lemma EarlierYearWindowsTile(givenYear: int, currentYear: int, today: int)
    requires 1 <= givenYear < currentYear && YearStart(currentYear) <= today
    ensures Tiles(EarlierYearWindows(givenYear, currentYear, today), YearStart(givenYear), today)
  {
    var chunks := Chunks(YearStart(givenYear), YearEnd(givenYear), OBRAS_OFFSET);
    var years := FullYears(givenYear + 1, currentYear - givenYear - 1);
    var lo, m, n := YearStart(givenYear), YearEnd(givenYear), YearStart(currentYear);
    YearChunksTile(givenYear, OBRAS_OFFSET);
    FullYearsTile(givenYear + 1, currentYear - givenYear - 1, m + 1, n - 1);
    TilesAppendExtend(chunks, years, lo, m, m + 1, Span(n, today));
  }

  /** The given year is fetched in windows of 15 days, the last one possibly shorter. */
  lemma ObrasGivenYearWindows(givenYear: int, currentYear: int, today: int)
    requires InYear(today, currentYear) && 1 <= givenYear
    ensures WindowsOfWidth(Chunks(YearStart(givenYear), GivenYearEnd(givenYear, currentYear, today), OBRAS_OFFSET), 14)
  {
    ChunksWidth(YearStart(givenYear), GivenYearEnd(givenYear, currentYear, today), OBRAS_OFFSET);
  }

  /**
   * With an additive fetcher, the obras rows of a successful run are exactly the rows of
   * one query from January 1 of the given year through today.
   */
  lemma ObrasComplete(get: Fetcher<Row>, givenYear: int, currentYear: int, today: int)
    requires InYear(today, currentYear) && 1 <= givenYear <= currentYear
    requires Additive(get, givenYear, None)
    requires ObrasWindows(givenYear, currentYear, today).Success?
    ensures QueryAll(get, givenYear, None, ObrasWindows(givenYear, currentYear, today).value)
      == get(givenYear, None, YearStart(givenYear), today)
  {
    YearLength(givenYear);
    if givenYear < currentYear {
      YearsOrdered(givenYear, currentYear);
    }
    ObrasWindowsTile(givenYear, currentYear, today);
    QueryAllComplete(get, givenYear, None, ObrasWindows(givenYear, currentYear, today).value, YearStart(givenYear), today);
  }

  /**
   * Against the portal as it is, the obras rows of a successful run are exactly the rows
   * published from January 1 of the given year through today, in some order, provided no
   * single day reaches the cap.
   */
  lemma ObrasCapped(get: Fetcher<Row>, data: Fetcher<Row>, givenYear: int, currentYear: int, today: int)
    requires InYear(today, currentYear) && 1 <= givenYear <= currentYear
    requires CappedBy(get, data, givenYear, None) && MultisetAdditive(data, givenYear, None)
    requires DaysUnderCap(data, givenYear, None, YearStart(givenYear), today)
    requires ObrasWindows(givenYear, currentYear, today).Success?
    ensures multiset(QueryAll(get, givenYear, None, ObrasWindows(givenYear, currentYear, today).value))
      == multiset(data(givenYear, None, YearStart(givenYear), today))
  {
    YearLength(givenYear);
    if givenYear < currentYear {
      YearsOrdered(givenYear, currentYear);
    }
    ObrasWindowsTile(givenYear, currentYear, today);
    QueryAllCapped(get, data, givenYear, None, ObrasWindows(givenYear, currentYear, today).value, YearStart(givenYear), today);
  }

  /** The windows already fetched, followed by the first window left and the rest, are all the windows. */
  lemma ChunksStep(done: seq<Span>, cur: int, next: int, end: int, offset: nat)
    requires cur <= end && next == (if cur + offset > end then end else cur + offset)
    ensures (done + [Span(cur, next)]) + Chunks(next + 1, end, offset) == done + Chunks(cur, end, offset)
  {
    assert Chunks(cur, end, offset) == [Span(cur, next)] + Chunks(next + 1, end, offset);
  }

  /** One more window adds its rows at the end. */
  lemma QueryAllSnoc<R>(get: Fetcher<R>, year: int, filter: Option<string>, ws: seq<Span>, w: Span)
    ensures QueryAll(get, year, filter, ws + [w]) == QueryAll(get, year, filter, ws) + Query(get, year, filter, w.lo, w.hi)
  {
    QueryAllAppend(get, year, filter, ws, [w]);
    assert [w][1..] == [];
  }

  /**
   * The chunk loop shared by both schedules: from start, fetch offset + 1 days at a time
   * through the bisection, the last window cut short at end, and concatenate the rows.
   */
  method QueryChunks<R>(get: Fetcher<R>, year: int, filter: Option<string>, start: int, end: int, offset: nat)
    returns (results: seq<R>)
    ensures results == QueryAll(get, year, filter, Chunks(start, end, offset))
  {
    results := [];
    var cur := start;
    ghost var done: seq<Span> := [];
    assert [] + Chunks(start, end, offset) == Chunks(start, end, offset);
    while cur <= end
      invariant done + Chunks(cur, end, offset) == Chunks(start, end, offset)
      invariant results == QueryAll(get, year, filter, done)
      decreases end - cur + 1
    {
      var next := cur + offset;
      if next > end {
        next := end;
      }
      ChunksStep(done, cur, next, end, offset);
      QueryAllSnoc(get, year, filter, done, Span(cur, next));
      results := results + Query(get, year, filter, cur, next);
      done := done + [Span(cur, next)];
      cur := next + 1;
    }
    assert done + [] == done;
  }

  /** One full year of query_obras_data: January 1 to the midpoint, then the rest, each through the bisection. */
  method QueryYearHalves(get: Fetcher<Row>, year: int, yr: int) returns (rows: seq<Row>)
    requires 1 <= yr
    ensures rows == QueryAll(get, year, None, YearHalves(yr))
  {
    var s, e := YearStart(yr), YearEnd(yr);
    YearNonEmpty(yr);
    var mid := Mid(s, e);
    var firstHalf := Query(get, year, None, s, mid);
    var secondHalf := Query(get, year, None, mid + 1, e);
    rows := firstHalf + secondHalf;
    QueryAllPair(get, year, None, YearHalves(yr));
  }

  /**
   * The full-year loop of query_obras_data: every year from from up to (not including) to
   * in two halves, each through the bisection, for the notices of year.
   */
  method QueryFullYears(get: Fetcher<Row>, year: int, from: int, to: int) returns (results: seq<Row>)
    requires 1 <= from
    ensures results == QueryAll(get, year, None, FullYears(from, if to > from then to - from else 0))
  {
    results := [];
    var yr := from;
    ghost var count: nat := 0;
    ghost var ws: seq<Span> := [];
    while yr < to
      invariant yr == from + count
      invariant yr <= (if to > from then to else from)
      invariant ws == FullYears(from, count)
      invariant results == QueryAll(get, year, None, ws)
    {
      var rows := QueryYearHalves(get, year, yr);
      QueryAllAppend(get, year, None, ws, YearHalves(yr));
      FullYearsSnoc(from, count, yr);
      results := results + rows;
      ws := ws + YearHalves(yr);
      yr, count := yr + 1, count + 1;
    }
    assert count == if to > from then to - from else 0;
  }

  /**
   * query_obras_data: fetch the given year in 15-day windows, each full year in between in
   * two halves, then the current year, every query through the bisection and every one
   * for the given year's notices; concatenate the rows in that order.
   */
  method QueryObrasData(get: Fetcher<Row>, givenYear: int, currentYear: int, today: int)
    returns (r: Result<seq<Row>, QueryError>)
    requires InYear(today, currentYear)
    ensures ObrasWindows(givenYear, currentYear, today).Failure? ==>
      r == Failure(ObrasWindows(givenYear, currentYear, today).error)
    ensures ObrasWindows(givenYear, currentYear, today).Success? ==>
      r == Success(QueryAll(get, givenYear, None, ObrasWindows(givenYear, currentYear, today).value))
  {
    if givenYear > currentYear {
      return Success([]);
    }
    if givenYear < 1 {
      return Failure(InvalidYear);
    }
    var endGiven := if givenYear == currentYear then today else YearEnd(givenYear);
    assert endGiven == GivenYearEnd(givenYear, currentYear, today);
    var results := QueryChunks(get, givenYear, None, YearStart(givenYear), endGiven, OBRAS_OFFSET);
    var fullYears := QueryFullYears(get, givenYear, givenYear + 1, currentYear);
    results := results + fullYears;
    if currentYear > givenYear {
      var s := YearStart(currentYear);
      if today - s + 1 > HALVING_THRESHOLD {
        return Failure(UndefinedTimedelta);
      }
      var current := Query(get, givenYear, None, s, today);
      results := results + current;
    } else {
      assert results + [] == results;
    }
    ObrasRows(get, givenYear, currentYear, today);
    return Success(results);
  }

  /** The rows of a successful obras schedule, piece by piece: the given year, the full years, the current year. */
  lemma ObrasRows(get: Fetcher<Row>, givenYear: int, currentYear: int, today: int)
    requires InYear(today, currentYear) && 1 <= givenYear <= currentYear
    requires ObrasWindows(givenYear, currentYear, today).Success?
    ensures QueryAll(get, givenYear, None, ObrasWindows(givenYear, currentYear, today).value)
      == QueryAll(get, givenYear, None, Chunks(YearStart(givenYear), GivenYearEnd(givenYear, currentYear, today), OBRAS_OFFSET))
         + QueryAll(get, givenYear, None, FullYears(givenYear + 1, if currentYear > givenYear + 1 then currentYear - (givenYear + 1) else 0))
         + (if currentYear > givenYear then Query(get, givenYear, None, YearStart(currentYear), today) else [])
  {
    var chunks := Chunks(YearStart(givenYear), GivenYearEnd(givenYear, currentYear, today), OBRAS_OFFSET);
    if currentYear > givenYear {
      var years := FullYears(givenYear + 1, currentYear - givenYear - 1);
      var last := [Span(YearStart(currentYear), today)];
      QueryAllAppend(get, givenYear, None, chunks + years, last);
      QueryAllAppend(get, givenYear, None, chunks, years);
      assert last[1..] == [];
    } else {
      assert chunks + [] == chunks;
    }
  }

  /** The sequence s in reverse order (DataFrame[::-1]). */
  function Reverse<T>(s: seq<T>): (r: seq<T>)
    ensures |r| == |s| && forall k :: 0 <= k < |s| ==> r[k] == s[|s| - 1 - k]
  {
    if s == [] then [] else Reverse(s[1..]) + [s[0]]
  }

  /** Reversing keeps every element as often as it occurs. */
  lemma {:induction false} ReverseMultiset<T>(s: seq<T>)
    ensures multiset(Reverse(s)) == multiset(s)
  {
    if s != [] {
      ReverseMultiset(s[1..]);
      assert s == [s[0]] + s[1..];
    }
  }

  /** The windows query_vidrios_data fetches for each keyword: the given year in 301-day chunks. */
  function VidriosWindows(givenYear: int, currentYear: int, today: int): seq<Span>
    requires 1 <= givenYear
  {
    Chunks(YearStart(givenYear), GivenYearEnd(givenYear, currentYear, today), VIDRIOS_OFFSET)
  }

  /** The rows fetched for each keyword over windows ws, each keyword's rows reversed, concatenated in keyword order. */
  function KeywordRows(get: Fetcher<Row>, givenYear: int, keywords: seq<string>, ws: seq<Span>): seq<Row>
    decreases |keywords|
  {
    if keywords == [] then []
    else KeywordRows(get, givenYear, keywords[..|keywords| - 1], ws)
         + Reverse(QueryAll(get, givenYear, Some(keywords[|keywords| - 1]), ws))
  }

  /** The vidrios result: nothing for a future year, otherwise one sheet of every keyword's rows, N° dropped. */
  function VidriosSheets(get: Fetcher<Row>, givenYear: int, currentYear: int, today: int): Result<seq<Bucket>, QueryError>
    requires InYear(today, currentYear)
  {
    if givenYear > currentYear then Success([])
    else if givenYear < 1 then Failure(InvalidYear)
    else
      var rows := KeywordRows(get, givenYear, KEYWORDS_VIDRIOS, VidriosWindows(givenYear, currentYear, today));
      Success([Bucket(MAIN_SHEET_NAME, DropNumber(rows))])
  }

  /** The vidrios windows cut the given year up to its last fetched day into consecutive 301-day pieces, the last possibly shorter. */
  lemma VidriosWindowsTile(givenYear: int, currentYear: int, today: int)
    requires InYear(today, currentYear) && 1 <= givenYear <= currentYear
    ensures Tiles(VidriosWindows(givenYear, currentYear, today), YearStart(givenYear), GivenYearEnd(givenYear, currentYear, today))
    ensures WindowsOfWidth(VidriosWindows(givenYear, currentYear, today), 300)
  {
    YearLength(givenYear);
    ChunksTile(YearStart(givenYear), GivenYearEnd(givenYear, currentYear, today), VIDRIOS_OFFSET);
    ChunksWidth(YearStart(givenYear), GivenYearEnd(givenYear, currentYear, today), VIDRIOS_OFFSET);
  }

  /** The rows fetched for each keyword over the whole given year, newest first, concatenated in keyword order. */
  function YearRows(get: Fetcher<Row>, givenYear: int, keywords: seq<string>, lo: int, hi: int): seq<Row>
    decreases |keywords|
  {
    if keywords == [] then []
    else YearRows(get, givenYear, keywords[..|keywords| - 1], lo, hi)
         + Reverse(get(givenYear, Some(keywords[|keywords| - 1]), lo, hi))
  }

  /**
   * With a fetcher additive for every keyword, the vidrios rows for each keyword are
   * exactly one query over the given year's fetched days, reversed.
   */
  lemma {:induction false} VidriosComplete(get: Fetcher<Row>, givenYear: int, keywords: seq<string>, ws: seq<Span>, lo: int, hi: int)
    requires forall kw :: kw in keywords ==> Additive(get, givenYear, Some(kw))
    requires Tiles(ws, lo, hi) && lo <= hi
    ensures KeywordRows(get, givenYear, keywords, ws) == YearRows(get, givenYear, keywords, lo, hi)
    decreases |keywords|
  {
    if keywords != [] {
      var kw := keywords[|keywords| - 1];
      VidriosComplete(get, givenYear, keywords[..|keywords| - 1], ws, lo, hi);
      QueryAllComplete(get, givenYear, Some(kw), ws, lo, hi);
    }
  }

  /**
   * Against the portal as it is: with a source capped for every keyword, listing each range
   * in any order and with no single day at the cap, the vidrios rows are exactly the rows of
   * every keyword over the fetched days, each as often as the data holds it.
   */
  lemma {:induction false} VidriosCapped(get: Fetcher<Row>, data: Fetcher<Row>, givenYear: int, keywords: seq<string>, ws: seq<Span>, lo: int, hi: int)
    requires forall kw :: kw in keywords ==>
      CappedBy(get, data, givenYear, Some(kw)) && MultisetAdditive(data, givenYear, Some(kw)) && DaysUnderCap(data, givenYear, Some(kw), lo, hi)
    requires Tiles(ws, lo, hi) && lo <= hi
    ensures multiset(KeywordRows(get, givenYear, keywords, ws)) == multiset(YearRows(data, givenYear, keywords, lo, hi))
    decreases |keywords|
  {
    if keywords != [] {
      var kw := keywords[|keywords| - 1];
      var init := keywords[..|keywords| - 1];
      assert forall k :: k in init ==> k in keywords;
      VidriosCapped(get, data, givenYear, init, ws, lo, hi);
      QueryAllCapped(get, data, givenYear, Some(kw), ws, lo, hi);
      ReverseMultiset(QueryAll(get, givenYear, Some(kw), ws));
      ReverseMultiset(data(givenYear, Some(kw), lo, hi));
    }
  }

  /** One more keyword adds its rows, reversed, at the end. */
  lemma KeywordRowsSnoc(get: Fetcher<Row>, givenYear: int, keywords: seq<string>, i: int, ws: seq<Span>)
    requires 0 <= i < |keywords|
    ensures KeywordRows(get, givenYear, keywords[..i + 1], ws)
      == KeywordRows(get, givenYear, keywords[..i], ws) + Reverse(QueryAll(get, givenYear, Some(keywords[i]), ws))
  {
    assert keywords[..i + 1][..i] == keywords[..i];
  }

  /**
   * query_vidrios_data: for each keyword, fetch the given year in 301-day windows through
   * the bisection, concatenate and reverse; concatenate the keywords' rows and drop N°.
   */
  method QueryVidriosData(get: Fetcher<Row>, givenYear: int, currentYear: int, today: int)
    returns (r: Result<seq<Bucket>, QueryError>)
    requires InYear(today, currentYear)
    ensures r == VidriosSheets(get, givenYear, currentYear, today)
  {
    if givenYear > currentYear {
      return Success([]);
    }
    if givenYear < 1 {
      return Failure(InvalidYear);
    }
    var endGiven := if givenYear == currentYear then today else YearEnd(givenYear);
    ghost var ws := Chunks(YearStart(givenYear), endGiven, VIDRIOS_OFFSET);
    assert ws == VidriosWindows(givenYear, currentYear, today);
    var globalResults: seq<Row> := [];
    for i := 0 to |KEYWORDS_VIDRIOS|
      invariant globalResults == KeywordRows(get, givenYear, KEYWORDS_VIDRIOS[..i], ws)
    {
      var filter := KEYWORDS_VIDRIOS[i];
      var results := QueryChunks(get, givenYear, Some(filter), YearStart(givenYear), endGiven, VIDRIOS_OFFSET);
      KeywordRowsSnoc(get, givenYear, KEYWORDS_VIDRIOS, i, ws);
      globalResults := globalResults + Reverse(results);
    }
    assert KEYWORDS_VIDRIOS[..|KEYWORDS_VIDRIOS|] == KEYWORDS_VIDRIOS;
    return Success([Bucket(MAIN_SHEET_NAME, DropNumber(globalResults))]);
  }
}
