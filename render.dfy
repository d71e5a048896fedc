/**
 * Report regeneration (data_to_excel and the fill mapping of format_table): each sheet is
 * sorted by publication date, newest first, and every data row takes its cell fills from
 * the row of the previous report that held the same record.
 */
module Render {
  import opened Wrappers
  import opened Records
  import opened Layout

  /**
   * Number the rows 1..n in a temp_index column, then sort the rows together with that
   * column by publication date, newest first, in place. Rows that are already newest first
   * stay where they are.
   */
  method SortByPublication(rows: seq<Record>) returns (sorted: seq<Record>, tempIndex: seq<int>)
    ensures SortedLayout(rows, sorted, tempIndex)
    ensures PublishedNonIncreasing(rows) ==> sorted == rows && tempIndex == Iota(|rows|)
  {
    var n := |rows|;
    var recs, idx := NumberRows(rows);
    ghost var s, t := recs[..], idx[..];
    SortStateStart(rows);
    var i := 0;
    while i < n
      invariant recs[..] == s && idx[..] == t
      invariant SortState(rows, s, t, i)
    {
      InsertNewest(rows, recs, idx, i);
      SortStateStep(rows, s, t, recs[..], idx[..], i);
      s, t := recs[..], idx[..];
      i := i + 1;
    }
    sorted, tempIndex := recs[..], idx[..];
  }

  /** The rows before sorting, each beside its 1-based position. */
  method NumberRows(rows: seq<Record>) returns (recs: array<Record>, idx: array<int>)
    ensures fresh(recs) && fresh(idx)
    ensures recs[..] == rows && idx[..] == Iota(|rows|)
  {
    var n := |rows|;
    recs := new Record[n](k requires 0 <= k < n => rows[k]);
    idx := new int[n](k requires 0 <= k < n => k + 1);
  }

  /** Exchange the entries at p and q of a. */
  method Exchange<T>(a: array<T>, p: int, q: int)
    requires 0 <= p < a.Length && 0 <= q < a.Length
    modifies a
    ensures a[..] == Exchanged(old(a[..]), p, q)
  {
    a[p], a[q] := a[q], a[p];
  }

  /** Exchange rows p and q together with their temp_index entries. */
  method ExchangeRows(recs: array<Record>, idx: array<int>, p: int, q: int)
    requires 0 <= p < recs.Length && 0 <= q < recs.Length && idx.Length == recs.Length
    modifies recs, idx
    ensures recs[..] == Exchanged(old(recs[..]), p, q) && idx[..] == Exchanged(old(idx[..]), p, q)
  {
    Exchange(recs, p, q);
    Exchange(idx, p, q);
  }

  /**
   * One step of the sort: move the row at position i left past the rows published before
   * it. Rows after i stay in place; the first i + 1 rows are rearranged newest first.
   */
  method InsertNewest(rows: seq<Record>, recs: array<Record>, idx: array<int>, i: int)
    requires 0 <= i < recs.Length
    requires Linked(rows, recs[..], idx[..])
    requires NewestFirst(recs[..], 0, i)
    modifies recs, idx
    ensures Linked(rows, recs[..], idx[..])
    ensures Rearranged(recs[..], idx[..], old(recs[..]), old(idx[..]))
    ensures NewestFirst(recs[..], 0, i + 1)
    ensures old(recs[..]) == rows && PublishedNonIncreasing(rows) ==> recs[..] == old(recs[..]) && idx[..] == old(idx[..])
    ensures recs[i + 1..] == old(recs[i + 1..]) && idx[i + 1..] == old(idx[i + 1..])
    ensures multiset(recs[..i + 1]) == multiset(old(recs[..i + 1])) && multiset(idx[..i + 1]) == multiset(old(idx[..i + 1]))
  {
    ghost var s0, t0 := recs[..], idx[..];
    InsertingStarts(s0, i);
    var j := i;
    while j > 0 && recs[j - 1].published < recs[j].published
      invariant InsertState(rows, s0, t0, i, recs[..], idx[..], j)
      invariant MovedWithin(recs[..], idx[..], s0, t0, i)
      decreases j
    {
      ghost var s, t := recs[..], idx[..];
      assert s[j - 1].published < s[j].published;
      InsertStateStep(rows, s0, t0, i, s, t, j);
      MovedWithinExchange(s, t, s0, t0, i, j - 1, j);
      ExchangeRows(recs, idx, j - 1, j);
      assert recs[..] == Exchanged(s, j - 1, j) && idx[..] == Exchanged(t, j - 1, j);
      j := j - 1;
    }
    ghost var s, t := recs[..], idx[..];
    assert j == 0 || s[j - 1].published >= s[j].published;
    InsertStateEnds(rows, s0, t0, i, s, t, j);
    assert recs[i + 1..] == s[i + 1..] && idx[i + 1..] == t[i + 1..];
    assert recs[..i + 1] == s[..i + 1] && idx[..i + 1] == t[..i + 1];
  }

  /** A sheet as written: its name, its rows in sheet order and the temp_index array kept for it. */
  datatype Sheet = Sheet(name: string, rows: seq<Record>, tempIndex: seq<int>)

  /**
   * The sheet written for a bucket: named by the capitalized bucket name, its rows the
   * bucket's rows laid out newest first, left where they are when already in that order.
   */
  ghost predicate SheetFor(b: Bucket, sh: Sheet)
  {
    && sh.name == Capitalize(b.name)
    && SortedLayout(b.rows, sh.rows, sh.tempIndex)
    && (PublishedNonIncreasing(b.rows) ==> sh.rows == b.rows && sh.tempIndex == Iota(|b.rows|))
  }

  /** data_to_excel, first pass: one sorted sheet per bucket, in bucket order. */
  method DataToExcel(buckets: seq<Bucket>) returns (sheets: seq<Sheet>)
    ensures |sheets| == |buckets|
    ensures forall i :: 0 <= i < |buckets| ==> SheetFor(buckets[i], sheets[i])
  {
    sheets := [];
    for i := 0 to |buckets|
      invariant |sheets| == i
      invariant forall k :: 0 <= k < i ==> SheetFor(buckets[k], sheets[k])
    {
      var sorted, tempIndex := SortByPublication(buckets[i].rows);
      var sheet := Sheet(Capitalize(buckets[i].name), sorted, tempIndex);
      assert SheetFor(buckets[i], sheet);
      sheets := sheets + [sheet];
    }
  }

  /** A cell fill: none, or a pattern fill (fill_type set) with its colour. */
  datatype Fill = NoFill | PatternFill(fillType: string, color: string)

  /** The fills of a worksheet: row r, column c (both 1-based) is grid[r - 1][c - 1]. */
  type FillGrid = seq<seq<Fill>>

  /** The fill of a cell of a saved sheet; a cell outside what was written reads as an empty cell. */
  function CellFill(sheet: FillGrid, row: int, col: int): Fill
  {
    if 1 <= row <= |sheet| && 1 <= col <= |sheet[row - 1]| then sheet[row - 1][col - 1] else NoFill
  }

  /**
   * The row of the previous sheet that rendered row newRow (2 or more: row 1 is the header)
   * takes its fills from: its temp_index plus one for the header, or the same row without one.
   */
  function OldRowIndex(tempIndex: Option<seq<int>>, newRow: int): int
    requires newRow >= 2
    requires tempIndex.Some? ==> newRow - 2 < |tempIndex.value|
  {
    if tempIndex.Some? then tempIndex.value[newRow - 2] + 1 else newRow
  }

  /** A cell's fill after format_table: the old cell's fill if it has one, else what it had. */
  function CopiedFill(oldSheet: Option<FillGrid>, oldRow: int, col: int, current: Fill): Fill
  {
    if oldSheet.Some? && CellFill(oldSheet.value, oldRow, col).PatternFill? then CellFill(oldSheet.value, oldRow, col)
    else current
  }

  /**
   * format_table's row loop, fills only: grid holds the fills of the table just written
   * (header row first); oldSheet is the same sheet in the previous report, if any.
   */
  method FormatTable(grid: array2<Fill>, oldSheet: Option<FillGrid>, tempIndex: Option<seq<int>>)
    requires grid.Length0 >= 1
    requires tempIndex.Some? ==> |tempIndex.value| >= grid.Length0 - 1
    modifies grid
    ensures forall c :: 0 <= c < grid.Length1 ==> grid[0, c] == old(grid[0, c])
    ensures forall r, c :: 1 <= r < grid.Length0 && 0 <= c < grid.Length1 ==>
      grid[r, c] == CopiedFill(oldSheet, OldRowIndex(tempIndex, r + 1), c + 1, old(grid[r, c]))
  {
    var r := 1;
    while r < grid.Length0
      invariant 1 <= r <= grid.Length0
      invariant forall c :: 0 <= c < grid.Length1 ==> grid[0, c] == old(grid[0, c])
      invariant forall r', c :: 1 <= r' < r && 0 <= c < grid.Length1 ==>
        grid[r', c] == CopiedFill(oldSheet, OldRowIndex(tempIndex, r' + 1), c + 1, old(grid[r', c]))
      invariant forall r', c :: r <= r' < grid.Length0 && 0 <= c < grid.Length1 ==> grid[r', c] == old(grid[r', c])
    {
      var oldRow := OldRowIndex(tempIndex, r + 1);
      var c := 0;
      while c < grid.Length1
        invariant 0 <= c <= grid.Length1
        invariant forall c' :: 0 <= c' < grid.Length1 ==> grid[0, c'] == old(grid[0, c'])
        invariant forall r', c' :: 1 <= r' < r && 0 <= c' < grid.Length1 ==>
          grid[r', c'] == CopiedFill(oldSheet, OldRowIndex(tempIndex, r' + 1), c' + 1, old(grid[r', c']))
        invariant forall c' :: 0 <= c' < c ==> grid[r, c'] == CopiedFill(oldSheet, oldRow, c' + 1, old(grid[r, c']))
        invariant forall c' :: c <= c' < grid.Length1 ==> grid[r, c'] == old(grid[r, c'])
        invariant forall r', c' :: r < r' < grid.Length0 && 0 <= c' < grid.Length1 ==> grid[r', c'] == old(grid[r', c'])
      {
        if oldSheet.Some? {
          var f := CellFill(oldSheet.value, oldRow, c + 1);
          if f.PatternFill? {
            grid[r, c] := f;
          }
        }
        c := c + 1;
      }
      r := r + 1;
    }
  }

  /**
   * The fill follows the record. Let the sheet's rows be the previous report's rows followed
   * by new ones, laid out by the sort. A rendered data row showing a record the previous
   * report held copies from the row where that report showed it; one showing a new record
   * copies from below the previous table, where no cell has a fill.
   */
  lemma FillFollowsRecord(existing: seq<Record>, rows: seq<Record>, sorted: seq<Record>, t: seq<int>,
                          oldSheet: FillGrid, newRow: int, col: int)
    requires |existing| <= |rows| && rows[..|existing|] == existing
    requires SortedLayout(rows, sorted, t)
    requires 2 <= newRow <= |rows| + 1
    requires |oldSheet| == |existing| + 1
    ensures var oldRow := OldRowIndex(Some(t), newRow);
      && (t[newRow - 2] <= |existing| ==> 2 <= oldRow <= |existing| + 1 && existing[oldRow - 2] == sorted[newRow - 2])
      && (t[newRow - 2] > |existing| ==> CellFill(oldSheet, oldRow, col) == NoFill)
  {
  }

  /**
   * Re-rendering rows that are already newest first keeps every row in place: each data row
   * copies the fills of its own row in the previous sheet.
   */
  lemma IdentityLayoutKeepsFills(n: nat, newRow: int)
    requires 2 <= newRow <= n + 1
    ensures OldRowIndex(Some(Iota(n)), newRow) == newRow
  {
  }
}
