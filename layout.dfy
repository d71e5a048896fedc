/**
 * The bookkeeping of the report sort: rows sorted newest first beside their temp_index
 * column, and the states an insertion sort passes through on the way there.
 */
module Layout {
  import opened Records

  /** The temp_index column as first written: 1, 2, ..., n. */
  function Iota(n: nat): (r: seq<int>)
    ensures |r| == n && forall k :: 0 <= k < n ==> r[k] == k + 1
  {
    seq(n, k requires 0 <= k < n => k + 1)
  }

  /** The rows in [lo, hi) are listed newest first. */
  ghost predicate NewestFirst(s: seq<Record>, lo: int, hi: int)
    requires 0 <= lo <= hi <= |s|
  {
    forall k, l :: lo <= k < l < hi ==> s[k].published >= s[l].published
  }

  /** Rows already listed newest first. */
  ghost predicate PublishedNonIncreasing(rows: seq<Record>)
  {
    NewestFirst(rows, 0, |rows|)
  }

  /** Each sorted row sits next to its pre-sort position, which names that row in rows. */
  ghost predicate Linked(rows: seq<Record>, recs: seq<Record>, idx: seq<int>)
  {
    |recs| == |rows| && |idx| == |rows| &&
    forall k {:trigger idx[k]} :: 0 <= k < |rows| ==> 1 <= idx[k] <= |rows| && recs[k] == rows[idx[k] - 1]
  }

  /** s and t hold the same rows and the same temp_index values as s0 and t0. */
  ghost predicate Rearranged(s: seq<Record>, t: seq<int>, s0: seq<Record>, t0: seq<int>)
  {
    multiset(s) == multiset(s0) && multiset(t) == multiset(t0)
  }

  /**
   * sorted is rows listed newest first, and t its temp_index column: a permutation of
   * 1..n naming, for each sorted row, its 1-based position before the sort.
   */
  ghost predicate SortedLayout(rows: seq<Record>, sorted: seq<Record>, t: seq<int>)
  {
    && Linked(rows, sorted, t)
    && Rearranged(sorted, t, rows, Iota(|rows|))
    && NewestFirst(sorted, 0, |sorted|)
  }

  /** After i steps of the sort: the first i rows are newest first, and nothing has moved if none had to. */
  ghost predicate SortState(rows: seq<Record>, s: seq<Record>, t: seq<int>, i: int)
  {
    && Linked(rows, s, t)
    && 0 <= i <= |s|
    && Rearranged(s, t, rows, Iota(|rows|))
    && NewestFirst(s, 0, i)
    && (PublishedNonIncreasing(rows) ==> s == rows && t == Iota(|rows|))
  }

  lemma SortStateStep(rows: seq<Record>, s: seq<Record>, t: seq<int>, s': seq<Record>, t': seq<int>, i: int)
    requires SortState(rows, s, t, i) && i < |s|
    requires Linked(rows, s', t') && Rearranged(s', t', s, t) && NewestFirst(s', 0, i + 1)
    requires s == rows && PublishedNonIncreasing(rows) ==> s' == s && t' == t
    ensures SortState(rows, s', t', i + 1)
  {
  }

  lemma SortStateStart(rows: seq<Record>)
    ensures SortState(rows, rows, Iota(|rows|), 0)
  {
  }

  /** The sequence s with the entries at p and q exchanged. */
  function Exchanged<T>(s: seq<T>, p: int, q: int): (r: seq<T>)
    requires 0 <= p < |s| && 0 <= q < |s|
    ensures |r| == |s|
  {
    s[p := s[q]][q := s[p]]
  }

  /** Exchanging two rows together with their temp_index entries keeps them linked. */
  lemma LinkedExchange(rows: seq<Record>, s: seq<Record>, t: seq<int>, p: int, q: int)
    requires Linked(rows, s, t) && 0 <= p < |s| && 0 <= q < |s|
    ensures Linked(rows, Exchanged(s, p, q), Exchanged(t, p, q))
  {
  }

  lemma RearrangedExchange(s: seq<Record>, t: seq<int>, s0: seq<Record>, t0: seq<int>, p: int, q: int)
    requires Rearranged(s, t, s0, t0) && 0 <= p < |s| && 0 <= q < |s| && |t| == |s|
    ensures Rearranged(Exchanged(s, p, q), Exchanged(t, p, q), s0, t0)
  {
  }

  /**
   * Only the first i + 1 entries have moved: every entry after i is where it was in s0 and
   * t0, and the first i + 1 entries hold the same rows and temp_index values as before.
   */
  ghost predicate MovedWithin(s: seq<Record>, t: seq<int>, s0: seq<Record>, t0: seq<int>, i: int)
  {
    && 0 <= i < |s| && |s0| == |s| && |t| == |s| && |t0| == |s|
    && s[i + 1..] == s0[i + 1..] && t[i + 1..] == t0[i + 1..]
    && multiset(s[..i + 1]) == multiset(s0[..i + 1]) && multiset(t[..i + 1]) == multiset(t0[..i + 1])
  }

  /** Exchanging two entries among the first i + 1 moves nothing else. */
  lemma MovedWithinExchange(s: seq<Record>, t: seq<int>, s0: seq<Record>, t0: seq<int>, i: int, p: int, q: int)
    requires MovedWithin(s, t, s0, t0, i) && 0 <= p <= i && 0 <= q <= i
    ensures MovedWithin(Exchanged(s, p, q), Exchanged(t, p, q), s0, t0, i)
  {
    var s', t' := Exchanged(s, p, q), Exchanged(t, p, q);
    assert s'[i + 1..] == s[i + 1..] && t'[i + 1..] == t[i + 1..];
    assert s'[..i + 1] == Exchanged(s[..i + 1], p, q);
    assert t'[..i + 1] == Exchanged(t[..i + 1], p, q);
  }

  /**
   * Midway through inserting the row at i: the row now at j is newer than every row after
   * it up to i, and the other rows up to i are newest first.
   */
  ghost predicate Inserting(s: seq<Record>, i: int, j: int)
    requires 0 <= j <= i < |s|
  {
    && (forall k, l :: 0 <= k < l <= i && k != j && l != j ==> s[k].published >= s[l].published)
    && (forall l :: j < l <= i ==> s[j].published > s[l].published)
  }

  lemma InsertingStarts(s: seq<Record>, i: int)
    requires 0 <= i < |s| && NewestFirst(s, 0, i)
    ensures Inserting(s, i, i)
  {
  }

  lemma InsertingStep(s: seq<Record>, i: int, j: int)
    requires 0 < j <= i < |s| && Inserting(s, i, j)
    requires s[j - 1].published < s[j].published
    ensures Inserting(Exchanged(s, j - 1, j), i, j - 1)
  {
  }

  lemma InsertingEnds(s: seq<Record>, i: int, j: int)
    requires 0 <= j <= i < |s| && Inserting(s, i, j)
    requires j == 0 || s[j - 1].published >= s[j].published
    ensures NewestFirst(s, 0, i + 1)
  {
  }

  lemma InsertStateEnds(rows: seq<Record>, s0: seq<Record>, t0: seq<int>, i: int, s: seq<Record>, t: seq<int>, j: int)
    requires InsertState(rows, s0, t0, i, s, t, j)
    requires j == 0 || s[j - 1].published >= s[j].published
    ensures Linked(rows, s, t) && Rearranged(s, t, s0, t0) && NewestFirst(s, 0, i + 1)
    ensures s0 == rows && PublishedNonIncreasing(rows) ==> s == s0 && t == t0
  {
    InsertingEnds(s, i, j);
  }

  /** Everything that holds while the row at i moves left and now sits at j. */
  ghost predicate InsertState(rows: seq<Record>, s0: seq<Record>, t0: seq<int>, i: int, s: seq<Record>, t: seq<int>, j: int)
  {
    && 0 <= j <= i < |s|
    && Linked(rows, s, t)
    && Rearranged(s, t, s0, t0)
    && Inserting(s, i, j)
    && (j == i ==> s == s0 && t == t0)
    && (s0 == rows && PublishedNonIncreasing(rows) ==> j == i)
  }

  lemma PresortedPairInOrder(rows: seq<Record>, s: seq<Record>, j: int)
    requires 0 < j < |s|
    ensures s == rows && PublishedNonIncreasing(rows) ==> s[j - 1].published >= s[j].published
  {
  }

  lemma InsertStateStep(rows: seq<Record>, s0: seq<Record>, t0: seq<int>, i: int, s: seq<Record>, t: seq<int>, j: int)
    requires InsertState(rows, s0, t0, i, s, t, j) && 0 < j
    requires s[j - 1].published < s[j].published
    ensures InsertState(rows, s0, t0, i, Exchanged(s, j - 1, j), Exchanged(t, j - 1, j), j - 1)
  {
    var s', t' := Exchanged(s, j - 1, j), Exchanged(t, j - 1, j);
    assert 0 <= j - 1 < i < |s'|;
    assert Linked(rows, s', t') by {
      LinkedExchange(rows, s, t, j - 1, j);
    }
    assert Rearranged(s', t', s0, t0) by {
      RearrangedExchange(s, t, s0, t0, j - 1, j);
    }
    assert Inserting(s', i, j - 1) by {
      InsertingStep(s, i, j);
    }
    assert !(s0 == rows && PublishedNonIncreasing(rows)) by {
      PresortedPairInOrder(rows, s, j);
    }
  }
}
