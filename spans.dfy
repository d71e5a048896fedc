/**
 * Closed day ranges and the ways the program cuts a range into consecutive pieces.
 * Days are ordinals (day 1 is January 1 of year 1, as Python's date.toordinal counts them).
 */
module Spans {

  /** The closed range of days [lo, hi] of one query. */
  datatype Span = Span(lo: int, hi: int)

  /**
   * The midpoint the program uses to halve [start, end]: start plus half the number
   * of days between them, rounded down (timedelta.days // 2, and timedelta // 2 on whole days).
   */
  function Mid(start: int, end: int): (m: int)
    requires start <= end
    ensures start <= m <= end
    ensures start < end ==> m < end
  {
    start + (end - start) / 2
  }

  /**
   * ws cuts [lo, hi] into non-empty consecutive ranges, left to right; the empty
   * list cuts exactly the empty range lo == hi + 1.
   */
  ghost predicate Tiles(ws: seq<Span>, lo: int, hi: int)
    decreases |ws|
  {
    if ws == [] then lo == hi + 1
    else ws[0].lo == lo && ws[0].lo <= ws[0].hi && Tiles(ws[1..], ws[0].hi + 1, hi)
  }

  /** Cutting two adjacent ranges and putting the pieces side by side cuts their union. */
  lemma {:induction false} TilesAppend(a: seq<Span>, b: seq<Span>, lo: int, m: int, hi: int)
    requires Tiles(a, lo, m) && Tiles(b, m + 1, hi)
    ensures Tiles(a + b, lo, hi)
    decreases |a|
  {
    if a == [] {
      assert a + b == b;
    } else {
      TilesAppend(a[1..], b, a[0].hi + 1, m, hi);
      assert (a + b)[1..] == a[1..] + b;
    }
  }

  /** A tiling of [lo, m] followed by the one piece [m + 1, hi] tiles [lo, hi]. */
  lemma TilesExtend(ws: seq<Span>, lo: int, w: Span)
    requires Tiles(ws, lo, w.lo - 1) && w.lo <= w.hi
    ensures Tiles(ws + [w], lo, w.hi)
  {
    assert Tiles([w][1..], w.hi + 1, w.hi);
    TilesAppend(ws, [w], lo, w.lo - 1, w.hi);
  }

  /** Two adjacent tilings followed by one more piece tile the whole range. */
  lemma TilesAppendExtend(a: seq<Span>, b: seq<Span>, lo: int, m: int, n: int, w: Span)
    requires Tiles(a, lo, m)
    requires Tiles(b, n, w.lo - 1)
    requires n == m + 1 && w.lo <= w.hi
    ensures Tiles(a + b + [w], lo, w.hi)
  {
    TilesAppend(a, b, lo, m, w.lo - 1);
    TilesExtend(a + b, lo, w);
  }

  /** A tiling never covers a range that ends before it starts, except the empty one. */
  lemma {:induction false} TilesBounds(ws: seq<Span>, lo: int, hi: int)
    requires Tiles(ws, lo, hi)
    ensures lo <= hi + 1
    ensures ws != [] <==> lo <= hi
    decreases |ws|
  {
    if ws != [] {
      TilesBounds(ws[1..], ws[0].hi + 1, hi);
    }
  }

  /** Pieces of a tiling are non-empty, lie inside the range and come in strictly increasing order. */
  lemma {:induction false} TilesOrdered(ws: seq<Span>, lo: int, hi: int)
    requires Tiles(ws, lo, hi)
    ensures forall k :: 0 <= k < |ws| ==> lo <= ws[k].lo <= ws[k].hi <= hi
    ensures forall k, l :: 0 <= k < l < |ws| ==> ws[k].hi < ws[l].lo
    decreases |ws|
  {
    if ws != [] {
      var rest := ws[1..];
      TilesOrdered(rest, ws[0].hi + 1, hi);
      TilesBounds(rest, ws[0].hi + 1, hi);
      forall k, l | 0 <= k < l < |ws| ensures ws[k].hi < ws[l].lo {
        if k > 0 {
          assert ws[k] == rest[k - 1] && ws[l] == rest[l - 1];
        } else {
          assert ws[l] == rest[l - 1];
        }
      }
    }
  }

  /** Every day of [lo, hi], and no other day, lies in exactly one piece of a tiling. */
  lemma TilesCover(ws: seq<Span>, lo: int, hi: int, d: int)
    requires Tiles(ws, lo, hi)
    ensures (lo <= d <= hi) <==> (exists k :: 0 <= k < |ws| && ws[k].lo <= d <= ws[k].hi)
    ensures forall k, l :: 0 <= k < l < |ws| && ws[k].lo <= d <= ws[k].hi ==> !(ws[l].lo <= d <= ws[l].hi)
  {
    TilesOrdered(ws, lo, hi);
    if lo <= d <= hi {
      CoverWitness(ws, lo, hi, d);
    }
  }

  lemma {:induction false} CoverWitness(ws: seq<Span>, lo: int, hi: int, d: int)
    requires Tiles(ws, lo, hi) && lo <= d <= hi
    ensures exists k :: 0 <= k < |ws| && ws[k].lo <= d <= ws[k].hi
    decreases |ws|
  {
    TilesBounds(ws, lo, hi);
    if d > ws[0].hi {
      CoverWitness(ws[1..], ws[0].hi + 1, hi, d);
      var k :| 0 <= k < |ws[1..]| && ws[1..][k].lo <= d <= ws[1..][k].hi;
      assert ws[k + 1] == ws[1..][k];
    } else {
      assert ws[0].lo <= d <= ws[0].hi;
    }
  }
}
