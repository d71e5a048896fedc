/**
 * Threshold filter and keyword classification of the works export (filter_data_obras).
 */
module Classify {
  import opened Wrappers
  import opened Records

  /**
   * The numeric reading of an estimated-value text once its thousands separators are
   * removed; None where the text is not a number (the NaN of the program). Floating point
   * is not modelled: a parser is any function of this shape.
   */
  type Parser = string -> Option<int>

  /** The row mask: a value above the bound, or a value that cannot be read. */
  predicate Keep(parse: Parser, lowerBound: int, r: Record)
  {
    parse(r.value).None? || parse(r.value).value > lowerBound
  }

  /**
   * a may be listed before b in the descending order with unknown values first
   * (sort_values(ascending=False, na_position='first')).
   */
  predicate ValueAtLeast(a: Option<int>, b: Option<int>)
  {
    a.None? || (b.Some? && a.value >= b.value)
  }

  ghost predicate SortedByValue(s: seq<Record>, parse: Parser)
  {
    forall i, j :: 0 <= i < j < |s| ==> ValueAtLeast(parse(s[i].value), parse(s[j].value))
  }

  /** x placed in a sorted list, before the first row it may precede. */
  function InsertByValue(x: Record, s: seq<Record>, parse: Parser): (r: seq<Record>)
    ensures multiset(r) == multiset(s) + multiset{x}
    decreases |s|
  {
    if s == [] then [x]
    else if ValueAtLeast(parse(x.value), parse(s[0].value)) then [x] + s
    else
      assert s == [s[0]] + s[1..];
      [s[0]] + InsertByValue(x, s[1..], parse)
  }

  /** The head of a sorted list may precede every row after it. */
  lemma HeadPrecedesRest(s: seq<Record>, parse: Parser)
    requires s != [] && SortedByValue(s, parse)
    ensures forall y :: y in s[1..] ==> ValueAtLeast(parse(s[0].value), parse(y.value))
  {
    forall y | y in s[1..] ensures ValueAtLeast(parse(s[0].value), parse(y.value)) {
      var k :| 0 <= k < |s[1..]| && s[1..][k] == y;
      assert s[k + 1] == y;
    }
  }

  /** Inserting into a sorted list keeps it sorted. */
  lemma {:induction false} InsertKeepsSorted(x: Record, s: seq<Record>, parse: Parser)
    requires SortedByValue(s, parse)
    ensures SortedByValue(InsertByValue(x, s, parse), parse)
    decreases |s|
  {
    if s != [] {
      HeadPrecedesRest(s, parse);
      if ValueAtLeast(parse(x.value), parse(s[0].value)) {
        ConsSorted(x, s, parse);
      } else {
        var tail := InsertByValue(x, s[1..], parse);
        InsertKeepsSorted(x, s[1..], parse);
        forall y | y in tail ensures ValueAtLeast(parse(s[0].value), parse(y.value)) {
          assert y in multiset(tail);
          if y != x {
            assert y in s[1..];
          }
        }
        ConsSorted(s[0], tail, parse);
      }
    }
  }

  /** A row that may precede every row of a sorted list, put in front of it, gives a sorted list. */
  lemma ConsSorted(x: Record, s: seq<Record>, parse: Parser)
    requires SortedByValue(s, parse)
    requires forall y :: y in s ==> ValueAtLeast(parse(x.value), parse(y.value))
    ensures SortedByValue([x] + s, parse)
  {
    var r := [x] + s;
    forall i, j | 0 <= i < j < |r| ensures ValueAtLeast(parse(r[i].value), parse(r[j].value)) {
      assert r[j] == s[j - 1];
      if i > 0 {
        assert r[i] == s[i - 1];
      }
    }
  }

  /** The rows ordered by value, descending, unknown values first. */
  function SortByValue(s: seq<Record>, parse: Parser): (r: seq<Record>)
    ensures multiset(r) == multiset(s)
    ensures SortedByValue(r, parse)
    decreases |s|
  {
    if s == [] then []
    else
      assert s == [s[0]] + s[1..];
      var rest := SortByValue(s[1..], parse);
      InsertKeepsSorted(s[0], rest, parse);
      InsertByValue(s[0], rest, parse)
  }

  /**
   * filter_data_obras: drop the `N°` column, keep the rows the mask admits, sort them, and
   * build the main bucket followed by one bucket per keyword, in the order of KEYWORDS.
   */
  function FilterDataObras(rows: seq<Row>, parse: Parser, lowerBound: int): (r: seq<Bucket>)
    ensures |r| == 1 + |KEYWORDS|
    ensures r[0].name == MAIN_SHEET_NAME
    ensures forall x :: multiset(r[0].rows)[x] == if Keep(parse, lowerBound, x) then multiset(DropNumber(rows))[x] else 0
    ensures SortedByValue(r[0].rows, parse)
    ensures forall k :: 1 <= k < |r| ==>
      && r[k].name == KEYWORDS[k - 1]
      && IsSubsequence(r[k].rows, r[0].rows)
      && forall x :: multiset(r[k].rows)[x] == if KeywordMatch(x.description, KEYWORDS[k - 1]) then multiset(r[0].rows)[x] else 0
  {
    var kept := Select(DropNumber(rows), (x: Record) => Keep(parse, lowerBound, x));
    var sorted := SortByValue(kept, parse);
    var buckets := KeywordBuckets(sorted, KEYWORDS);
    var r := [Bucket(MAIN_SHEET_NAME, sorted)] + buckets;
    assert r[0].rows == sorted;
    assert forall k :: 1 <= k < |r| ==> r[k] == buckets[k - 1];
    r
  }

  /** One bucket per keyword: the rows whose description contains it, in the order of rows. */
  function KeywordBuckets(rows: seq<Record>, keywords: seq<string>): (r: seq<Bucket>)
    ensures |r| == |keywords|
    ensures forall k :: 0 <= k < |r| ==>
      && r[k].name == keywords[k]
      && IsSubsequence(r[k].rows, rows)
      && forall x :: multiset(r[k].rows)[x] == if KeywordMatch(x.description, keywords[k]) then multiset(rows)[x] else 0
  {
    seq(|keywords|, k requires 0 <= k < |keywords| => Bucket(keywords[k], Select(rows, (x: Record) => KeywordMatch(x.description, keywords[k]))))
  }

  /** A row is in the main bucket exactly when it was exported and the mask admits it: unknown values always are. */
  lemma RetainedRows(rows: seq<Row>, parse: Parser, lowerBound: int, x: Record)
    ensures x in FilterDataObras(rows, parse, lowerBound)[0].rows <==>
      x in DropNumber(rows) && (parse(x.value).None? || parse(x.value).value > lowerBound)
  {
    var main := FilterDataObras(rows, parse, lowerBound)[0].rows;
    assert x in main <==> multiset(main)[x] > 0;
  }

  /** In the main bucket, unknown values come first, then known values in non-increasing order. */
  lemma UnknownValuesFirst(rows: seq<Row>, parse: Parser, lowerBound: int, i: int, j: int)
    requires 0 <= i < j < |FilterDataObras(rows, parse, lowerBound)[0].rows|
    ensures var main := FilterDataObras(rows, parse, lowerBound)[0].rows;
      && (parse(main[j].value).None? ==> parse(main[i].value).None?)
      && (parse(main[i].value).Some? && parse(main[j].value).Some? ==> parse(main[i].value).value >= parse(main[j].value).value)
  {
  }

  /**
   * Keyword buckets are not exclusive: a row of the main bucket is in the bucket of every
   * keyword its description contains, and in no other.
   */
  lemma KeywordBucketMembership(rows: seq<Row>, parse: Parser, lowerBound: int, k: int, x: Record)
    requires 0 <= k < |KEYWORDS|
    ensures var r := FilterDataObras(rows, parse, lowerBound);
      x in r[k + 1].rows <==> x in r[0].rows && KeywordMatch(x.description, KEYWORDS[k])
  {
    var r := FilterDataObras(rows, parse, lowerBound);
    assert x in r[k + 1].rows <==> multiset(r[k + 1].rows)[x] > 0;
  }

  /** A subsequence of a sorted list is sorted. */
  lemma {:induction false} SubsequenceSorted(a: seq<Record>, b: seq<Record>, parse: Parser)
    requires IsSubsequence(a, b) && SortedByValue(b, parse)
    ensures SortedByValue(a, parse)
    decreases |b|
  {
    if a != [] {
      assert SortedByValue(b[1..], parse) by {
        forall i, j | 0 <= i < j < |b[1..]| ensures ValueAtLeast(parse(b[1..][i].value), parse(b[1..][j].value)) {
          assert b[1..][i] == b[i + 1] && b[1..][j] == b[j + 1];
        }
      }
      if a[0] == b[0] && IsSubsequence(a[1..], b[1..]) {
        SubsequenceSorted(a[1..], b[1..], parse);
        SubsequenceMembers(a[1..], b[1..]);
        HeadPrecedesRest(b, parse);
        forall i, j | 0 <= i < j < |a| ensures ValueAtLeast(parse(a[i].value), parse(a[j].value)) {
          assert a[j] == a[1..][j - 1];
          if i > 0 {
            assert a[i] == a[1..][i - 1];
          }
        }
      } else {
        SubsequenceSorted(a, b[1..], parse);
      }
    }
  }

  /** Every keyword bucket keeps the main bucket's order, so it is sorted by value as well. */
  lemma KeywordBucketsSorted(rows: seq<Row>, parse: Parser, lowerBound: int, k: int)
    requires 1 <= k <= |KEYWORDS|
    ensures SortedByValue(FilterDataObras(rows, parse, lowerBound)[k].rows, parse)
  {
    var r := FilterDataObras(rows, parse, lowerBound);
    SubsequenceSorted(r[k].rows, r[0].rows, parse);
  }
}
