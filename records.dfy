/**
 * The rows of an export, the named buckets (one per spreadsheet sheet) and the text
 * helpers the program uses on them.
 */
module Records {

  /**
   * One announcement, the nine columns that remain once the `N°` column is dropped. The
   * publication timestamp is held as its parsed value (minutes since an epoch); the
   * estimated value stays the text the portal exports. An empty cell is the empty string.
   */
  datatype Record = Record(
    entity: string,
    published: int,
    key: string,          // Nomenclatura: identifies the announcement
    restartedFrom: string,
    category: string,
    description: string,
    value: string,        // Valor Referencial / Valor Estimado, as text
    currency: string,
    version: string)

  /** A row of an export as fetched, still carrying its `N°` running number. */
  datatype Row = Row(number: int, record: Record)

  /** A named classification of records; one bucket becomes one sheet. */
  datatype Bucket = Bucket(name: string, rows: seq<Record>)

  const MAIN_SHEET_NAME := "Data filtrada"
  const KEYWORDS: seq<string> := ["UNIVERSIDAD", "HOSPITAL", "COLEGIO"]
  const KEYWORDS_VIDRIOS: seq<string> := ["VENTANA", "MAMPARA", "MURO CORTINA", "VIDRIO"]

  /** Dropping the `N°` column keeps every row, in order, without its number. */
  function DropNumber(rows: seq<Row>): (r: seq<Record>)
    ensures |r| == |rows| && forall i :: 0 <= i < |rows| ==> r[i] == rows[i].record
  {
    seq(|rows|, i requires 0 <= i < |rows| => rows[i].record)
  }

  // ASCII case mapping; see README for what this leaves out.

  function Upper(c: char): (u: char)
    ensures 'a' <= c <= 'z' ==> 'A' <= u <= 'Z' && u as int == c as int - 32
    ensures !('a' <= c <= 'z') ==> u == c
  {
    if 'a' <= c <= 'z' then (c as int - 32) as char else c
  }

  function Lower(c: char): (l: char)
    ensures 'A' <= c <= 'Z' ==> 'a' <= l <= 'z' && l as int == c as int + 32
    ensures !('A' <= c <= 'Z') ==> l == c
  {
    if 'A' <= c <= 'Z' then (c as int + 32) as char else c
  }

  function UpperString(s: string): string
  {
    seq(|s|, i requires 0 <= i < |s| => Upper(s[i]))
  }

  function LowerString(s: string): string
  {
    seq(|s|, i requires 0 <= i < |s| => Lower(s[i]))
  }

  /** str.capitalize: the first character upper-cased, the rest lower-cased. */
  function Capitalize(s: string): (r: string)
    ensures |r| == |s|
    ensures s != [] ==> r[0] == Upper(s[0]) && forall i :: 1 <= i < |s| ==> r[i] == Lower(s[i])
  {
    if s == [] then [] else [Upper(s[0])] + LowerString(s[1..])
  }

  /** needle occurs in hay as a contiguous piece. */
  predicate Contains(hay: string, needle: string)
    decreases |hay|
  {
    needle <= hay || (hay != [] && Contains(hay[1..], needle))
  }

  /** needle starts at position i of hay. */
  predicate OccursAt(hay: string, needle: string, i: int)
  {
    0 <= i <= |hay| - |needle| && hay[i..i + |needle|] == needle
  }

  /** Contains holds exactly when needle starts at some position of hay. */
  lemma ContainsAt(hay: string, needle: string)
    ensures Contains(hay, needle) <==> exists i :: OccursAt(hay, needle, i)
  {
    if Contains(hay, needle) {
      ContainsOccurs(hay, needle);
    }
    if exists i :: OccursAt(hay, needle, i) {
      var i :| OccursAt(hay, needle, i);
      OccursContains(hay, needle, i);
    }
  }

  lemma {:induction false} ContainsOccurs(hay: string, needle: string)
    requires Contains(hay, needle)
    ensures exists i :: OccursAt(hay, needle, i)
    decreases |hay|
  {
    if needle <= hay {
      assert OccursAt(hay, needle, 0);
    } else {
      ContainsOccurs(hay[1..], needle);
      var i :| OccursAt(hay[1..], needle, i);
      assert hay[1..][i..i + |needle|] == hay[i + 1..i + 1 + |needle|];
      assert OccursAt(hay, needle, i + 1);
    }
  }

  lemma {:induction false} OccursContains(hay: string, needle: string, i: int)
    requires OccursAt(hay, needle, i)
    ensures Contains(hay, needle)
    decreases i
  {
    if i == 0 {
      assert needle <= hay;
    } else {
      assert hay[1..][i - 1..i - 1 + |needle|] == hay[i..i + |needle|];
      OccursContains(hay[1..], needle, i - 1);
    }
  }

  /** str.contains(keyword, case=False) on a description (ASCII letters compared without case). */
  predicate KeywordMatch(description: string, keyword: string)
  {
    Contains(UpperString(description), UpperString(keyword))
  }

  /**
   * The elements of s that satisfy p, in their order in s (a pandas boolean mask).
   * Each element satisfying p is kept as often as it occurs; no other element is kept.
   */
  function Select<T(!new)>(s: seq<T>, p: T -> bool): (r: seq<T>)
    ensures forall x :: multiset(r)[x] == if p(x) then multiset(s)[x] else 0
    ensures IsSubsequence(r, s)
    decreases |s|
  {
    if s == [] then []
    else
      assert s == [s[0]] + s[1..];
      if p(s[0]) then [s[0]] + Select(s[1..], p) else Select(s[1..], p)
  }

  /** a is obtained from b by deleting elements: a keeps b's order. */
  ghost predicate IsSubsequence<T>(a: seq<T>, b: seq<T>)
    decreases |b|
  {
    a == [] || (b != [] && ((a[0] == b[0] && IsSubsequence(a[1..], b[1..])) || IsSubsequence(a, b[1..])))
  }

  /** Selecting with a predicate no element satisfies gives nothing. */
  lemma SelectNone<T(!new)>(s: seq<T>, p: T -> bool)
    requires forall x :: x in s ==> !p(x)
    ensures Select(s, p) == []
  {
  }

  /** A subsequence draws its elements from the sequence it was cut from. */
  lemma {:induction false} SubsequenceMembers<T>(a: seq<T>, b: seq<T>)
    requires IsSubsequence(a, b)
    ensures forall x :: x in a ==> x in b
    decreases |b|
  {
    if a != [] {
      if a[0] == b[0] && IsSubsequence(a[1..], b[1..]) {
        SubsequenceMembers(a[1..], b[1..]);
        assert forall x :: x in a ==> x == a[0] || x in a[1..];
      } else {
        SubsequenceMembers(a, b[1..]);
      }
    }
  }
}
