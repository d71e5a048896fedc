/**
 * Incremental merge of fetched buckets into the sheets of the previous report
 * (prepare_data_for_excel).
 */
module Merge {
  import opened Wrappers
  import opened Records

  /** The Nomenclatura keys present in a list of rows. */
  function Keys(s: seq<Record>): set<string>
  {
    set r | r in s :: r.key
  }

  /** No two rows share a key. */
  ghost predicate UniqueKeys(s: seq<Record>)
  {
    forall i, j :: 0 <= i < j < |s| ==> s[i].key != s[j].key
  }

  /**
   * The rows of a bucket whose sheet exists in the previous report: the existing rows,
   * unchanged and in order, followed by the fetched rows whose key is not among theirs,
   * in fetched order.
   */
  function MergeRows(existing: seq<Record>, fetched: seq<Record>): (r: seq<Record>)
    ensures |existing| <= |r| && r[..|existing|] == existing
    ensures IsSubsequence(r[|existing|..], fetched)
    ensures forall x :: multiset(r[|existing|..])[x] == if x.key in Keys(existing) then 0 else multiset(fetched)[x]
  {
    var added := Select(fetched, (x: Record) => x.key !in Keys(existing));
    assert (existing + added)[|existing|..] == added;
    existing + added
  }

  /** The merged rows carry exactly the keys of the existing and the fetched rows. */
  lemma MergeKeys(existing: seq<Record>, fetched: seq<Record>)
    ensures Keys(MergeRows(existing, fetched)) == Keys(existing) + Keys(fetched)
  {
    var r := MergeRows(existing, fetched);
    var added := r[|existing|..];
    assert r == existing + added;
    forall k | k in Keys(fetched) ensures k in Keys(r) {
      var x :| x in fetched && x.key == k;
      if k !in Keys(existing) {
        assert multiset(added)[x] == multiset(fetched)[x] > 0;
        assert x in added;
      }
    }
    forall k | k in Keys(r) ensures k in Keys(existing) + Keys(fetched) {
      var x :| x in r && x.key == k;
      if x !in existing {
        assert x in added;
        assert multiset(added)[x] > 0;
      }
    }
  }

  /** When every fetched key is already present, the merge adds nothing. */
  lemma MergeNothingNew(existing: seq<Record>, fetched: seq<Record>)
    requires Keys(fetched) <= Keys(existing)
    ensures MergeRows(existing, fetched) == existing
  {
    var p := (x: Record) => x.key !in Keys(existing);
    forall x | x in fetched ensures !p(x) {
      assert x.key in Keys(fetched);
    }
    SelectNone(fetched, p);
  }

  /**
   * Re-running the merge on a report that already holds the merged rows, in any order,
   * with the same fetched rows, leaves it unchanged.
   */
  lemma RerunAddsNothing(existing: seq<Record>, fetched: seq<Record>, saved: seq<Record>)
    requires multiset(saved) == multiset(MergeRows(existing, fetched))
    ensures MergeRows(saved, fetched) == saved
  {
    MergeKeys(existing, fetched);
    var merged := MergeRows(existing, fetched);
    forall k | k in Keys(fetched) ensures k in Keys(saved) {
      var x :| x in merged && x.key == k;
      assert x in multiset(saved);
    }
    MergeNothingNew(saved, fetched);
  }

  /** Merging is idempotent: merge(merge(existing, fetched), fetched) == merge(existing, fetched). */
  lemma MergeIdempotent(existing: seq<Record>, fetched: seq<Record>)
    ensures MergeRows(MergeRows(existing, fetched), fetched) == MergeRows(existing, fetched)
  {
    RerunAddsNothing(existing, fetched, MergeRows(existing, fetched));
  }

  /** A subsequence of rows with distinct keys has distinct keys. */
  lemma {:induction false} SubsequenceUniqueKeys(a: seq<Record>, b: seq<Record>)
    requires IsSubsequence(a, b) && UniqueKeys(b)
    ensures UniqueKeys(a)
    decreases |b|
  {
    if a != [] {
      assert UniqueKeys(b[1..]) by {
        forall i, j | 0 <= i < j < |b[1..]| ensures b[1..][i].key != b[1..][j].key {
          assert b[1..][i] == b[i + 1] && b[1..][j] == b[j + 1];
        }
      }
      if a[0] == b[0] && IsSubsequence(a[1..], b[1..]) {
        SubsequenceUniqueKeys(a[1..], b[1..]);
        SubsequenceMembers(a[1..], b[1..]);
        forall i, j | 0 <= i < j < |a| ensures a[i].key != a[j].key {
          assert a[j] == a[1..][j - 1];
          if i == 0 {
            assert a[j] in a[1..];
            assert a[j] in b[1..];
            var k :| 0 <= k < |b[1..]| && b[1..][k] == a[j];
            assert b[k + 1] == a[j];
          } else {
            assert a[i] == a[1..][i - 1];
          }
        }
      } else {
        SubsequenceUniqueKeys(a, b[1..]);
      }
    }
  }

  /** Existing rows with distinct keys and fetched rows with distinct keys merge into rows with distinct keys. */
  lemma MergeKeepsKeysUnique(existing: seq<Record>, fetched: seq<Record>)
    requires UniqueKeys(existing) && UniqueKeys(fetched)
    ensures UniqueKeys(MergeRows(existing, fetched))
  {
    var r := MergeRows(existing, fetched);
    var n := |existing|;
    var added := r[n..];
    SubsequenceUniqueKeys(added, fetched);
    forall i, j | 0 <= i < j < |r| ensures r[i].key != r[j].key {
      if j >= n {
        assert r[j] == added[j - n];
        assert multiset(added)[r[j]] > 0;
        if i < n {
          assert r[i] == existing[i];
          assert r[i].key in Keys(existing);
        } else {
          assert r[i] == added[i - n];
        }
      } else {
        assert r[i] == existing[i] && r[j] == existing[j];
      }
    }
  }

  /** The new value of one entry of the bucket map, given the sheets of the previous report. */
  function MergeEntry(b: Bucket, sheets: map<string, seq<Record>>): Bucket
  {
    var sheetName := Capitalize(b.name);
    if sheetName in sheets then Bucket(b.name, MergeRows(sheets[sheetName], b.rows)) else b
  }

  /** The whole bucket map after the merge; None stands for a report file that does not exist. */
  function MergeAll(bs: seq<Bucket>, prior: Option<map<string, seq<Record>>>): seq<Bucket>
  {
    if prior.None? then bs else seq(|bs|, i requires 0 <= i < |bs| => MergeEntry(bs[i], prior.value))
  }

  /**
   * What the merge does to entry i: its name stays; without a previous report or without a
   * sheet of its capitalized name it is unchanged; otherwise its rows are the merged rows.
   */
  lemma MergeAllEntry(bs: seq<Bucket>, prior: Option<map<string, seq<Record>>>, i: int)
    requires 0 <= i < |bs|
    ensures |MergeAll(bs, prior)| == |bs| && MergeAll(bs, prior)[i].name == bs[i].name
    ensures prior.None? || Capitalize(bs[i].name) !in prior.value ==> MergeAll(bs, prior)[i] == bs[i]
    ensures prior.Some? && Capitalize(bs[i].name) in prior.value ==>
      MergeAll(bs, prior)[i].rows == MergeRows(prior.value[Capitalize(bs[i].name)], bs[i].rows)
  {
  }

  /** The ordered bucket map (sheet name to rows) that the program builds and then updates in place. */
  class SheetMap {
    var entries: seq<Bucket>

    constructor (entries: seq<Bucket>)
      ensures this.entries == entries
    {
      this.entries := entries;
    }

    /** prepare_data_for_excel: merge each entry whose sheet exists in the previous report. */
    method PrepareForExcel(prior: Option<map<string, seq<Record>>>)
      modifies this
      ensures entries == MergeAll(old(entries), prior)
    {
      if prior.Some? {
        var sheets := prior.value;
        var i := 0;
        while i < |entries|
          invariant 0 <= i <= |entries| == |old(entries)|
          invariant forall k :: 0 <= k < i ==> entries[k] == MergeEntry(old(entries)[k], sheets)
          invariant forall k :: i <= k < |entries| ==> entries[k] == old(entries)[k]
        {
          var sheetName := Capitalize(entries[i].name);
          if sheetName in sheets {
            var existing := sheets[sheetName];
            entries := entries[i := Bucket(entries[i].name, MergeRows(existing, entries[i].rows))];
          }
          assert entries[i] == MergeEntry(old(entries)[i], sheets);
          i := i + 1;
        }
      }
    }
  }
}
