/** The selection the app shows: the ranked rows whose length lies in the chosen range,
 *  highest efficiency first, at most one hundred of them. */
module Selection {
  import opened Seqs
  import opened Ranker

  /** The number of rows `head` keeps. */
  const TopN: nat := 100

  /** The row test "No. Days Off lies in [lo, hi]". */
  function InLengthRange(lo: int, hi: int): (test: Ranked -> bool)
  {
    (r: Ranked) => lo <= r.numDaysOff <= hi
  }

  /** Efficiencies never increase along `s`. */
  predicate Descending(s: seq<Ranked>)
  {
    forall i, j :: 0 <= i < j < |s| ==> RatioLe(s[j].efficiency, s[i].efficiency)
  }

  /** Every efficiency of `s` has a positive denominator, so quotients compare correctly. */
  predicate PositiveLeaves(s: seq<Ranked>)
  {
    forall i :: 0 <= i < |s| ==> s[i].efficiency.den > 0
  }

  /** `x` placed before the first row of `s` whose efficiency does not exceed its own. */
  function Insert(x: Ranked, s: seq<Ranked>): (r: seq<Ranked>)
    ensures multiset(r) == multiset(s) + multiset{x}
  {
    if s == [] then [x]
    else if RatioLe(s[0].efficiency, x.efficiency) then [x] + s
    else
      assert s == [s[0]] + s[1..];
      [s[0]] + Insert(x, s[1..])
  }

  /** `sort_values(by='Days Off per Leave', ascending=False)`: the rows reordered by
   *  efficiency, highest first. */
  function SortDescending(s: seq<Ranked>): (r: seq<Ranked>)
    ensures multiset(r) == multiset(s)
  {
    if s == [] then []
    else
      assert s == [s[0]] + s[1..];
      Insert(s[0], SortDescending(s[1..]))
  }

  /** A row at least as efficient as every row of a descending list can go in front of it. */
  lemma ConsDescending(x: Ranked, s: seq<Ranked>)
    requires Descending(s) && forall j :: 0 <= j < |s| ==> RatioLe(s[j].efficiency, x.efficiency)
    ensures Descending([x] + s)
  {
    var r := [x] + s;
    forall i, j | 0 <= i < j < |r|
      ensures RatioLe(r[j].efficiency, r[i].efficiency)
    {
      assert r[j] == s[j - 1];
      if i > 0 {
        assert r[i] == s[i - 1];
      }
    }
  }

  /** Inserting into a descending list keeps it descending. */
  lemma {:induction false} InsertDescending(x: Ranked, s: seq<Ranked>)
    requires x.efficiency.den > 0 && PositiveLeaves(s) && Descending(s)
    ensures Descending(Insert(x, s))
  {
    if s == [] {
    } else if RatioLe(s[0].efficiency, x.efficiency) {
      forall j | 1 <= j < |s|
        ensures RatioLe(s[j].efficiency, x.efficiency)
      {
        RatioLeTrans(s[j].efficiency, s[0].efficiency, x.efficiency);
      }
      ConsDescending(x, s);
    } else {
      var t := Insert(x, s[1..]);
      InsertDescending(x, s[1..]);
      forall j | 0 <= j < |t|
        ensures RatioLe(t[j].efficiency, s[0].efficiency)
      {
        assert t[j] in multiset(s[1..]) + multiset{x};
        if t[j] != x {
          var k :| 0 <= k < |s[1..]| && s[1..][k] == t[j];
          assert s[k + 1] == t[j];
        }
      }
      ConsDescending(s[0], t);
    }
  }

  /** The sort puts the rows in descending order of efficiency. */
  lemma {:induction false} SortDescendingSorted(s: seq<Ranked>)
    requires PositiveLeaves(s)
    ensures Descending(SortDescending(s))
  {
    if s != [] {
      SortDescendingSorted(s[1..]);
      var t := SortDescending(s[1..]);
      forall i | 0 <= i < |t|
        ensures t[i].efficiency.den > 0
      {
        assert t[i] in multiset(s[1..]);
      }
      InsertDescending(s[0], t);
    }
  }

  /** Lines 101-102: keep the rows of length [lo, hi], sort them by efficiency descending and
   *  keep the first `TopN`. */
  function SelectTop(ranked: seq<Ranked>, lo: int, hi: int): (sel: seq<Ranked>)
    ensures |sel| <= TopN
  {
    Head(SortDescending(Filter(ranked, InLengthRange(lo, hi))))
  }

  /** `head(100)`: the first `TopN` rows, or all of them when there are fewer. */
  function Head(s: seq<Ranked>): (h: seq<Ranked>)
    ensures |h| == if |s| <= TopN then |s| else TopN
    ensures forall i :: 0 <= i < |h| ==> h[i] == s[i]
  {
    if |s| <= TopN then s else s[..TopN]
  }

  /** The rows `head` keeps occur in the list no more often than there. */
  lemma HeadIsSub(s: seq<Ranked>)
    ensures multiset(Head(s)) <= multiset(s)
  {
    if |s| > TopN {
      assert s == s[..TopN] + s[TopN..];
    }
  }

  /** Rows drawn from the in-range rows are ranked rows of length in [lo, hi]. */
  lemma SubOfInRange(ranked: seq<Ranked>, lo: int, hi: int, t: seq<Ranked>)
    requires multiset(t) <= multiset(Filter(ranked, InLengthRange(lo, hi)))
    ensures multiset(t) <= multiset(ranked)
    ensures forall i :: 0 <= i < |t| ==> t[i] in ranked && lo <= t[i].numDaysOff <= hi
  {
    FilterMultiset(ranked, InLengthRange(lo, hi));
    forall i | 0 <= i < |t|
      ensures t[i] in ranked && lo <= t[i].numDaysOff <= hi
    {
      assert t[i] in multiset(t);
    }
  }

  /** The in-range rows, with their efficiencies' denominators still positive. */
  lemma InRangeRows(ranked: seq<Ranked>, lo: int, hi: int)
    requires PositiveLeaves(ranked)
    ensures PositiveLeaves(Filter(ranked, InLengthRange(lo, hi)))
    ensures multiset(Filter(ranked, InLengthRange(lo, hi))) <= multiset(ranked)
  {
    FilterMultiset(ranked, InLengthRange(lo, hi));
  }

  /** The selection keeps all in-range rows when there are at most `TopN`, and `TopN` of them
   *  otherwise. */
  lemma SelectTopSize(ranked: seq<Ranked>, lo: int, hi: int)
    ensures var n := |Filter(ranked, InLengthRange(lo, hi))|;
            |SelectTop(ranked, lo, hi)| == if n <= TopN then n else TopN
  {
    var sorted := SortDescending(Filter(ranked, InLengthRange(lo, hi)));
    assert |sorted| == |multiset(sorted)|;
  }

  /** Each selected row is a ranked row of length in [lo, hi], and no row is selected more
   *  often than it is ranked. */
  lemma SelectTopSubset(ranked: seq<Ranked>, lo: int, hi: int)
    ensures multiset(SelectTop(ranked, lo, hi)) <= multiset(ranked)
    ensures forall i :: 0 <= i < |SelectTop(ranked, lo, hi)| ==>
              SelectTop(ranked, lo, hi)[i] in ranked && lo <= SelectTop(ranked, lo, hi)[i].numDaysOff <= hi
  {
    HeadIsSub(SortDescending(Filter(ranked, InLengthRange(lo, hi))));
    SubOfInRange(ranked, lo, hi, SelectTop(ranked, lo, hi));
  }

  /** Efficiencies never increase along the selection. */
  lemma SelectTopDescending(ranked: seq<Ranked>, lo: int, hi: int)
    requires PositiveLeaves(ranked)
    ensures Descending(SelectTop(ranked, lo, hi))
  {
    InRangeRows(ranked, lo, hi);
    SortDescendingSorted(Filter(ranked, InLengthRange(lo, hi)));
  }

  /** The selection is the top of the in-range rows: every in-range row left out is no more
   *  efficient than any row kept. */
  lemma SelectTopIsTop(ranked: seq<Ranked>, lo: int, hi: int, r: Ranked)
    requires PositiveLeaves(ranked)
    requires r in ranked && lo <= r.numDaysOff <= hi && r !in SelectTop(ranked, lo, hi)
    ensures forall i :: 0 <= i < |SelectTop(ranked, lo, hi)| ==>
              RatioLe(r.efficiency, SelectTop(ranked, lo, hi)[i].efficiency)
  {
    var f := Filter(ranked, InLengthRange(lo, hi));
    InRangeRows(ranked, lo, hi);
    FilterMultiset(ranked, InLengthRange(lo, hi));
    assert r in f;
    SortDescendingSorted(f);
    BelowTop(SortDescending(f), r);
  }

  /** In a descending list, a row left out of the first `TopN` is no more efficient than any of
   *  them. */
  lemma BelowTop(sorted: seq<Ranked>, r: Ranked)
    requires Descending(sorted) && r in multiset(sorted)
    requires r !in Head(sorted)
    ensures forall i :: 0 <= i < |sorted| && i < TopN ==> RatioLe(r.efficiency, sorted[i].efficiency)
  {
    var j :| 0 <= j < |sorted| && sorted[j] == r;
    assert |sorted| > TopN && j >= TopN;
  }

  /** No two rows of `s` share a Start Date and a leave count. */
  predicate DistinctKeys(s: seq<Ranked>)
  {
    forall i, j :: 0 <= i < j < |s| ==> RankedKey(s[i]) != RankedKey(s[j])
  }

  /** A row listed at two positions occurs at least twice. */
  lemma ListedTwice(t: seq<Ranked>, i: int, j: int)
    requires 0 <= i < j < |t| && t[i] == t[j]
    ensures multiset(t)[t[i]] >= 2
  {
    assert t == t[..j] + [t[j]] + t[j + 1..];
    assert t[..j][i] == t[i];
  }

  /** In a list with distinct keys every row occurs at most once. */
  lemma {:induction false} ListedOnce(s: seq<Ranked>, x: Ranked)
    requires DistinctKeys(s)
    ensures multiset(s)[x] <= 1
  {
    if s != [] {
      assert s == [s[0]] + s[1..];
      ListedOnce(s[1..], x);
      if s[0] == x {
        forall k | 0 <= k < |s[1..]|
          ensures s[1..][k] != x
        {
          assert RankedKey(s[0]) != RankedKey(s[k + 1]);
        }
      }
    }
  }

  /** Rows drawn from a list with distinct keys, none more often than it is listed, have
   *  distinct keys. */
  lemma DistinctKeysOfSub(s: seq<Ranked>, t: seq<Ranked>)
    requires DistinctKeys(s) && multiset(t) <= multiset(s)
    ensures DistinctKeys(t)
  {
    forall i, j | 0 <= i < j < |t|
      ensures RankedKey(t[i]) != RankedKey(t[j])
    {
      assert t[i] in multiset(s) && t[j] in multiset(s);
      var a :| 0 <= a < |s| && s[a] == t[i];
      var b :| 0 <= b < |s| && s[b] == t[j];
      if t[i] == t[j] {
        ListedTwice(t, i, j);
        ListedOnce(s, t[i]);
      } else {
        assert a != b;
      }
    }
  }

  /** The selection never shows two rows with the same Start Date and leave count when the
   *  ranked table has none. */
  lemma SelectTopDistinct(ranked: seq<Ranked>, lo: int, hi: int)
    requires DistinctKeys(ranked)
    ensures DistinctKeys(SelectTop(ranked, lo, hi))
  {
    SelectTopSubset(ranked, lo, hi);
    DistinctKeysOfSub(ranked, SelectTop(ranked, lo, hi));
  }
}
