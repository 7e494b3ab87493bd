/** Ranker: `postprocess_leavedates`. Scores each window by days off per leave day, drops the
 *  windows that yield no more days off than the leave they spend, keeps one row per
 *  (Start Date, Leaves Used) pair by column-wise maximum, and attaches the Period label. */
module Ranker {
  import opened Calendar
  import opened Enumerator
  import opened Seqs

  /** The quotient num / den, kept exact; compared by cross-multiplication, which orders
   *  quotients correctly when both denominators are positive. */
  datatype Ratio = Ratio(num: int, den: int)

  predicate RatioLt(a: Ratio, b: Ratio)
  {
    a.num * b.den < b.num * a.den
  }

  predicate RatioLe(a: Ratio, b: Ratio)
  {
    a.num * b.den <= b.num * a.den
  }

  /** The quotient is greater than 1 (for a positive denominator). */
  predicate ExceedsOne(r: Ratio)
  {
    r.num > r.den
  }

  /** Python's `<` on strings: lexicographic by code point, a proper prefix first. */
  predicate StrLt(a: string, b: string)
    decreases |a|
  {
    |b| > 0 && (|a| == 0 || a[0] < b[0] || (a[0] == b[0] && StrLt(a[1..], b[1..])))
  }

  /** Python's `<` on lists of strings: lexicographic by element, a proper prefix first. */
  predicate ListLt(a: seq<string>, b: seq<string>)
    decreases |a|
  {
    |b| > 0 && (|a| == 0 || StrLt(a[0], b[0]) || (a[0] == b[0] && ListLt(a[1..], b[1..])))
  }

  /** A window after the column assignments: its dates formatted, its efficiency, and its
   *  first and last dates. */
  datatype Scored = Scored(daysOff: seq<string>, leavesUsed: int, numDaysOff: int,
                           efficiency: Ratio, startDate: Date, endDate: Date)

  /** A row of the grouped table, after `reset_index` and the Period column. */
  datatype Ranked = Ranked(startDate: Date, leavesUsed: int, numDaysOff: int, efficiency: Ratio,
                           endDate: Date, daysOff: seq<string>, period: string)

  /** Each date of a list, formatted. */
  function FormatDates(ds: seq<Date>, fmt: Date -> string): (ss: seq<string>)
    ensures |ss| == |ds|
    ensures forall i :: 0 <= i < |ds| ==> ss[i] == fmt(ds[i])
  {
    seq(|ds|, i requires 0 <= i < |ds| => fmt(ds[i]))
  }

  /** The columns `postprocess_leavedates` adds to one window before filtering. */
  function Score(w: Window, fmt: Date -> string): (r: Scored)
    requires |w.daysOff| > 0
    ensures r.startDate == w.daysOff[0] && r.endDate == w.daysOff[|w.daysOff| - 1]
    ensures |r.daysOff| == |w.daysOff| && r.daysOff[0] == fmt(r.startDate) && r.daysOff[|r.daysOff| - 1] == fmt(r.endDate)
    ensures forall i :: 0 <= i < |w.daysOff| ==> r.daysOff[i] == fmt(w.daysOff[i])
    ensures r.leavesUsed == w.leavesUsed && r.numDaysOff == w.numDaysOff
    ensures r.efficiency == Ratio(w.numDaysOff, w.leavesUsed)
  {
    Scored(FormatDates(w.daysOff, fmt), w.leavesUsed, w.numDaysOff, Ratio(w.numDaysOff, w.leavesUsed),
           w.daysOff[0], w.daysOff[|w.daysOff| - 1])
  }

  /** Lines 62-65 applied to every window: one scored row per window, in order. */
  function ScoreAll(ws: seq<Window>, fmt: Date -> string): (rs: seq<Scored>)
    requires forall i :: 0 <= i < |ws| ==> |ws[i].daysOff| > 0
    ensures |rs| == |ws|
    ensures forall i :: 0 <= i < |ws| ==> rs[i] == Score(ws[i], fmt)
  {
    seq(|ws|, i requires 0 <= i < |ws| => Score(ws[i], fmt))
  }

  /** The `groupby` key of a row. */
  function KeyOf(r: Scored): (k: (Date, int))
  {
    (r.startDate, r.leavesUsed)
  }

  /** The order `groupby` lists its groups in: by Start Date, then by Leaves Used. */
  predicate KeyLt(a: (Date, int), b: (Date, int))
  {
    a.0 < b.0 || (a.0 == b.0 && a.1 < b.1)
  }

  /** The position of a row with the least key. */
  function MinKeyIndex(rows: seq<Scored>): (m: nat)
    requires |rows| > 0
    ensures m < |rows|
    ensures forall i :: 0 <= i < |rows| ==> !KeyLt(KeyOf(rows[i]), KeyOf(rows[m]))
  {
    if |rows| == 1 then 0
    else
      var m := MinKeyIndex(rows[1..]);
      if KeyLt(KeyOf(rows[1..][m]), KeyOf(rows[0])) then m + 1 else 0
  }

  /** Column maximum of No. Days Off. */
  function MaxDays(g: seq<Scored>): (d: int)
    requires |g| > 0
    ensures exists i :: 0 <= i < |g| && d == g[i].numDaysOff
    ensures forall i :: 0 <= i < |g| ==> g[i].numDaysOff <= d
  {
    if |g| == 1 then g[0].numDaysOff
    else
      var d := MaxDays(g[1..]);
      assert forall i :: 1 <= i < |g| ==> g[i] == g[1..][i - 1];
      if g[0].numDaysOff < d then d else g[0].numDaysOff
  }

  /** Column maximum of End Date. */
  function MaxEnd(g: seq<Scored>): (d: Date)
    requires |g| > 0
    ensures exists i :: 0 <= i < |g| && d == g[i].endDate
    ensures forall i :: 0 <= i < |g| ==> g[i].endDate <= d
  {
    if |g| == 1 then g[0].endDate
    else
      var d := MaxEnd(g[1..]);
      assert forall i :: 1 <= i < |g| ==> g[i] == g[1..][i - 1];
      if g[0].endDate < d then d else g[0].endDate
  }

  /** Column maximum of Days off per Leave: one of the group's efficiencies; when every row
   *  spends leave, no other row's exceeds it (`MaxEffIsMax`). */
  function MaxEff(g: seq<Scored>): (r: Ratio)
    requires |g| > 0
    ensures exists i :: 0 <= i < |g| && r == g[i].efficiency
  {
    if |g| == 1 then g[0].efficiency
    else
      var r := MaxEff(g[1..]);
      assert forall i :: 1 <= i < |g| ==> g[i] == g[1..][i - 1];
      if RatioLt(g[0].efficiency, r) then r else g[0].efficiency
  }

  /** Column maximum of the formatted Days Off lists, under Python's list order. */
  function MaxList(g: seq<Scored>): (l: seq<string>)
    requires |g| > 0
    ensures exists i :: 0 <= i < |g| && l == g[i].daysOff
    ensures forall i :: 0 <= i < |g| ==> !ListLt(l, g[i].daysOff)
  {
    if |g| == 1 then
      ListLtIrreflexive(g[0].daysOff);
      g[0].daysOff
    else
      var l := MaxList(g[1..]);
      assert forall i :: 1 <= i < |g| ==> g[i] == g[1..][i - 1];
      MaxListStep(g, l);
      if ListLt(g[0].daysOff, l) then l else g[0].daysOff
  }

  /** The Period label: the first and the last formatted date of a list. */
  function Period(days: seq<string>): (p: string)
    requires |days| > 0
    ensures |p| == |days[0]| + 3 + |days[|days| - 1]|
    ensures p[..|days[0]|] == days[0] && p[|days[0]|..|days[0]| + 3] == " - "
    ensures p[|p| - |days[|days| - 1]|..] == days[|days| - 1]
  {
    var p := days[0] + " - " + days[|days| - 1];
    assert p[..|days[0]|] == days[0];
    assert p[|days[0]|..|days[0]| + 3] == " - ";
    assert p[|p| - |days[|days| - 1]|..] == days[|days| - 1];
    p
  }

  /** One row of the grouped table: the key, then the maximum of every other column. */
  function Aggregate(key: (Date, int), g: seq<Scored>): (r: Ranked)
    requires |g| > 0 && forall i :: 0 <= i < |g| ==> |g[i].daysOff| > 0
    ensures r.startDate == key.0 && r.leavesUsed == key.1
  {
    Ranked(key.0, key.1, MaxDays(g), MaxEff(g), MaxEnd(g), MaxList(g), Period(MaxList(g)))
  }

  /** The grouped row takes, column by column, a value some row of the group holds, and no row
   *  of the group exceeds it in Days Off, End Date or the Days Off list, nor in Days off per
   *  Leave when every row of the group spends leave. */
  lemma AggregateIsColumnMax(key: (Date, int), g: seq<Scored>)
    requires |g| > 0 && forall i :: 0 <= i < |g| ==> |g[i].daysOff| > 0
    ensures forall i :: 0 <= i < |g| ==>
              g[i].numDaysOff <= Aggregate(key, g).numDaysOff && g[i].endDate <= Aggregate(key, g).endDate
              && !ListLt(Aggregate(key, g).daysOff, g[i].daysOff)
    ensures (forall i :: 0 <= i < |g| ==> g[i].efficiency.den > 0) ==>
              forall i :: 0 <= i < |g| ==> RatioLe(g[i].efficiency, Aggregate(key, g).efficiency)
    ensures exists i :: 0 <= i < |g| && Aggregate(key, g).numDaysOff == g[i].numDaysOff
    ensures exists i :: 0 <= i < |g| && Aggregate(key, g).endDate == g[i].endDate
    ensures exists i :: 0 <= i < |g| && Aggregate(key, g).efficiency == g[i].efficiency
    ensures exists i :: 0 <= i < |g| && Aggregate(key, g).daysOff == g[i].daysOff
    ensures |Aggregate(key, g).daysOff| > 0 && Aggregate(key, g).period == Period(Aggregate(key, g).daysOff)
  {
    var i :| 0 <= i < |g| && MaxList(g) == g[i].daysOff;
    if forall j :: 0 <= j < |g| ==> g[j].efficiency.den > 0 {
      MaxEffIsMax(g);
    }
  }

  /** The row test "has key `key`". */
  function KeyIs(key: (Date, int)): (test: Scored -> bool)
  {
    r => KeyOf(r) == key
  }

  /** The row test "has a key other than `key`". */
  function KeyIsNot(key: (Date, int)): (test: Scored -> bool)
  {
    r => KeyOf(r) != key
  }

  /** The rows of `rows` whose key is `key`, in their order. */
  function GroupOf(rows: seq<Scored>, key: (Date, int)): (g: seq<Scored>)
    ensures forall i :: 0 <= i < |g| ==> g[i] in rows && KeyOf(g[i]) == key
  {
    Filter(rows, KeyIs(key))
  }

  /** The rows of `rows` whose key is not `key`, in their order. */
  function OtherGroups(rows: seq<Scored>, key: (Date, int)): (rest: seq<Scored>)
    ensures forall i :: 0 <= i < |rest| ==> rest[i] in rows && KeyOf(rest[i]) != key
  {
    Filter(rows, KeyIsNot(key))
  }

  /** Every input row with key `key` belongs to its group. */
  lemma InGroupOf(rows: seq<Scored>, key: (Date, int), i: int)
    requires 0 <= i < |rows| && KeyOf(rows[i]) == key
    ensures rows[i] in GroupOf(rows, key)
  {
    FilterMultiset(rows, KeyIs(key));
  }

  /** Every input row with another key survives the removal of the group of `key`. */
  lemma InOtherGroups(rows: seq<Scored>, key: (Date, int), i: int)
    requires 0 <= i < |rows| && KeyOf(rows[i]) != key
    ensures rows[i] in OtherGroups(rows, key)
  {
    FilterMultiset(rows, KeyIsNot(key));
  }

  /** Setting aside the rows of one key shortens the table when that key occurs. */
  lemma OtherGroupsShorter(rows: seq<Scored>, key: (Date, int), i: int)
    requires 0 <= i < |rows| && KeyOf(rows[i]) == key
    ensures |OtherGroups(rows, key)| < |rows|
  {
    FilterDrops(rows, KeyIsNot(key), i);
  }

  /** Setting aside the rows of one key leaves the group of every other key unchanged. */
  lemma GroupOfOthers(rows: seq<Scored>, key: (Date, int), key': (Date, int))
    requires key != key'
    ensures GroupOf(OtherGroups(rows, key), key') == GroupOf(rows, key')
  {
    FilterFilter(rows, KeyIsNot(key), KeyIs(key'));
  }

  /** `groupby(['Start Date', 'Leaves Used'])`: each key with the rows that carry it, in key
   *  order; every group is non-empty and made of input rows. */
  function Groups(rows: seq<Scored>): (gs: seq<((Date, int), seq<Scored>)>)
    requires forall i :: 0 <= i < |rows| ==> |rows[i].daysOff| > 0
    ensures |gs| <= |rows|
    ensures forall i :: 0 <= i < |gs| ==>
              |gs[i].1| > 0 && forall t :: 0 <= t < |gs[i].1| ==> |gs[i].1[t].daysOff| > 0
    decreases |rows|
  {
    if rows == [] then []
    else
      var m := MinKeyIndex(rows);
      var key := KeyOf(rows[m]);
      InGroupOf(rows, key, m);
      OtherGroupsShorter(rows, key, m);
      [(key, GroupOf(rows, key))] + Groups(OtherGroups(rows, key))
  }

  /** `groupby(['Start Date', 'Leaves Used']).agg(max)`: one aggregated row per key, in key
   *  order. */
  function GroupMax(rows: seq<Scored>): (out: seq<Ranked>)
    requires forall i :: 0 <= i < |rows| ==> |rows[i].daysOff| > 0
    ensures |out| == |Groups(rows)| <= |rows|
    ensures forall i :: 0 <= i < |out| ==> RankedKey(out[i]) == Groups(rows)[i].0
  {
    var gs := Groups(rows);
    seq(|gs|, i requires 0 <= i < |gs| => Aggregate(gs[i].0, gs[i].1))
  }


  /** The efficiency filter of line 68: rows whose days off per leave exceed 1. */
  function Efficient(rs: seq<Scored>): (r: seq<Scored>)
    ensures |r| <= |rs|
    ensures forall i :: 0 <= i < |r| ==> r[i] in rs && ExceedsOne(r[i].efficiency)
    ensures forall x :: x in rs && ExceedsOne(x.efficiency) ==> x in r
  {
    var p := (x: Scored) => ExceedsOne(x.efficiency);
    FilterMultiset(rs, p);
    Filter(rs, p)
  }

  /** `postprocess_leavedates`. */
  function PostprocessLeavedates(ws: seq<Window>, fmt: Date -> string): (out: seq<Ranked>)
    requires forall i :: 0 <= i < |ws| ==> |ws[i].daysOff| > 0
    ensures |out| <= |ws|
    ensures forall i :: 0 <= i < |out| ==> out[i].numDaysOff > out[i].leavesUsed && ExceedsOne(out[i].efficiency)
    ensures forall i, j :: 0 <= i < j < |out| ==> KeyLt(RankedKey(out[i]), RankedKey(out[j]))
  {
    var cs := Efficient(ScoreAll(ws, fmt));
    EfficientRows(ws, fmt);
    GroupMaxEfficient(cs);
    GroupMaxSorted(cs);
    GroupMax(cs)
  }

  // ---------------------------------------------------------------------------------------
  // Orders

  /** Multiplying both sides of `x <= y` by a non-negative factor keeps the order. */
  lemma MulLe(x: int, y: int, k: int)
    requires x <= y && 0 <= k
    ensures x * k <= y * k
  {
    assert y * k - x * k == (y - x) * k;
  }

  /** A positive factor can be cancelled from both sides of an order. */
  lemma CancelLe(x: int, y: int, k: int)
    requires x * k <= y * k && 0 < k
    ensures x <= y
  {
    if x > y {
      MulLe(y + 1, x, k);
    }
  }

  /** For positive denominators, the quotient order is transitive. */
  lemma RatioLeTrans(a: Ratio, b: Ratio, c: Ratio)
    requires a.den > 0 && b.den > 0 && c.den > 0
    requires RatioLe(a, b) && RatioLe(b, c)
    ensures RatioLe(a, c)
  {
    MulLe(a.num * b.den, b.num * a.den, c.den);
    MulLe(b.num * c.den, c.num * b.den, a.den);
    assert a.num * b.den * c.den == (a.num * c.den) * b.den;
    assert b.num * a.den * c.den == b.num * c.den * a.den;
    assert c.num * b.den * a.den == (c.num * a.den) * b.den;
    CancelLe(a.num * c.den, c.num * a.den, b.den);
  }

  /** `StrLt` is irreflexive. */
  lemma {:induction false} StrLtIrreflexive(a: string)
    ensures !StrLt(a, a)
    decreases |a|
  {
    if |a| > 0 {
      StrLtIrreflexive(a[1..]);
    }
  }

  /** `StrLt` is transitive. */
  lemma {:induction false} StrLtTrans(a: string, b: string, c: string)
    requires StrLt(a, b) && StrLt(b, c)
    ensures StrLt(a, c)
    decreases |a|
  {
    if |a| > 0 && a[0] == b[0] && b[0] == c[0] {
      StrLtTrans(a[1..], b[1..], c[1..]);
    }
  }

  /** Any two strings are equal or ordered one way by `StrLt`. */
  lemma {:induction false} StrLtTotal(a: string, b: string)
    ensures a == b || StrLt(a, b) || StrLt(b, a)
    decreases |a|
  {
    if |a| > 0 && |b| > 0 && a[0] == b[0] {
      StrLtTotal(a[1..], b[1..]);
      if a[1..] == b[1..] {
        assert a == [a[0]] + a[1..] && b == [b[0]] + b[1..];
      }
    }
  }

  /** `ListLt` is irreflexive. */
  lemma {:induction false} ListLtIrreflexive(a: seq<string>)
    ensures !ListLt(a, a)
    decreases |a|
  {
    if |a| > 0 {
      StrLtIrreflexive(a[0]);
      ListLtIrreflexive(a[1..]);
    }
  }

  /** `ListLt` is transitive. */
  lemma {:induction false} ListLtTrans(a: seq<string>, b: seq<string>, c: seq<string>)
    requires ListLt(a, b) && ListLt(b, c)
    ensures ListLt(a, c)
    decreases |a|
  {
    if |a| > 0 {
      if StrLt(a[0], b[0]) && StrLt(b[0], c[0]) {
        StrLtTrans(a[0], b[0], c[0]);
      } else if a[0] == b[0] && b[0] == c[0] {
        ListLtTrans(a[1..], b[1..], c[1..]);
      }
    }
  }

  /** Any two lists of strings are equal or ordered one way by `ListLt`. */
  lemma {:induction false} ListLtTotal(a: seq<string>, b: seq<string>)
    ensures a == b || ListLt(a, b) || ListLt(b, a)
    decreases |a|
  {
    if |a| > 0 && |b| > 0 {
      StrLtTotal(a[0], b[0]);
      if a[0] == b[0] {
        ListLtTotal(a[1..], b[1..]);
        if a[1..] == b[1..] {
          assert a == [a[0]] + a[1..] && b == [b[0]] + b[1..];
        }
      }
    }
  }

  /** Keeping the greater of the first list and the maximum of the rest gives a list that no
   *  list of the group exceeds. */
  lemma MaxListStep(g: seq<Scored>, m: seq<string>)
    requires |g| > 1
    requires forall i :: 1 <= i < |g| ==> !ListLt(m, g[i].daysOff)
    ensures var l := if ListLt(g[0].daysOff, m) then m else g[0].daysOff;
            forall i :: 0 <= i < |g| ==> !ListLt(l, g[i].daysOff)
  {
    var h := g[0].daysOff;
    ListLtIrreflexive(h);
    ListLtIrreflexive(m);
    if ListLt(h, m) {
      if ListLt(m, h) {
        ListLtTrans(m, h, m);
      }
    } else {
      ListLtTotal(h, m);
      forall i | 1 <= i < |g|
        ensures !ListLt(h, g[i].daysOff)
      {
        if ListLt(h, g[i].daysOff) && h != m {
          ListLtTrans(m, h, g[i].daysOff);
        }
      }
    }
  }

  /** A proper prefix comes first in Python's list order, and nothing that is a prefix of a
   *  list comes after it. */
  lemma {:induction false} PrefixListOrder(a: seq<string>, b: seq<string>)
    requires a <= b
    ensures |a| < |b| ==> ListLt(a, b)
    ensures !ListLt(b, a)
    decreases |a|
  {
    if |a| > 0 {
      StrLtIrreflexive(a[0]);
      assert a[1..] <= b[1..];
      PrefixListOrder(a[1..], b[1..]);
    }
  }

  // ---------------------------------------------------------------------------------------
  // Column maxima

  /** The efficiency maximum is at least every efficiency of the group, when all the leave
   *  counts are positive. */
  lemma {:induction false} MaxEffIsMax(g: seq<Scored>)
    requires |g| > 0 && forall i :: 0 <= i < |g| ==> g[i].efficiency.den > 0
    ensures forall i :: 0 <= i < |g| ==> RatioLe(g[i].efficiency, MaxEff(g))
  {
    if |g| > 1 {
      var r := MaxEff(g[1..]);
      MaxEffIsMax(g[1..]);
      assert forall i :: 1 <= i < |g| ==> g[i] == g[1..][i - 1];
      if !RatioLt(g[0].efficiency, r) {
        forall i | 1 <= i < |g|
          ensures RatioLe(g[i].efficiency, g[0].efficiency)
        {
          RatioLeTrans(g[i].efficiency, r, g[0].efficiency);
        }
      }
    }
  }

  /** When every Days Off list of a group is a prefix of one of them, that one is the maximum. */
  lemma {:induction false} MaxListOfPrefixes(g: seq<Scored>, top: seq<string>)
    requires |g| > 0
    requires forall i :: 0 <= i < |g| ==> g[i].daysOff <= top
    requires exists i :: 0 <= i < |g| && g[i].daysOff == top
    ensures MaxList(g) == top
  {
    if |g| > 1 {
      var l := MaxList(g[1..]);
      assert forall i :: 1 <= i < |g| ==> g[i] == g[1..][i - 1];
      if g[0].daysOff == top {
        PrefixListOrder(l, top);
      } else {
        assert exists i :: 0 <= i < |g[1..]| && g[1..][i].daysOff == top;
        MaxListOfPrefixes(g[1..], top);
        PrefixListOrder(g[0].daysOff, top);
      }
    }
  }

  // ---------------------------------------------------------------------------------------
  // Grouping

  /** The key of an aggregated row. */
  function RankedKey(r: Ranked): (k: (Date, int))
  {
    (r.startDate, r.leavesUsed)
  }

  /** When every input key lies above `k`, so does every group key. */
  lemma {:induction false} GroupsAbove(rows: seq<Scored>, k: (Date, int))
    requires forall i :: 0 <= i < |rows| ==> |rows[i].daysOff| > 0
    requires forall i :: 0 <= i < |rows| ==> KeyLt(k, KeyOf(rows[i]))
    ensures forall i :: 0 <= i < |Groups(rows)| ==> KeyLt(k, Groups(rows)[i].0)
    decreases |rows|
  {
    if rows != [] {
      var m := MinKeyIndex(rows);
      var key := KeyOf(rows[m]);
      var rest := OtherGroups(rows, key);
      OtherGroupsShorter(rows, key, m);
      GroupsAbove(rest, k);
      assert Groups(rows)[1..] == Groups(rest);
    }
  }

  /** The group keys come out in strictly increasing order. */
  lemma {:induction false} GroupsSorted(rows: seq<Scored>)
    requires forall i :: 0 <= i < |rows| ==> |rows[i].daysOff| > 0
    ensures forall i, j :: 0 <= i < j < |Groups(rows)| ==> KeyLt(Groups(rows)[i].0, Groups(rows)[j].0)
    decreases |rows|
  {
    if rows != [] {
      var m := MinKeyIndex(rows);
      var key := KeyOf(rows[m]);
      var rest := OtherGroups(rows, key);
      OtherGroupsShorter(rows, key, m);
      GroupsSorted(rest);
      forall i | 0 <= i < |rest|
        ensures KeyLt(key, KeyOf(rest[i]))
      {
        var j :| 0 <= j < |rows| && rows[j] == rest[i];
      }
      GroupsAbove(rest, key);
      var gs := Groups(rows);
      assert gs[0].0 == key;
      assert gs[1..] == Groups(rest);
      forall i, j | 0 <= i < j < |gs|
        ensures KeyLt(gs[i].0, gs[j].0)
      {
        assert gs[j] == Groups(rest)[j - 1];
        if i > 0 {
          assert gs[i] == Groups(rest)[i - 1];
        }
      }
    }
  }

  /** Each group holds exactly the input rows with its key. */
  lemma {:induction false} GroupsAreGroups(rows: seq<Scored>, i: int)
    requires forall i :: 0 <= i < |rows| ==> |rows[i].daysOff| > 0
    requires 0 <= i < |Groups(rows)|
    ensures Groups(rows)[i].1 == GroupOf(rows, Groups(rows)[i].0)
    decreases |rows|
  {
    var m := MinKeyIndex(rows);
    var key := KeyOf(rows[m]);
    var rest := OtherGroups(rows, key);
    OtherGroupsShorter(rows, key, m);
    var gs := Groups(rows);
    assert gs[1..] == Groups(rest);
    if i > 0 {
      var k := Groups(rest)[i - 1].0;
      assert gs[i] == Groups(rest)[i - 1];
      GroupsAreGroups(rest, i - 1);
      OtherKey(rows, key, k);
      GroupOfOthers(rows, key, k);
    }
  }

  /** A key that some row left after removing `key` carries is not `key`. */
  lemma OtherKey(rows: seq<Scored>, key: (Date, int), k: (Date, int))
    requires |GroupOf(OtherGroups(rows, key), k)| > 0
    ensures k != key
  {
    var x := GroupOf(OtherGroups(rows, key), k)[0];
    var j :| 0 <= j < |OtherGroups(rows, key)| && OtherGroups(rows, key)[j] == x;
  }

  /** The position of the group holding the key of input row `j`. */
  lemma {:induction false} GroupsKeyIndex(rows: seq<Scored>, j: int) returns (i: int)
    requires forall i :: 0 <= i < |rows| ==> |rows[i].daysOff| > 0
    requires 0 <= j < |rows|
    ensures 0 <= i < |Groups(rows)| && Groups(rows)[i].0 == KeyOf(rows[j])
    decreases |rows|
  {
    var m := MinKeyIndex(rows);
    var key := KeyOf(rows[m]);
    var rest := OtherGroups(rows, key);
    OtherGroupsShorter(rows, key, m);
    var gs := Groups(rows);
    assert gs[0].0 == key;
    assert gs[1..] == Groups(rest);
    if KeyOf(rows[j]) == key {
      i := 0;
    } else {
      InOtherGroups(rows, key, j);
      var j' :| 0 <= j' < |rest| && rest[j'] == rows[j];
      var i' := GroupsKeyIndex(rest, j');
      assert gs[i' + 1] == Groups(rest)[i'];
      i := i' + 1;
    }
  }

  /** The grouped rows come out in strictly increasing key order; in particular no two share
   *  a (Start Date, Leaves Used) pair. */
  lemma GroupMaxSorted(rows: seq<Scored>)
    requires forall i :: 0 <= i < |rows| ==> |rows[i].daysOff| > 0
    ensures forall i, j :: 0 <= i < j < |GroupMax(rows)| ==>
              KeyLt(RankedKey(GroupMax(rows)[i]), RankedKey(GroupMax(rows)[j]))
  {
    GroupsSorted(rows);
  }

  /** One output row is the column-wise maximum of the non-empty group of input rows with its
   *  key. */
  lemma GroupMaxRowIsGroup(rows: seq<Scored>, i: int)
    requires forall i :: 0 <= i < |rows| ==> |rows[i].daysOff| > 0
    requires 0 <= i < |GroupMax(rows)|
    ensures |GroupOf(rows, RankedKey(GroupMax(rows)[i]))| > 0
    ensures GroupMax(rows)[i] == Aggregate(RankedKey(GroupMax(rows)[i]), GroupOf(rows, RankedKey(GroupMax(rows)[i])))
  {
    GroupsAreGroups(rows, i);
  }

  /** Every output row is the column-wise maximum of exactly the input rows with its key. */
  lemma GroupMaxRowsAreGroups(rows: seq<Scored>)
    requires forall i :: 0 <= i < |rows| ==> |rows[i].daysOff| > 0
    ensures forall i :: 0 <= i < |GroupMax(rows)| ==>
              |GroupOf(rows, RankedKey(GroupMax(rows)[i]))| > 0 &&
              GroupMax(rows)[i] == Aggregate(RankedKey(GroupMax(rows)[i]), GroupOf(rows, RankedKey(GroupMax(rows)[i])))
  {
    forall i | 0 <= i < |GroupMax(rows)|
      ensures |GroupOf(rows, RankedKey(GroupMax(rows)[i]))| > 0
      ensures GroupMax(rows)[i] == Aggregate(RankedKey(GroupMax(rows)[i]), GroupOf(rows, RankedKey(GroupMax(rows)[i])))
    {
      GroupMaxRowIsGroup(rows, i);
    }
  }

  /** The key of any input row has an output row. */
  lemma GroupMaxCoversKey(rows: seq<Scored>, j: int)
    requires forall i :: 0 <= i < |rows| ==> |rows[i].daysOff| > 0
    requires 0 <= j < |rows|
    ensures exists i :: 0 <= i < |GroupMax(rows)| && RankedKey(GroupMax(rows)[i]) == KeyOf(rows[j])
  {
    var i := GroupsKeyIndex(rows, j);
    assert RankedKey(GroupMax(rows)[i]) == KeyOf(rows[j]);
  }

  // ---------------------------------------------------------------------------------------
  // The aggregated row of a group of windows sharing a start

  /** `r` is the scored form of the window of `r.numDaysOff` consecutive days from `a` that
   *  spends `l` leave days. */
  predicate SpanRow(r: Scored, a: Date, l: int, fmt: Date -> string)
  {
    r.numDaysOff > 0 && |r.daysOff| == r.numDaysOff && r.daysOff == FormatDates(DateRange(a, r.numDaysOff), fmt)
    && r.leavesUsed == l && r.efficiency == Ratio(r.numDaysOff, l)
    && r.startDate == a && r.endDate == a + r.numDaysOff - 1
  }

  /** The row `postprocess_leavedates` reports for the window of `n` consecutive days from `a`
   *  that spends `l` leave days. */
  function RunRow(a: Date, l: int, n: nat, fmt: Date -> string): (r: Ranked)
    requires n > 0
    ensures |r.daysOff| == n && forall i :: 0 <= i < n ==> r.daysOff[i] == fmt(a + i)
    ensures r.period == fmt(a) + " - " + fmt(a + n - 1)
  {
    var days := FormatDates(DateRange(a, n), fmt);
    Ranked(a, l, n, Ratio(n, l), a + n - 1, days, Period(days))
  }

  /** Scoring a window of consecutive days gives a `SpanRow`. */
  lemma ScoreSpan(a: Date, len: nat, l: int, fmt: Date -> string)
    requires len > 0
    ensures SpanRow(Score(Window(DateRange(a, len), l, len), fmt), a, l, fmt)
  {
  }

  /** The formatted dates of a shorter run from the same day are a prefix of a longer run's. */
  lemma FormatDatesPrefix(a: Date, len: nat, n: nat, fmt: Date -> string)
    requires len <= n
    ensures FormatDates(DateRange(a, len), fmt) <= FormatDates(DateRange(a, n), fmt)
  {
    assert FormatDates(DateRange(a, len), fmt) == FormatDates(DateRange(a, n), fmt)[..len];
  }

  /** In such a group the longest run also ends last. */
  lemma MaxEndOfRuns(g: seq<Scored>, a: Date, l: int, fmt: Date -> string)
    requires |g| > 0
    requires forall i :: 0 <= i < |g| ==> SpanRow(g[i], a, l, fmt)
    ensures MaxEnd(g) == a + MaxDays(g) - 1
  {
    var k :| 0 <= k < |g| && g[k].numDaysOff == MaxDays(g);
    assert g[k].endDate <= MaxEnd(g);
  }

  /** In such a group, with a positive leave count, the longest run is the most efficient. */
  lemma MaxEffOfRuns(g: seq<Scored>, a: Date, l: int, fmt: Date -> string)
    requires |g| > 0 && l > 0
    requires forall i :: 0 <= i < |g| ==> SpanRow(g[i], a, l, fmt)
    ensures MaxEff(g) == Ratio(MaxDays(g), l)
  {
    var n := MaxDays(g);
    var k :| 0 <= k < |g| && g[k].numDaysOff == n;
    var f :| 0 <= f < |g| && MaxEff(g) == g[f].efficiency;
    MaxEffIsMax(g);
    assert RatioLe(g[k].efficiency, g[f].efficiency);
    CancelLe(n, g[f].numDaysOff, l);
  }

  /** In such a group the longest run's date list is the greatest. */
  lemma MaxListOfRuns(g: seq<Scored>, a: Date, l: int, fmt: Date -> string)
    requires |g| > 0
    requires forall i :: 0 <= i < |g| ==> SpanRow(g[i], a, l, fmt)
    ensures 0 < g[0].numDaysOff <= MaxDays(g)
    ensures MaxList(g) == FormatDates(DateRange(a, MaxDays(g)), fmt)
  {
    var n := MaxDays(g);
    var top := FormatDates(DateRange(a, n), fmt);
    forall i | 0 <= i < |g|
      ensures g[i].daysOff <= top
    {
      FormatDatesPrefix(a, g[i].numDaysOff, n, fmt);
    }
    var k :| 0 <= k < |g| && g[k].numDaysOff == n;
    assert g[k].daysOff == top;
    MaxListOfPrefixes(g, top);
  }

  /** When the rows of a group are runs of days from one start spending the same positive
   *  leave count, every column maximum comes from the longest run: the aggregated row is the
   *  longest window's row. */
  lemma AggregateIsLongest(g: seq<Scored>, a: Date, l: int, fmt: Date -> string)
    requires |g| > 0 && l > 0
    requires forall i :: 0 <= i < |g| ==> SpanRow(g[i], a, l, fmt)
    ensures 0 < g[0].numDaysOff <= MaxDays(g)
    ensures forall i :: 0 <= i < |g| ==> |g[i].daysOff| > 0
    ensures Aggregate((a, l), g) == RunRow(a, l, MaxDays(g), fmt)
  {
    MaxEndOfRuns(g, a, l, fmt);
    MaxEffOfRuns(g, a, l, fmt);
    MaxListOfRuns(g, a, l, fmt);
  }

  // ---------------------------------------------------------------------------------------
  // The whole ranker

  /** Every scored row keeps its window's counts, and its efficiency is their quotient. */
  lemma ScoredRows(ws: seq<Window>, fmt: Date -> string, r: Scored)
    requires forall i :: 0 <= i < |ws| ==> |ws[i].daysOff| > 0
    requires r in Efficient(ScoreAll(ws, fmt))
    ensures exists i :: 0 <= i < |ws| && r == Score(ws[i], fmt)
    ensures r.efficiency == Ratio(r.numDaysOff, r.leavesUsed) && r.numDaysOff > r.leavesUsed
  {
  }

  /** Every row that passes the efficiency filter lists its dates, and its efficiency is its
   *  days off over its leave, above 1. */
  lemma EfficientRows(ws: seq<Window>, fmt: Date -> string)
    requires forall i :: 0 <= i < |ws| ==> |ws[i].daysOff| > 0
    ensures forall j :: 0 <= j < |Efficient(ScoreAll(ws, fmt))| ==>
              |Efficient(ScoreAll(ws, fmt))[j].daysOff| > 0
              && Efficient(ScoreAll(ws, fmt))[j].efficiency
                 == Ratio(Efficient(ScoreAll(ws, fmt))[j].numDaysOff, Efficient(ScoreAll(ws, fmt))[j].leavesUsed)
              && Efficient(ScoreAll(ws, fmt))[j].numDaysOff > Efficient(ScoreAll(ws, fmt))[j].leavesUsed
  {
    var cs := Efficient(ScoreAll(ws, fmt));
    forall j | 0 <= j < |cs|
      ensures |cs[j].daysOff| > 0 && cs[j].efficiency == Ratio(cs[j].numDaysOff, cs[j].leavesUsed)
              && cs[j].numDaysOff > cs[j].leavesUsed
    {
      ScoredRows(ws, fmt, cs[j]);
    }
  }

  /** Grouping rows that each yield more days off than leave gives rows that do too. */
  lemma GroupMaxEfficient(rs: seq<Scored>)
    requires forall j :: 0 <= j < |rs| ==>
               |rs[j].daysOff| > 0 && rs[j].efficiency == Ratio(rs[j].numDaysOff, rs[j].leavesUsed)
               && rs[j].numDaysOff > rs[j].leavesUsed
    ensures forall i :: 0 <= i < |GroupMax(rs)| ==>
              GroupMax(rs)[i].numDaysOff > GroupMax(rs)[i].leavesUsed && ExceedsOne(GroupMax(rs)[i].efficiency)
  {
    var out := GroupMax(rs);
    forall i | 0 <= i < |out|
      ensures out[i].numDaysOff > out[i].leavesUsed && ExceedsOne(out[i].efficiency)
    {
      GroupMaxRowIsGroup(rs, i);
      var g := GroupOf(rs, RankedKey(out[i]));
      assert g[0] in rs;
      var f :| 0 <= f < |g| && out[i].efficiency == g[f].efficiency;
      assert g[f] in rs;
    }
  }

  /** When every row is a run of days, the rows of one key are runs from the key's Start
   *  Date spending the key's leave count. */
  lemma GroupIsRuns(rows: seq<Scored>, fmt: Date -> string, k: (Date, int))
    requires forall j :: 0 <= j < |rows| ==>
               rows[j].leavesUsed > 0 && SpanRow(rows[j], rows[j].startDate, rows[j].leavesUsed, fmt)
    ensures forall t :: 0 <= t < |GroupOf(rows, k)| ==>
              GroupOf(rows, k)[t].leavesUsed > 0 && SpanRow(GroupOf(rows, k)[t], k.0, k.1, fmt)
  {
    var g := GroupOf(rows, k);
    forall t | 0 <= t < |g|
      ensures g[t].leavesUsed > 0 && SpanRow(g[t], k.0, k.1, fmt)
    {
      var j :| 0 <= j < |rows| && rows[j] == g[t];
    }
  }

  /** When every row is a run of days spending some leave, every grouped row is the row of the
   *  longest run of its group, and that run is one of the input rows. */
  lemma GroupedRowIsLongest(rows: seq<Scored>, fmt: Date -> string, i: int)
    requires forall j :: 0 <= j < |rows| ==> |rows[j].daysOff| > 0
    requires forall j :: 0 <= j < |rows| ==>
               rows[j].leavesUsed > 0 && SpanRow(rows[j], rows[j].startDate, rows[j].leavesUsed, fmt)
    requires 0 <= i < |GroupMax(rows)|
    ensures GroupMax(rows)[i].numDaysOff > 0
    ensures GroupMax(rows)[i]
            == RunRow(GroupMax(rows)[i].startDate, GroupMax(rows)[i].leavesUsed, GroupMax(rows)[i].numDaysOff, fmt)
    ensures exists j :: 0 <= j < |rows| && KeyOf(rows[j]) == RankedKey(GroupMax(rows)[i])
                        && rows[j].numDaysOff == GroupMax(rows)[i].numDaysOff
  {
    var r := GroupMax(rows)[i];
    var k := RankedKey(r);
    var g := GroupOf(rows, k);
    GroupMaxRowIsGroup(rows, i);
    GroupIsRuns(rows, fmt, k);
    AggregateIsLongest(g, k.0, k.1, fmt);
    var m :| 0 <= m < |g| && g[m].numDaysOff == MaxDays(g);
    RowWithKeyAndLength(rows, g[m], k, r.numDaysOff);
  }

  /** A member of `rows` with key `k` and length `n` is a row of `rows` with that key and length. */
  lemma RowWithKeyAndLength(rows: seq<Scored>, x: Scored, k: (Date, int), n: int)
    requires x in rows && KeyOf(x) == k && x.numDaysOff == n
    ensures exists j :: 0 <= j < |rows| && KeyOf(rows[j]) == k && rows[j].numDaysOff == n
  {
  }

  /** Every grouped row is at least as long as each input row with its key. */
  lemma GroupedRowIsMax(rows: seq<Scored>, i: int, j: int)
    requires forall j :: 0 <= j < |rows| ==> |rows[j].daysOff| > 0
    requires 0 <= i < |GroupMax(rows)| && 0 <= j < |rows|
    requires KeyOf(rows[j]) == RankedKey(GroupMax(rows)[i])
    ensures rows[j].numDaysOff <= GroupMax(rows)[i].numDaysOff
  {
    GroupMaxRowsAreGroups(rows);
    InGroupOf(rows, KeyOf(rows[j]), j);
  }

  /** Every input row is represented in the output by the row of its key, which is at least
   *  as long. */
  lemma GroupedRowCovers(rows: seq<Scored>, j: int)
    requires forall j :: 0 <= j < |rows| ==> |rows[j].daysOff| > 0
    requires 0 <= j < |rows|
    ensures exists i :: 0 <= i < |GroupMax(rows)| && RankedKey(GroupMax(rows)[i]) == KeyOf(rows[j])
              && rows[j].numDaysOff <= GroupMax(rows)[i].numDaysOff
  {
    GroupMaxCoversKey(rows, j);
    var i :| 0 <= i < |GroupMax(rows)| && RankedKey(GroupMax(rows)[i]) == KeyOf(rows[j]);
    GroupedRowIsMax(rows, i, j);
  }
}
