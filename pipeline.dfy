/** The optimisation run behind the app's button: the calendar of the chosen range, every
 *  window the leave budget can bridge, the ranked windows, and the rows shown. */
module Pipeline {
  import opened Seqs
  import opened Calendar
  import opened Enumerator
  import opened Ranker
  import opened Selection

  /** The inputs of one run: the date range, the holiday table and the leave budget. */
  datatype Query = Query(from: Date, to: Date, holidays: map<string, Date>, budget: int)

  /** `n` consecutive days from `a`, all inside the range, that need some leave, at most the
   *  budget of it, and fewer leave days than days. */
  predicate Bridge(q: Query, a: Date, n: int)
  {
    n > 0 && q.from <= a && a + n - 1 <= q.to
    && 0 < Workdays(a, n, q.holidays) <= q.budget && Workdays(a, n, q.holidays) < n
  }

  /** `cal` has a row per date of the range, in order, flagged as `preprocess_dates` flags it. */
  predicate IsCalendar(q: Query, cal: seq<Row>)
  {
    |cal| == (if q.from <= q.to then q.to - q.from + 1 else 0)
    && forall i :: 0 <= i < |cal| ==>
         cal[i].date == q.from + i && (cal[i].dayOff == 1 <==> IsDayOff(cal[i].date, q.holidays))
  }

  /** [s, e) is a feasible window of `cal` that yields more days off than the leave it spends. */
  predicate Worthwhile(cal: seq<Row>, budget: int, s: int, e: int)
  {
    Feasible(cal, budget, s, e) && e - s > Leaves(cal, s, e)
  }

  /** Every listed window has dates. */
  predicate WindowsHaveDates(ws: seq<Window>)
  {
    forall i :: 0 <= i < |ws| ==> |ws[i].daysOff| > 0
  }

  /** Every listed window is a feasible window of `cal`. */
  ghost predicate ListsOnlyFeasible(cal: seq<Row>, budget: int, ws: seq<Window>)
  {
    forall i :: 0 <= i < |ws| ==> exists s, e :: Feasible(cal, budget, s, e) && ws[i] == WindowAt(cal, s, e)
  }

  /** Every worthwhile window of `cal` is listed. */
  ghost predicate ListsWorthwhile(cal: seq<Row>, budget: int, ws: seq<Window>)
  {
    forall s, e {:trigger Worthwhile(cal, budget, s, e)} ::
      Worthwhile(cal, budget, s, e) ==> WindowAt(cal, s, e) in ws
  }

  /** The sweep lists, with their dates, only feasible windows, and every worthwhile one. */
  lemma EnumerateWindows(cal: seq<Row>, budget: int)
    ensures WindowsHaveDates(Enumerate(cal, budget))
    ensures ListsOnlyFeasible(cal, budget, Enumerate(cal, budget))
    ensures ListsWorthwhile(cal, budget, Enumerate(cal, budget))
  {
    var ws := Enumerate(cal, budget);
    forall i | 0 <= i < |ws|
      ensures |ws[i].daysOff| > 0 && exists s, e :: Feasible(cal, budget, s, e) && ws[i] == WindowAt(cal, s, e)
    {
      EnumerateSound(cal, budget, ws[i]);
    }
    forall s, e | Worthwhile(cal, budget, s, e)
      ensures WindowAt(cal, s, e) in ws
    {
      EfficientWindowsListed(cal, budget, s, e);
    }
  }

  /** `perm_consec_offs` over the calendar lists its windows by Start Date, and by length among
   *  windows with the same Start Date. */
  lemma CalendarWindowsInOrder(from: Date, to: Date, holidays: map<string, Date>, budget: int)
    ensures var ws := Enumerate(PreprocessDates(from, to, holidays), budget);
            forall k, l :: 0 <= k < l < |ws| ==> SweptBefore(ws[k], ws[l])
  {
    var cal := PreprocessDates(from, to, holidays);
    assert DatesIncrease(cal);
    EnumerateInSweepOrder(cal, budget);
  }

  /** On the calendar, the leave cost of a window is the number of its workdays. */
  lemma {:induction false} LeavesAreWorkdays(q: Query, cal: seq<Row>, s: int, e: int)
    requires IsCalendar(q, cal) && 0 <= s <= e <= |cal|
    ensures Leaves(cal, s, e) == Workdays(q.from + s, e - s, q.holidays)
    decreases e - s
  {
    if s < e {
      LeavesAreWorkdays(q, cal, s, e - 1);
      assert cal[e - 1].date == q.from + s + (e - s) - 1;
    }
  }

  /** On the calendar, the dates of a window are consecutive days. */
  lemma CalendarSpan(q: Query, cal: seq<Row>, s: int, e: int)
    requires IsCalendar(q, cal) && 0 <= s <= e <= |cal|
    ensures Dates(cal[s..e]) == DateRange(q.from + s, e - s)
  {
    var ds := Dates(cal[s..e]);
    forall i | 0 <= i < e - s
      ensures ds[i] == q.from + s + i
    {
      assert cal[s..e][i] == cal[s + i];
    }
  }

  /** A calendar window is feasible and yields more days off than leave exactly when its
   *  dates form a bridge. */
  lemma WindowIsBridge(q: Query, cal: seq<Row>, s: int, e: int)
    requires IsCalendar(q, cal) && 0 <= s < e <= |cal|
    ensures Leaves(cal, s, e) == Workdays(q.from + s, e - s, q.holidays)
    ensures Feasible(cal, q.budget, s, e) && e - s > Leaves(cal, s, e) <==> Bridge(q, q.from + s, e - s)
  {
    LeavesAreWorkdays(q, cal, s, e);
  }

  /** The scored row of a calendar window: the run of its consecutive dates, with its
   *  workdays as leave. */
  lemma ScoredWindow(q: Query, cal: seq<Row>, fmt: Date -> string, s: int, e: int)
    requires IsCalendar(q, cal) && 0 <= s < e <= |cal|
    ensures var x := Score(WindowAt(cal, s, e), fmt);
            x.startDate == q.from + s && x.numDaysOff == e - s
            && x.leavesUsed == Leaves(cal, s, e) == Workdays(q.from + s, e - s, q.holidays)
            && SpanRow(x, x.startDate, x.leavesUsed, fmt)
  {
    CalendarSpan(q, cal, s, e);
    LeavesAreWorkdays(q, cal, s, e);
    ScoreSpan(q.from + s, e - s, Leaves(cal, s, e), fmt);
  }

  /** `r` is the scored row of a bridge: the run of its consecutive dates from its Start
   *  Date, with the run's workdays as leave. */
  predicate IsBridgeRow(q: Query, fmt: Date -> string, r: Scored)
  {
    Bridge(q, r.startDate, r.numDaysOff)
    && r.leavesUsed == Workdays(r.startDate, r.numDaysOff, q.holidays)
    && SpanRow(r, r.startDate, r.leavesUsed, fmt)
  }

  // ---------------------------------------------------------------------------------------
  // From the calendar's windows to the scored rows

  /** A row with a bridge's start, length and workdays, spanning its run, is a bridge row. */
  lemma BridgeRowOf(q: Query, fmt: Date -> string, r: Scored, a: Date, n: int)
    requires Bridge(q, a, n) && r.startDate == a && r.numDaysOff == n
    requires r.leavesUsed == Workdays(a, n, q.holidays) && SpanRow(r, a, r.leavesUsed, fmt)
    ensures IsBridgeRow(q, fmt, r)
  {
  }

  /** The scored row of a worthwhile calendar window is a bridge row. */
  lemma WindowRowIsBridge(q: Query, cal: seq<Row>, fmt: Date -> string, s: int, e: int)
    requires IsCalendar(q, cal) && Worthwhile(cal, q.budget, s, e)
    ensures IsBridgeRow(q, fmt, Score(WindowAt(cal, s, e), fmt))
  {
    ScoredWindow(q, cal, fmt, s, e);
    WindowIsBridge(q, cal, s, e);
    BridgeRowOf(q, fmt, Score(WindowAt(cal, s, e), fmt), q.from + s, e - s);
  }

  /** Every window that passes the efficiency filter is scored from a bridge. */
  lemma ScoredIsBridge(q: Query, cal: seq<Row>, ws: seq<Window>, fmt: Date -> string, r: Scored)
    requires IsCalendar(q, cal) && WindowsHaveDates(ws) && ListsOnlyFeasible(cal, q.budget, ws)
    requires r in Efficient(ScoreAll(ws, fmt))
    ensures IsBridgeRow(q, fmt, r)
  {
    ScoredRows(ws, fmt, r);
    var i :| 0 <= i < |ws| && r == Score(ws[i], fmt);
    var s, e :| Feasible(cal, q.budget, s, e) && ws[i] == WindowAt(cal, s, e);
    assert r.numDaysOff == e - s && r.leavesUsed == Leaves(cal, s, e);
    WindowRowIsBridge(q, cal, fmt, s, e);
  }


  /** `cs` holds only rows of bridges. */
  predicate BridgeRows(q: Query, fmt: Date -> string, cs: seq<Scored>)
  {
    forall j :: 0 <= j < |cs| ==> |cs[j].daysOff| > 0 && IsBridgeRow(q, fmt, cs[j])
  }

  /** The windows that pass the efficiency filter are all scored from bridges. */
  lemma ScoredAreBridges(q: Query, cal: seq<Row>, ws: seq<Window>, fmt: Date -> string)
    requires IsCalendar(q, cal) && WindowsHaveDates(ws) && ListsOnlyFeasible(cal, q.budget, ws)
    ensures BridgeRows(q, fmt, Efficient(ScoreAll(ws, fmt)))
  {
    var cs := Efficient(ScoreAll(ws, fmt));
    forall j | 0 <= j < |cs|
      ensures |cs[j].daysOff| > 0 && IsBridgeRow(q, fmt, cs[j])
    {
      ScoredIsBridge(q, cal, ws, fmt, cs[j]);
    }
  }

  /** The calendar window of a bridge is worthwhile, and its scored row has the bridge's
   *  start, length and workdays. */
  lemma BridgeWindow(q: Query, cal: seq<Row>, fmt: Date -> string, a: Date, n: int)
    requires IsCalendar(q, cal) && Bridge(q, a, n)
    ensures 0 <= a - q.from < a - q.from + n <= |cal|
    ensures Worthwhile(cal, q.budget, a - q.from, a - q.from + n)
    ensures var x := Score(WindowAt(cal, a - q.from, a - q.from + n), fmt);
            x.startDate == a && x.numDaysOff == n && x.leavesUsed == Workdays(a, n, q.holidays)
            && ExceedsOne(x.efficiency)
  {
    var s, e := a - q.from, a - q.from + n;
    WindowIsBridge(q, cal, s, e);
    ScoredWindow(q, cal, fmt, s, e);
    var w := WindowAt(cal, s, e);
    assert n > Leaves(cal, s, e);
    assert Score(w, fmt).efficiency == Ratio(n, Leaves(cal, s, e));
  }

  /** Every bridge passes the efficiency filter: some scored row has its start, its workdays
   *  as leave and its length. */
  lemma BridgeIsScored(q: Query, cal: seq<Row>, ws: seq<Window>, fmt: Date -> string, a: Date, n: int)
    requires IsCalendar(q, cal) && WindowsHaveDates(ws) && ListsWorthwhile(cal, q.budget, ws)
    requires Bridge(q, a, n)
    ensures exists j :: 0 <= j < |Efficient(ScoreAll(ws, fmt))|
              && Efficient(ScoreAll(ws, fmt))[j].startDate == a
              && Efficient(ScoreAll(ws, fmt))[j].leavesUsed == Workdays(a, n, q.holidays)
              && Efficient(ScoreAll(ws, fmt))[j].numDaysOff == n
  {
    BridgeWindow(q, cal, fmt, a, n);
    var w := WindowAt(cal, a - q.from, a - q.from + n);
    var i :| 0 <= i < |ws| && ws[i] == w;
    var x := ScoreAll(ws, fmt)[i];
    var cs := Efficient(ScoreAll(ws, fmt));
    FilterMultiset(ScoreAll(ws, fmt), (r: Scored) => ExceedsOne(r.efficiency));
    assert x in cs;
    var j :| 0 <= j < |cs| && cs[j] == x;
  }

  // ---------------------------------------------------------------------------------------
  // From the scored rows to the ranked table

  /** `r` is the ranked row of a bridge: it starts the run on its Start Date, spends the run's
   *  workdays as leave, and lists, ends and labels the run's dates. */
  predicate RankedBridge(q: Query, fmt: Date -> string, r: Ranked)
  {
    Bridge(q, r.startDate, r.numDaysOff)
    && r.leavesUsed == Workdays(r.startDate, r.numDaysOff, q.holidays)
    && r == RunRow(r.startDate, r.leavesUsed, r.numDaysOff, fmt)
  }

  /** Grouping rows of bridges gives ranked rows of bridges. */
  lemma GroupedRowIsBridge(q: Query, fmt: Date -> string, cs: seq<Scored>, i: int)
    requires BridgeRows(q, fmt, cs)
    requires 0 <= i < |GroupMax(cs)|
    ensures RankedBridge(q, fmt, GroupMax(cs)[i])
  {
    GroupedRowIsLongest(cs, fmt, i);
    var j :| 0 <= j < |cs| && KeyOf(cs[j]) == RankedKey(GroupMax(cs)[i])
             && cs[j].numDaysOff == GroupMax(cs)[i].numDaysOff;
    assert IsBridgeRow(q, fmt, cs[j]);
  }

  /** Every row of the ranked table is the row of a bridge. */
  lemma RankedRowsAreBridges(q: Query, cal: seq<Row>, ws: seq<Window>, fmt: Date -> string)
    requires IsCalendar(q, cal) && WindowsHaveDates(ws) && ListsOnlyFeasible(cal, q.budget, ws)
    ensures forall i :: 0 <= i < |PostprocessLeavedates(ws, fmt)| ==>
              RankedBridge(q, fmt, PostprocessLeavedates(ws, fmt)[i])
  {
    var cs := Efficient(ScoreAll(ws, fmt));
    ScoredAreBridges(q, cal, ws, fmt);
    forall i | 0 <= i < |GroupMax(cs)|
      ensures RankedBridge(q, fmt, GroupMax(cs)[i])
    {
      GroupedRowIsBridge(q, fmt, cs, i);
    }
  }

  /** Every scored row lists at least one date. */
  lemma ScoredHaveDates(ws: seq<Window>, fmt: Date -> string)
    requires WindowsHaveDates(ws)
    ensures forall j :: 0 <= j < |Efficient(ScoreAll(ws, fmt))| ==> |Efficient(ScoreAll(ws, fmt))[j].daysOff| > 0
  {
    var cs := Efficient(ScoreAll(ws, fmt));
    forall j | 0 <= j < |cs|
      ensures |cs[j].daysOff| > 0
    {
      ScoredRows(ws, fmt, cs[j]);
    }
  }

  /** No bridge from a ranked row's Start Date with the same leave count is longer than the
   *  row: the row is the longest such bridge. */
  lemma RankedRowIsLongest(q: Query, cal: seq<Row>, ws: seq<Window>, fmt: Date -> string, i: int, n: int)
    requires IsCalendar(q, cal) && WindowsHaveDates(ws) && ListsWorthwhile(cal, q.budget, ws)
    requires 0 <= i < |PostprocessLeavedates(ws, fmt)|
    requires Bridge(q, PostprocessLeavedates(ws, fmt)[i].startDate, n)
    requires Workdays(PostprocessLeavedates(ws, fmt)[i].startDate, n, q.holidays)
             == PostprocessLeavedates(ws, fmt)[i].leavesUsed
    ensures n <= PostprocessLeavedates(ws, fmt)[i].numDaysOff
  {
    var cs := Efficient(ScoreAll(ws, fmt));
    var r := GroupMax(cs)[i];
    BridgeIsScored(q, cal, ws, fmt, r.startDate, n);
    var j :| 0 <= j < |cs| && cs[j].startDate == r.startDate
             && cs[j].leavesUsed == r.leavesUsed && cs[j].numDaysOff == n;
    ScoredHaveDates(ws, fmt);
    GroupedRowIsMax(cs, i, j);
  }

  /** Some row of `ranked` has Start Date `a`, uses `l` days of leave and lasts at least `n`
   *  days. */
  ghost predicate Represented(ranked: seq<Ranked>, a: Date, l: int, n: int)
  {
    exists i :: 0 <= i < |ranked| && ranked[i].startDate == a && ranked[i].leavesUsed == l && n <= ranked[i].numDaysOff
  }

  /** A scored row's Start Date and leave count reach the ranked table, with a length at least
   *  its own. */
  lemma ScoredRowIsRanked(cs: seq<Scored>, j: int)
    requires forall j :: 0 <= j < |cs| ==> |cs[j].daysOff| > 0
    requires 0 <= j < |cs|
    ensures Represented(GroupMax(cs), cs[j].startDate, cs[j].leavesUsed, cs[j].numDaysOff)
  {
    GroupedRowCovers(cs, j);
  }

  /** Every bridge is represented: some ranked row has its Start Date and leave count and is at
   *  least as long. */
  lemma BridgeIsRanked(q: Query, cal: seq<Row>, ws: seq<Window>, fmt: Date -> string, a: Date, n: int)
    requires IsCalendar(q, cal) && WindowsHaveDates(ws) && ListsWorthwhile(cal, q.budget, ws)
    requires Bridge(q, a, n)
    ensures Represented(PostprocessLeavedates(ws, fmt), a, Workdays(a, n, q.holidays), n)
  {
    var cs := Efficient(ScoreAll(ws, fmt));
    BridgeIsScored(q, cal, ws, fmt, a, n);
    var j :| 0 <= j < |cs| && cs[j].startDate == a && cs[j].leavesUsed == Workdays(a, n, q.holidays)
             && cs[j].numDaysOff == n;
    ScoredHaveDates(ws, fmt);
    ScoredRowIsRanked(cs, j);
  }

  // ---------------------------------------------------------------------------------------
  // From the ranked table to the rows shown

  /** Ranked rows of bridges have efficiencies with positive denominators: their leave counts. */
  lemma BridgesHavePositiveLeaves(q: Query, fmt: Date -> string, ranked: seq<Ranked>)
    requires forall i :: 0 <= i < |ranked| ==> RankedBridge(q, fmt, ranked[i])
    ensures PositiveLeaves(ranked)
  {
    forall i | 0 <= i < |ranked|
      ensures ranked[i].efficiency.den > 0
    {
      assert RankedBridge(q, fmt, ranked[i]);
    }
  }

  /** Selecting from ranked rows of bridges shows at most `TopN` rows of bridges, each of length
   *  in [lo, hi], efficiency never increasing. */
  lemma ShownRows(q: Query, fmt: Date -> string, ranked: seq<Ranked>, lo: int, hi: int)
    requires forall i :: 0 <= i < |ranked| ==> RankedBridge(q, fmt, ranked[i])
    ensures |SelectTop(ranked, lo, hi)| <= TopN && Descending(SelectTop(ranked, lo, hi))
    ensures forall i :: 0 <= i < |SelectTop(ranked, lo, hi)| ==>
              lo <= SelectTop(ranked, lo, hi)[i].numDaysOff <= hi
              && RankedBridge(q, fmt, SelectTop(ranked, lo, hi)[i])
  {
    var shown := SelectTop(ranked, lo, hi);
    BridgesHavePositiveLeaves(q, fmt, ranked);
    SelectTopSize(ranked, lo, hi);
    SelectTopSubset(ranked, lo, hi);
    SelectTopDescending(ranked, lo, hi);
    forall i | 0 <= i < |shown|
      ensures RankedBridge(q, fmt, shown[i])
    {
      var k :| 0 <= k < |ranked| && ranked[k] == shown[i];
    }
  }

  /** The rows shown are the most efficient in range: a ranked row of length in [lo, hi] that
   *  is not shown is no more efficient than any row shown. */
  lemma ShownRowsAreTop(q: Query, fmt: Date -> string, ranked: seq<Ranked>, lo: int, hi: int)
    requires forall i :: 0 <= i < |ranked| ==> RankedBridge(q, fmt, ranked[i])
    ensures forall r :: r in ranked && lo <= r.numDaysOff <= hi && r !in SelectTop(ranked, lo, hi) ==>
              forall i :: 0 <= i < |SelectTop(ranked, lo, hi)| ==>
                RatioLe(r.efficiency, SelectTop(ranked, lo, hi)[i].efficiency)
  {
    BridgesHavePositiveLeaves(q, fmt, ranked);
    forall r | r in ranked && lo <= r.numDaysOff <= hi && r !in SelectTop(ranked, lo, hi)
      ensures forall i :: 0 <= i < |SelectTop(ranked, lo, hi)| ==>
                RatioLe(r.efficiency, SelectTop(ranked, lo, hi)[i].efficiency)
    {
      SelectTopIsTop(ranked, lo, hi, r);
    }
  }

  /** `shown` is what lines 101-102 show of `ranked`: as many rows as `head(TopN)` keeps of
   *  the rows of length in [lo, hi] (all of them, or `TopN` when there are more), each one of
   *  those rows and the row of a bridge, efficiency never increasing, no key twice, and no
   *  in-range row left out that is more efficient than a row shown. */
  predicate TopSelection(q: Query, fmt: Date -> string, ranked: seq<Ranked>, lo: int, hi: int,
                         shown: seq<Ranked>)
  {
    var n := |Filter(ranked, InLengthRange(lo, hi))|;
    |shown| == (if n <= TopN then n else TopN)
    && |shown| <= TopN && Descending(shown) && DistinctKeys(shown)
    && (forall i :: 0 <= i < |shown| ==>
          shown[i] in ranked && lo <= shown[i].numDaysOff <= hi && RankedBridge(q, fmt, shown[i]))
    && (forall r :: r in ranked && lo <= r.numDaysOff <= hi && r !in shown ==>
          forall i :: 0 <= i < |shown| ==> RatioLe(r.efficiency, shown[i].efficiency))
  }

  /** Selecting from a ranked table of bridges, ordered by key, is a top selection. */
  lemma ShownSelection(q: Query, fmt: Date -> string, ranked: seq<Ranked>, lo: int, hi: int)
    requires forall i :: 0 <= i < |ranked| ==> RankedBridge(q, fmt, ranked[i])
    requires forall i, j :: 0 <= i < j < |ranked| ==> KeyLt(RankedKey(ranked[i]), RankedKey(ranked[j]))
    ensures TopSelection(q, fmt, ranked, lo, hi, SelectTop(ranked, lo, hi))
  {
    ShownRows(q, fmt, ranked, lo, hi);
    SelectTopSubset(ranked, lo, hi);
    assert DistinctKeys(ranked);
    SelectTopDistinct(ranked, lo, hi);
    ShownRowsAreTop(q, fmt, ranked, lo, hi);
    SelectTopSize(ranked, lo, hi);
  }

  // ---------------------------------------------------------------------------------------
  // The run

  /** Every bridge is represented in the ranked table by a row at least as long. */
  lemma BridgesAreRanked(q: Query, cal: seq<Row>, ws: seq<Window>, fmt: Date -> string)
    requires IsCalendar(q, cal) && WindowsHaveDates(ws) && ListsWorthwhile(cal, q.budget, ws)
    ensures forall a, n :: Bridge(q, a, n) ==>
              Represented(PostprocessLeavedates(ws, fmt), a, Workdays(a, n, q.holidays), n)
  {
    forall a, n | Bridge(q, a, n)
      ensures Represented(PostprocessLeavedates(ws, fmt), a, Workdays(a, n, q.holidays), n)
    {
      BridgeIsRanked(q, cal, ws, fmt, a, n);
    }
  }

  /** Every ranked row is the longest bridge from its Start Date with its leave count. */
  lemma RankedRowsAreLongest(q: Query, cal: seq<Row>, ws: seq<Window>, fmt: Date -> string)
    requires IsCalendar(q, cal) && WindowsHaveDates(ws) && ListsWorthwhile(cal, q.budget, ws)
    ensures forall i, n :: 0 <= i < |PostprocessLeavedates(ws, fmt)|
              && Bridge(q, PostprocessLeavedates(ws, fmt)[i].startDate, n)
              && Workdays(PostprocessLeavedates(ws, fmt)[i].startDate, n, q.holidays)
                 == PostprocessLeavedates(ws, fmt)[i].leavesUsed
              ==> n <= PostprocessLeavedates(ws, fmt)[i].numDaysOff
  {
    var ranked := PostprocessLeavedates(ws, fmt);
    forall i, n | 0 <= i < |ranked| && Bridge(q, ranked[i].startDate, n)
                  && Workdays(ranked[i].startDate, n, q.holidays) == ranked[i].leavesUsed
      ensures n <= ranked[i].numDaysOff
    {
      RankedRowIsLongest(q, cal, ws, fmt, i, n);
    }
  }

  /** The ranked table of a run: `postprocess_leavedates` over the windows the budget can
   *  bridge in the calendar of the range. It holds one row per Start Date and leave count that
   *  some bridge has, in increasing order of that key, and each row is the longest such bridge. */
  function RankedTable(q: Query, fmt: Date -> string): (ranked: seq<Ranked>)
    ensures forall i :: 0 <= i < |ranked| ==> RankedBridge(q, fmt, ranked[i])
    ensures forall i, j :: 0 <= i < j < |ranked| ==> KeyLt(RankedKey(ranked[i]), RankedKey(ranked[j]))
    ensures forall a, n :: Bridge(q, a, n) ==> Represented(ranked, a, Workdays(a, n, q.holidays), n)
    ensures forall i, n :: 0 <= i < |ranked| && Bridge(q, ranked[i].startDate, n)
              && Workdays(ranked[i].startDate, n, q.holidays) == ranked[i].leavesUsed
              ==> n <= ranked[i].numDaysOff
  {
    var cal := PreprocessDates(q.from, q.to, q.holidays);
    var ws := Enumerate(cal, q.budget);
    EnumerateWindows(cal, q.budget);
    assert IsCalendar(q, cal);
    RankedRowsAreBridges(q, cal, ws, fmt);
    BridgesAreRanked(q, cal, ws, fmt);
    RankedRowsAreLongest(q, cal, ws, fmt);
    PostprocessLeavedates(ws, fmt)
  }

  /** The rows a run shows, as a function of its inputs: a top selection of the ranked table,
   *  that is `TopN` of its rows with length in [lo, hi], or all of them when there are fewer,
   *  each the row of a bridge, efficiency never increasing, no key twice, and no in-range row
   *  left out that is more efficient than a row shown. */
  function Optimize(q: Query, lo: int, hi: int, fmt: Date -> string): (shown: seq<Ranked>)
    ensures TopSelection(q, fmt, RankedTable(q, fmt), lo, hi, shown)
  {
    ShownSelection(q, fmt, RankedTable(q, fmt), lo, hi);
    SelectTop(RankedTable(q, fmt), lo, hi)
  }

  /** Lines 97-102: build the calendar, list the windows, rank them and select the rows to
   *  show. */
  method RunOptimization(from: Date, to: Date, holidays: map<string, Date>, leavesAvail: int,
                         lo: int, hi: int, fmt: Date -> string) returns (shown: seq<Ranked>)
    ensures shown == Optimize(Query(from, to, holidays, leavesAvail), lo, hi, fmt)
    ensures var n := |Filter(RankedTable(Query(from, to, holidays, leavesAvail), fmt), InLengthRange(lo, hi))|;
            |shown| == if n <= TopN then n else TopN
    ensures |shown| <= TopN && Descending(shown) && DistinctKeys(shown)
    ensures forall i :: 0 <= i < |shown| ==>
              lo <= shown[i].numDaysOff <= hi && RankedBridge(Query(from, to, holidays, leavesAvail), fmt, shown[i])
    ensures TopSelection(Query(from, to, holidays, leavesAvail), fmt,
                         RankedTable(Query(from, to, holidays, leavesAvail), fmt), lo, hi, shown)
  {
    var yearDates := PreprocessDates(from, to, holidays);
    var leavePerm := PermConsecOffs(yearDates, leavesAvail);
    EnumerateWindows(yearDates, leavesAvail);
    var ranked := PostprocessLeavedates(leavePerm, fmt);
    assert ranked == RankedTable(Query(from, to, holidays, leavesAvail), fmt);
    shown := SelectTop(ranked, lo, hi);
  }
}
