/** Window enumerator: the two-pointer sweep over the calendar's Day Off flags that lists every
 *  contiguous window whose workdays can be bridged with at most the leave budget. */
module Enumerator {
  import opened Calendar

  /** One candidate window: the dates it spans, the leave days it spends and its length. */
  datatype Window = Window(daysOff: seq<Date>, leavesUsed: int, numDaysOff: int)

  /** The `sum` of the Day Off flags of the slice [s, e) of the calendar. */
  function OffCount(rows: seq<Row>, s: int, e: int): (c: nat)
    requires 0 <= s <= e <= |rows|
    ensures c <= e - s
    decreases e - s
  {
    if s == e then 0 else OffCount(rows, s, e - 1) + rows[e - 1].dayOff
  }

  /** Leave days the window [s, e) costs: its length minus its days off. */
  function Leaves(rows: seq<Row>, s: int, e: int): (l: int)
    requires 0 <= s <= e <= |rows|
    ensures 0 <= l <= e - s
  {
    (e - s) - OffCount(rows, s, e)
  }

  /** The date column of a slice of the calendar. */
  function Dates(rows: seq<Row>): (ds: seq<Date>)
    ensures |ds| == |rows|
    ensures forall i :: 0 <= i < |rows| ==> ds[i] == rows[i].date
  {
    seq(|rows|, i requires 0 <= i < |rows| => rows[i].date)
  }

  /** The record the sweep appends for the window [s, e). */
  function WindowAt(rows: seq<Row>, s: int, e: int): (w: Window)
    requires 0 <= s <= e <= |rows|
    ensures |w.daysOff| == w.numDaysOff == e - s
  {
    Window(Dates(rows[s..e]), Leaves(rows, s, e), e - s)
  }

  /** Growing a window by one day adds one leave day exactly when that day is a workday. */
  lemma LeavesStep(rows: seq<Row>, s: int, e: int)
    requires 0 <= s <= e < |rows|
    ensures Leaves(rows, s, e + 1) == Leaves(rows, s, e) + 1 - rows[e].dayOff
  {
  }

  /** For a fixed start, the leave cost never shrinks as the window grows. */
  lemma {:induction false} LeavesMonotone(rows: seq<Row>, s: int, e: int, e': int)
    requires 0 <= s <= e <= e' <= |rows|
    ensures Leaves(rows, s, e) <= Leaves(rows, s, e')
    decreases e' - e
  {
    if e < e' {
      LeavesStep(rows, s, e);
      LeavesMonotone(rows, s, e + 1, e');
    }
  }

  /** [s, e) is an in-bounds window that spends at least one and at most `budget` leave days. */
  predicate Feasible(rows: seq<Row>, budget: int, s: int, e: int)
  {
    0 <= s < e <= |rows| && 0 < Leaves(rows, s, e) <= budget
  }

  /** The sweep reaches start `s` by jumping there from `s - 1` after an over-budget window,
   *  which happens exactly when the window from `s - 1` to the end of the calendar is over budget. */
  predicate Landed(rows: seq<Row>, budget: int, s: int)
  {
    0 < s <= |rows| && Leaves(rows, s - 1, |rows|) > budget
  }

  /** The end of the first window the sweep examines at start `s`: after a jump the pointer
   *  moves past the one-day window, otherwise it begins there. */
  function FirstEnd(rows: seq<Row>, budget: int, s: int): (e: int)
  {
    if Landed(rows, budget, s) then s + 2 else s + 1
  }

  /** Every window of `ws` spends at least one and at most `budget` leave days, no more than
   *  its length, and its length is its number of dates. */
  predicate WithinBudget(ws: seq<Window>, budget: int)
  {
    forall k :: 0 <= k < |ws| ==>
      0 < ws[k].leavesUsed <= budget && ws[k].leavesUsed <= ws[k].numDaysOff == |ws[k].daysOff|
  }

  /** The windows emitted for start `s` from end `e` on: one per end within budget that
   *  spends some leave, in increasing order of end. */
  function WindowsFrom(rows: seq<Row>, budget: int, s: nat, e: int): (ws: seq<Window>)
    requires s < e
    decreases |rows| + 1 - e
  {
    if e > |rows| then []
    else (if 0 < Leaves(rows, s, e) <= budget then [WindowAt(rows, s, e)] else [])
         + WindowsFrom(rows, budget, s, e + 1)
  }

  /** The windows emitted for the starts from `s` on, in increasing order of start. */
  function WindowsAfter(rows: seq<Row>, budget: int, s: nat): (ws: seq<Window>)
    decreases |rows| - s
  {
    if s >= |rows| then []
    else WindowsFrom(rows, budget, s, FirstEnd(rows, budget, s)) + WindowsAfter(rows, budget, s + 1)
  }

  /** The list `perm_consec_offs` returns, as a function of the Day Off flags and the budget. */
  function Enumerate(rows: seq<Row>, budget: int): (ws: seq<Window>)
    ensures WithinBudget(ws, budget)
  {
    WindowsAfterWithinBudget(rows, budget, 0);
    WindowsAfter(rows, budget, 0)
  }

  /** Every window emitted for one start is within budget. */
  lemma {:induction false} WindowsFromWithinBudget(rows: seq<Row>, budget: int, s: nat, e: int)
    requires s < e
    ensures WithinBudget(WindowsFrom(rows, budget, s, e), budget)
    decreases |rows| + 1 - e
  {
    if e <= |rows| {
      WindowsFromWithinBudget(rows, budget, s, e + 1);
    }
  }

  /** Every window emitted for the starts from `s` on is within budget. */
  lemma {:induction false} WindowsAfterWithinBudget(rows: seq<Row>, budget: int, s: nat)
    ensures WithinBudget(WindowsAfter(rows, budget, s), budget)
    decreases |rows| - s
  {
    if s < |rows| {
      WindowsFromWithinBudget(rows, budget, s, FirstEnd(rows, budget, s));
      WindowsAfterWithinBudget(rows, budget, s + 1);
    }
  }

  /** The windows still to be appended when the sweep stands at window [s, e). */
  function Pending(rows: seq<Row>, budget: int, s: nat, e: int): (ws: seq<Window>)
    requires s < e
  {
    WindowsFrom(rows, budget, s, e) + WindowsAfter(rows, budget, s + 1)
  }

  /** At a window within budget that spends some leave, that window is the next one appended. */
  lemma PendingEmits(rows: seq<Row>, budget: int, s: nat, e: int)
    requires s < e <= |rows| && 0 < Leaves(rows, s, e) <= budget
    ensures Pending(rows, budget, s, e) == [WindowAt(rows, s, e)] + Pending(rows, budget, s, e + 1)
  {
  }

  /** A window that spends no leave is not appended. */
  lemma PendingQuiet(rows: seq<Row>, budget: int, s: nat, e: int)
    requires s < e <= |rows| && Leaves(rows, s, e) == 0 <= budget
    ensures Pending(rows, budget, s, e) == Pending(rows, budget, s, e + 1)
  {
    assert WindowsFrom(rows, budget, s, e) == WindowsFrom(rows, budget, s, e + 1);
  }

  /** No window from start `s` is emitted at or after an over-budget end. */
  lemma {:induction false} WindowsFromOverBudget(rows: seq<Row>, budget: int, s: nat, e: int)
    requires s < e <= |rows| && Leaves(rows, s, e) > budget
    ensures WindowsFrom(rows, budget, s, e) == []
    decreases |rows| - e
  {
    if e < |rows| {
      LeavesStep(rows, s, e);
      WindowsFromOverBudget(rows, budget, s, e + 1);
    }
  }

  /** Once a window is over budget, no longer window from the same start is emitted, and the
   *  sweep lands on the next start, where it continues with the two-day window. */
  lemma PendingJumps(rows: seq<Row>, budget: int, s: nat, e: int)
    requires s < e <= |rows| && Leaves(rows, s, e) > budget
    ensures Landed(rows, budget, s + 1)
    ensures Pending(rows, budget, s, e) == Pending(rows, budget, s + 1, s + 3)
  {
    WindowsFromOverBudget(rows, budget, s, e);
    LeavesMonotone(rows, s, e, |rows|);
    assert Pending(rows, budget, s + 1, s + 3) == WindowsAfter(rows, budget, s + 1);
  }

  /** Past the last end, the sweep moves to the next start and its one-day window, provided
   *  that start was not landed on. */
  lemma PendingExhausted(rows: seq<Row>, budget: int, s: nat, e: int)
    requires s < e && e > |rows|
    requires s + 1 < |rows| ==> !Landed(rows, budget, s + 1)
    ensures Pending(rows, budget, s, e) == Pending(rows, budget, s + 1, s + 2)
  {
    assert Pending(rows, budget, s, e) == WindowsAfter(rows, budget, s + 1);
  }

  /** The state of the sweep: the two pointers and the list built so far. */
  datatype Sweep = Sweep(start: int, end: int, out: seq<Window>)

  /** One pass of the inner loop body at a window inside the calendar. */
  function Next(rows: seq<Row>, budget: int, w: Sweep): (w': Sweep)
    requires 0 <= w.start < w.end <= |rows|
    ensures w'.start == w.start + 1 || (w'.start == w.start && w'.end == w.end + 1)
  {
    var used := Leaves(rows, w.start, w.end);
    if used > budget then Sweep(w.start + 1, w.start + 3, w.out)
    else if used > 0 then Sweep(w.start, w.end + 1, w.out + [WindowAt(rows, w.start, w.end)])
    else Sweep(w.start, w.end + 1, w.out)
  }

  /** What the sweep returns when run to completion from state `w`. */
  function Run(rows: seq<Row>, budget: int, w: Sweep): (out: seq<Window>)
    requires 0 <= w.start < w.end <= |rows| + 2
    decreases |rows| - w.start, |rows| + 2 - w.end
  {
    if w.start >= |rows| then w.out
    else if w.end > |rows| then Run(rows, budget, Sweep(w.start + 1, w.start + 2, w.out))
    else Run(rows, budget, Next(rows, budget, w))
  }

  /** The states from which the pending windows are exactly what the sweep still appends. */
  predicate Reachable(rows: seq<Row>, budget: int, w: Sweep)
  {
    0 <= w.start < w.end <= |rows| + 2
    && (w.end == |rows| + 2 ==> w.start >= |rows|)
    && (w.start + 2 < w.end <= |rows| + 1 ==> Leaves(rows, w.start, w.end - 1) <= budget)
  }

  /** The windows the sweep has appended and still will append are the same in `w` and `w'`. */
  predicate SameSchedule(rows: seq<Row>, budget: int, w: Sweep, w': Sweep)
    requires 0 <= w.start < w.end && 0 <= w'.start < w'.end
  {
    w'.out + Pending(rows, budget, w'.start, w'.end) == w.out + Pending(rows, budget, w.start, w.end)
  }

  /** A step that appends nothing and leaves the pending windows alone keeps the schedule. */
  lemma SameScheduleSilent(rows: seq<Row>, budget: int, w: Sweep, w': Sweep)
    requires 0 <= w.start < w.end && 0 <= w'.start < w'.end && w'.out == w.out
    requires Pending(rows, budget, w.start, w.end) == Pending(rows, budget, w'.start, w'.end)
    ensures SameSchedule(rows, budget, w, w')
  {
  }

  /** A step that moves the next pending window to the output keeps the schedule. */
  lemma SameScheduleEmit(rows: seq<Row>, budget: int, w: Sweep, w': Sweep, x: Window)
    requires 0 <= w.start < w.end && 0 <= w'.start < w'.end && w'.out == w.out + [x]
    requires Pending(rows, budget, w.start, w.end) == [x] + Pending(rows, budget, w'.start, w'.end)
    ensures SameSchedule(rows, budget, w, w')
  {
    AppendAssoc(w.out, x, Pending(rows, budget, w'.start, w'.end));
  }

  /** Appending one element and then a tail is appending the element-headed tail. */
  lemma AppendAssoc<T>(a: seq<T>, x: T, b: seq<T>)
    ensures (a + [x]) + b == a + ([x] + b)
  {
  }

  /** An over-budget window sends the sweep to the two-day window of the next start. */
  lemma JumpKeepsPending(rows: seq<Row>, budget: int, w: Sweep, w': Sweep)
    requires Reachable(rows, budget, w) && w.end <= |rows| && Leaves(rows, w.start, w.end) > budget
    requires w' == Sweep(w.start + 1, w.start + 3, w.out)
    ensures Reachable(rows, budget, w') && SameSchedule(rows, budget, w, w')
  {
    PendingJumps(rows, budget, w.start, w.end);
    SameScheduleSilent(rows, budget, w, w');
  }

  /** A window within budget that spends leave is appended, and the sweep widens it. */
  lemma EmitKeepsPending(rows: seq<Row>, budget: int, w: Sweep, w': Sweep)
    requires Reachable(rows, budget, w) && w.end <= |rows|
    requires 0 < Leaves(rows, w.start, w.end) <= budget
    requires w' == Sweep(w.start, w.end + 1, w.out + [WindowAt(rows, w.start, w.end)])
    ensures Reachable(rows, budget, w') && SameSchedule(rows, budget, w, w')
  {
    var x := WindowAt(rows, w.start, w.end);
    assert w'.start == w.start && w'.end - 1 == w.end && w'.out == w.out + [x];
    PendingEmits(rows, budget, w.start, w.end);
    SameScheduleEmit(rows, budget, w, w', x);
  }

  /** A window spending no leave is skipped, and the sweep widens it. */
  lemma QuietKeepsPending(rows: seq<Row>, budget: int, w: Sweep, w': Sweep)
    requires Reachable(rows, budget, w) && w.end <= |rows|
    requires Leaves(rows, w.start, w.end) == 0 <= budget
    requires w' == Sweep(w.start, w.end + 1, w.out)
    ensures Reachable(rows, budget, w') && SameSchedule(rows, budget, w, w')
  {
    assert w'.end - 1 == w.end;
    PendingQuiet(rows, budget, w.start, w.end);
    SameScheduleSilent(rows, budget, w, w');
  }

  /** One pass of the inner loop body keeps the state reachable and the windows still to come. */
  lemma NextKeepsPending(rows: seq<Row>, budget: int, w: Sweep)
    requires Reachable(rows, budget, w) && w.end <= |rows|
    ensures Reachable(rows, budget, Next(rows, budget, w))
    ensures SameSchedule(rows, budget, w, Next(rows, budget, w))
  {
    var w' := Next(rows, budget, w);
    if Leaves(rows, w.start, w.end) > budget {
      JumpKeepsPending(rows, budget, w, w');
    } else if Leaves(rows, w.start, w.end) > 0 {
      EmitKeepsPending(rows, budget, w, w');
    } else {
      QuietKeepsPending(rows, budget, w, w');
    }
  }

  /** Leaving a start whose windows are exhausted keeps the state reachable and the windows
   *  still to come. */
  lemma ExhaustedKeepsPending(rows: seq<Row>, budget: int, w: Sweep, w': Sweep)
    requires Reachable(rows, budget, w) && w.start < |rows| < w.end
    requires w' == Sweep(w.start + 1, w.start + 2, w.out)
    ensures Reachable(rows, budget, w') && SameSchedule(rows, budget, w, w')
  {
    PendingExhausted(rows, budget, w.start, w.end);
    SameScheduleSilent(rows, budget, w, w');
  }

  /** From a reachable state, the sweep appends exactly the pending windows. */
  lemma {:induction false} RunIsPending(rows: seq<Row>, budget: int, w: Sweep)
    requires Reachable(rows, budget, w)
    ensures Run(rows, budget, w) == w.out + Pending(rows, budget, w.start, w.end)
    decreases |rows| - w.start, |rows| + 2 - w.end
  {
    if w.start >= |rows| {
      assert Pending(rows, budget, w.start, w.end) == [];
    } else if w.end > |rows| {
      var w' := Sweep(w.start + 1, w.start + 2, w.out);
      ExhaustedKeepsPending(rows, budget, w, w');
      RunIsPending(rows, budget, w');
    } else {
      var w' := Next(rows, budget, w);
      NextKeepsPending(rows, budget, w);
      RunIsPending(rows, budget, w');
    }
  }

  /** The sweep started at the first one-day window lists exactly the enumerated windows. */
  lemma RunIsEnumerate(rows: seq<Row>, budget: int)
    ensures Run(rows, budget, Sweep(0, 1, [])) == Enumerate(rows, budget)
  {
    RunIsPending(rows, budget, Sweep(0, 1, []));
    assert Pending(rows, budget, 0, 1) == WindowsAfter(rows, budget, 0);
  }

  /** The sweep of `perm_consec_offs`: `start` and `end` walk the calendar; an over-budget window
   *  moves `start` on by one, and a window spending some leave within budget is appended. */
  method PermConsecOffs(calendarDays: seq<Row>, noLeaves: int) returns (permutations: seq<Window>)
    ensures permutations == Enumerate(calendarDays, noLeaves)
  {
    RunIsEnumerate(calendarDays, noLeaves);
    ghost var target := Run(calendarDays, noLeaves, Sweep(0, 1, []));
    var n := |calendarDays|;
    permutations := [];
    var start := 0;
    var end := 1;
    while start < n
      invariant 0 <= start <= n + 1 && end == start + 1
      invariant Run(calendarDays, noLeaves, Sweep(start, end, permutations)) == target
      decreases n - start
    {
      ghost var start0 := start;
      while end < n + 1
        invariant start0 <= start <= n && start < end <= n + 2
        invariant Run(calendarDays, noLeaves, Sweep(start, end, permutations)) == target
        decreases n - start, n + 2 - end
      {
        ghost var before := Sweep(start, end, permutations);
        var leavesUsed := (end - start) - OffCount(calendarDays, start, end);
        if leavesUsed > noLeaves {
          start := start + 1;
          end := start + 1;
          leavesUsed := 0;
        }
        if leavesUsed > 0 {
          permutations := permutations + [Window(Dates(calendarDays[start..end]), leavesUsed, end - start)];
        }
        end := end + 1;
        assert Next(calendarDays, noLeaves, before) == Sweep(start, end, permutations);
      }
      start := start + 1;
      end := start + 1;
    }
  }

  /** The windows emitted for start `s` from end `e` on are exactly the in-budget windows
   *  from `s` that spend some leave and end at or after `e`. */
  lemma {:induction false} InWindowsFrom(rows: seq<Row>, budget: int, s: nat, e: int, w: Window)
    requires s < e
    ensures w in WindowsFrom(rows, budget, s, e) <==>
              exists e' :: e <= e' <= |rows| && Feasible(rows, budget, s, e') && w == WindowAt(rows, s, e')
    decreases |rows| + 1 - e
  {
    if e <= |rows| {
      var head := if 0 < Leaves(rows, s, e) <= budget then [WindowAt(rows, s, e)] else [];
      assert WindowsFrom(rows, budget, s, e) == head + WindowsFrom(rows, budget, s, e + 1);
      InWindowsFrom(rows, budget, s, e + 1, w);
      if w in head {
        assert e <= e <= |rows| && Feasible(rows, budget, s, e) && w == WindowAt(rows, s, e);
      }
      if exists e' :: e <= e' <= |rows| && Feasible(rows, budget, s, e') && w == WindowAt(rows, s, e') {
        var e' :| e <= e' <= |rows| && Feasible(rows, budget, s, e') && w == WindowAt(rows, s, e');
        if e' == e {
          assert w in head;
        } else {
          assert e + 1 <= e' <= |rows| && Feasible(rows, budget, s, e') && w == WindowAt(rows, s, e');
        }
      }
    }
  }

  /** The windows emitted for the starts from `s` on are exactly the in-budget windows from
   *  those starts that spend some leave and are not the one-day window of a landed start. */
  lemma {:induction false} InWindowsAfter(rows: seq<Row>, budget: int, s: nat, w: Window)
    ensures w in WindowsAfter(rows, budget, s) <==>
              exists s', e' :: s <= s' && Feasible(rows, budget, s', e') && FirstEnd(rows, budget, s') <= e'
                               && w == WindowAt(rows, s', e')
    decreases |rows| - s
  {
    if s < |rows| {
      InWindowsFrom(rows, budget, s, FirstEnd(rows, budget, s), w);
      InWindowsAfter(rows, budget, s + 1, w);
      if exists s', e' :: s <= s' && Feasible(rows, budget, s', e') && FirstEnd(rows, budget, s') <= e'
                          && w == WindowAt(rows, s', e') {
        var s', e' :| s <= s' && Feasible(rows, budget, s', e') && FirstEnd(rows, budget, s') <= e'
                      && w == WindowAt(rows, s', e');
        if s' == s {
          assert FirstEnd(rows, budget, s) <= e' <= |rows| && Feasible(rows, budget, s, e');
        } else {
          assert s + 1 <= s' && Feasible(rows, budget, s', e') && FirstEnd(rows, budget, s') <= e';
        }
      }
    }
  }

  /** A window is listed exactly when some in-bounds span spends at least one and at most
   *  `budget` leave days, unless it is the one-day window at a start the sweep jumped to. */
  lemma Enumerated(rows: seq<Row>, budget: int, w: Window)
    ensures w in Enumerate(rows, budget) <==>
              exists s, e :: Feasible(rows, budget, s, e) && !(e == s + 1 && Landed(rows, budget, s))
                             && w == WindowAt(rows, s, e)
  {
    InWindowsAfter(rows, budget, 0, w);
    if exists s, e :: Feasible(rows, budget, s, e) && !(e == s + 1 && Landed(rows, budget, s))
                      && w == WindowAt(rows, s, e) {
      var s, e :| Feasible(rows, budget, s, e) && !(e == s + 1 && Landed(rows, budget, s))
                  && w == WindowAt(rows, s, e);
      assert 0 <= s && Feasible(rows, budget, s, e) && FirstEnd(rows, budget, s) <= e;
    }
  }

  /** Every listed window spends at least one and at most `budget` leave days, its length is
   *  its number of dates, and it spends no more leave days than it spans. */
  lemma EnumerateSound(rows: seq<Row>, budget: int, w: Window)
    requires w in Enumerate(rows, budget)
    ensures 0 < w.leavesUsed <= budget
    ensures w.numDaysOff == |w.daysOff| && w.leavesUsed <= w.numDaysOff
    ensures exists s, e :: 0 <= s < e <= |rows| && w == WindowAt(rows, s, e)
  {
    Enumerated(rows, budget, w);
  }

  /** A non-empty list of windows within a budget has a positive budget. */
  lemma BudgetOfNonEmpty(ws: seq<Window>, budget: int)
    requires WithinBudget(ws, budget) && ws != []
    ensures budget > 0
  {
    assert 0 < ws[0].leavesUsed;
  }

  /** With no leave to spend, no window is listed. */
  lemma NoBudgetNoWindows(rows: seq<Row>, budget: int)
    requires budget <= 0
    ensures Enumerate(rows, budget) == []
  {
    var ws := Enumerate(rows, budget);
    if ws != [] {
      BudgetOfNonEmpty(ws, budget);
    }
  }

  /** The only in-budget windows the sweep skips are one-day windows, so every in-budget window
   *  that yields more days off than the leave it spends is listed. */
  lemma EfficientWindowsListed(rows: seq<Row>, budget: int, s: int, e: int)
    requires Feasible(rows, budget, s, e) && e - s > Leaves(rows, s, e)
    ensures WindowAt(rows, s, e) in Enumerate(rows, budget)
  {
    Enumerated(rows, budget, WindowAt(rows, s, e));
  }

  // ---------------------------------------------------------------------------------------
  // The order of the list

  /** The calendar's dates strictly increase down the table. */
  predicate DatesIncrease(rows: seq<Row>)
  {
    forall i, j :: 0 <= i < j < |rows| ==> rows[i].date < rows[j].date
  }

  /** `v` comes before `w` in the sweep: it starts earlier, or on the same date and is shorter. */
  predicate SweptBefore(v: Window, w: Window)
  {
    |v.daysOff| > 0 && |w.daysOff| > 0
    && (v.daysOff[0] < w.daysOff[0] || (v.daysOff[0] == w.daysOff[0] && v.numDaysOff < w.numDaysOff))
  }

  /** The windows emitted for start `s` from end `e` on all start on the date of row `s`, are at
   *  least `e - s` days long, and grow strictly along the list. */
  lemma {:induction false} WindowsFromShape(rows: seq<Row>, budget: int, s: nat, e: int)
    requires s < e
    ensures forall k :: 0 <= k < |WindowsFrom(rows, budget, s, e)| ==>
              s < |rows| && |WindowsFrom(rows, budget, s, e)[k].daysOff| > 0
              && WindowsFrom(rows, budget, s, e)[k].daysOff[0] == rows[s].date
              && e - s <= WindowsFrom(rows, budget, s, e)[k].numDaysOff
    ensures forall k, l :: 0 <= k < l < |WindowsFrom(rows, budget, s, e)| ==>
              WindowsFrom(rows, budget, s, e)[k].numDaysOff < WindowsFrom(rows, budget, s, e)[l].numDaysOff
    decreases |rows| + 1 - e
  {
    if e <= |rows| {
      var head := if 0 < Leaves(rows, s, e) <= budget then [WindowAt(rows, s, e)] else [];
      var tail := WindowsFrom(rows, budget, s, e + 1);
      var all := WindowsFrom(rows, budget, s, e);
      assert all == head + tail;
      WindowsFromShape(rows, budget, s, e + 1);
      forall k | 0 <= k < |all|
        ensures s < |rows| && |all[k].daysOff| > 0 && all[k].daysOff[0] == rows[s].date && e - s <= all[k].numDaysOff
      {
        if k >= |head| {
          assert all[k] == tail[k - |head|];
        }
      }
    } else {
      assert WindowsFrom(rows, budget, s, e) == [];
    }
  }

  /** The windows emitted for the starts from `s` on start no earlier than row `s` and come in
   *  sweep order. */
  lemma {:induction false} WindowsAfterShape(rows: seq<Row>, budget: int, s: nat)
    requires DatesIncrease(rows)
    ensures forall k :: 0 <= k < |WindowsAfter(rows, budget, s)| ==>
              s < |rows| && |WindowsAfter(rows, budget, s)[k].daysOff| > 0
              && rows[s].date <= WindowsAfter(rows, budget, s)[k].daysOff[0]
    ensures forall k, l :: 0 <= k < l < |WindowsAfter(rows, budget, s)| ==>
              SweptBefore(WindowsAfter(rows, budget, s)[k], WindowsAfter(rows, budget, s)[l])
    decreases |rows| - s
  {
    if s < |rows| {
      var head := WindowsFrom(rows, budget, s, FirstEnd(rows, budget, s));
      var tail := WindowsAfter(rows, budget, s + 1);
      var all := WindowsAfter(rows, budget, s);
      assert all == head + tail;
      WindowsFromShape(rows, budget, s, FirstEnd(rows, budget, s));
      WindowsAfterShape(rows, budget, s + 1);
      forall k | |head| <= k < |all|
        ensures |all[k].daysOff| > 0 && rows[s].date < all[k].daysOff[0]
      {
        assert all[k] == tail[k - |head|];
      }
      forall k, l | 0 <= k < l < |all|
        ensures SweptBefore(all[k], all[l])
      {
        if l < |head| {
        } else if k >= |head| {
          assert all[k] == tail[k - |head|] && all[l] == tail[l - |head|];
        }
      }
    } else {
      assert WindowsAfter(rows, budget, s) == [];
    }
  }

  /** On a calendar whose dates increase, the list comes in sweep order: by start date, and by
   *  length among windows with the same start. */
  lemma EnumerateInSweepOrder(rows: seq<Row>, budget: int)
    requires DatesIncrease(rows)
    ensures forall k, l :: 0 <= k < l < |Enumerate(rows, budget)| ==>
              SweptBefore(Enumerate(rows, budget)[k], Enumerate(rows, budget)[l])
  {
    WindowsAfterShape(rows, budget, 0);
  }
}
