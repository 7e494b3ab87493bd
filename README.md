# Leave maximisation: a verified model

This project models the core of the Leave Maximization App (`leave_max_app.py`). Given a
date range, a table of public holidays and a budget of leave days, the app lists every run of
consecutive days that the leave can bridge: weekends and holidays are free, and every workday in
the run costs one day of leave. It then keeps the runs that give more days off than the leave
they spend. For each Start Date and leave count it keeps the longest run. Finally it shows up to
one hundred runs whose length lies in the chosen range, the most days off per leave day first.

The model has five modules.

- `Calendar` (`calendar.dfy`) covers `preprocess_dates`. It builds one row per date of the
  range, in order. Day Off is set exactly on Saturdays, Sundays and holiday dates.
- `Enumerator` (`enumerator.dfy`) covers `perm_consec_offs`. It is the two-pointer sweep,
  written as a method with the source's nested `while` loops. The method is proved equal to a
  declarative list `Enumerate`: per start, every window within budget that spends some leave,
  except the one-day window at a start the sweep jumped to. Lemmas then characterise that list:
  what it contains, its order, and the empty budget. After an over-budget window the sweep
  moves to the next start and goes on past its one-day window (the `end += 1` after the reset
  on line 53). That window has efficiency at most 1, so the filter on line 68 drops it anyway.
  No longer window from the old start is lost: the leave cost only grows with the window
  (`Enumerator.LeavesMonotone`).
- `Ranker` (`ranker.dfy`) covers `postprocess_leavedates`. It computes the efficiency column,
  filters on efficiency above 1, applies `groupby(['Start Date', 'Leaves Used']).agg(max)`
  column by column, and adds the Period label. It proves that the groups come out in strictly
  increasing key order and that every key is covered. When the rows are runs of days, each
  grouped row is exactly the longest run of its group: the column-wise maxima all come from
  that one run.
- `Selection` (`selection.dfy`) covers lines 101-102: the length-range filter, the sort by
  efficiency descending and `head(100)`. It proves the selection is sorted, drawn from the
  in-range rows, the top of them, and free of repeated keys when the table is.
- `Pipeline` (`pipeline.dfy`) covers lines 97-102 end to end. A *bridge* is a run of
  consecutive days inside the range whose workdays need some leave, at most the budget, and
  fewer leave days than days. The module proves three things:
  - every ranked row is the row of a bridge, and it is the longest bridge with its Start Date
    and leave count;
  - every bridge is represented by a ranked row;
  - the rows shown are one hundred of the ranked rows in the length range, or all of them
    when there are fewer; they are rows of bridges, in non-increasing efficiency, with no
    Start Date and leave count twice, and no in-range ranked row left out is more efficient
    than a row shown (`TopSelection`).

  `RankedTable` and `Optimize` state these facts as the contracts of the ranked table and of
  the rows a run shows. The method `RunOptimization` makes the source's calls and is proved to
  return `Optimize`'s rows.

Dates are day numbers, with day 0 = Thursday 1 January 1970. A formatted date comes from a
parameter `fmt` that stands for `strftime('%a, %d %b %Y')`. An efficiency is the exact quotient
`Ratio(days, leaves)`, compared by cross-multiplication.

## Model

| member | source | states |
|---|---|---|
| Seqs.Filter | leave_max_app.py:68 | A `.loc[mask]` selection keeps only rows of the input that pass the test, never more rows than it had |
| Seqs.FilterMultiset | leave_max_app.py:68 | A row is kept exactly when it is in the input and passes the test; no row is duplicated |
| Seqs.FilterFilter | leave_max_app.py:70 | Filtering by a test and then by a stronger one is filtering by the stronger one alone, so setting one key aside leaves the other keys' rows as they were |
| Calendar.DayOfWeek | leave_max_app.py:22-26 | The weekday index lies in 0..6 (Monday = 0) |
| Calendar.MakeRow | leave_max_app.py:22-30 | A row carries its date and weekday; Weekend is 1 exactly on Saturday and Sunday (weekday 5 or 6), Public Holidays is 1 exactly on a holiday-table date, and Day Off is 1 exactly when either is |
| Calendar.PreprocessDates | leave_max_app.py:21-34 | One row per date of [from, to] in date order, empty when from is after to; every row's weekday, Weekend, Public Holidays and Day Off columns are set as for a single row |
| Calendar.CalendarCoversRange | leave_max_app.py:22 | A date has a row exactly when it lies in [from, to], and no date has two rows |
| Calendar.DateRange | leave_max_app.py:22 | n consecutive dates from a day: the i-th is that day plus i |
| Calendar.Workdays | leave_max_app.py:44 | A run of n days has at most n workdays |
| Calendar.WorkdaysCount | leave_max_app.py:44 | A run has no workdays exactly when all its days are off, and only workdays exactly when none is off |
| Enumerator.OffCount | leave_max_app.py:44 | The number of days off in a slice is at most its length |
| Enumerator.Leaves | leave_max_app.py:44 | The leave a window costs is between 0 and its length |
| Enumerator.Dates | leave_max_app.py:52 | The date column of a calendar slice: one date per row, in row order |
| Enumerator.WindowAt | leave_max_app.py:52 | The record appended for the window [s, e) lists e - s dates and has No. Days Off e - s |
| Enumerator.LeavesStep | leave_max_app.py:44 | Growing a window by one day adds one leave day exactly when the new day is a workday |
| Enumerator.LeavesMonotone | leave_max_app.py:44 | For a fixed start, the leave cost never shrinks as the window grows |
| Enumerator.Enumerate | leave_max_app.py:36-58 | Every listed window spends between 1 and the budget leave days, no more than its length, and lists one date per day |
| Enumerator.WindowsFromWithinBudget | leave_max_app.py:43-53 | Every window listed for one start spends between 1 and the budget leave days |
| Enumerator.WindowsAfterWithinBudget | leave_max_app.py:42-56 | Every window listed for the starts from a start on spends between 1 and the budget leave days |
| Enumerator.PendingEmits | leave_max_app.py:51-53 | A window within budget that spends leave is the next one appended |
| Enumerator.PendingQuiet | leave_max_app.py:51-53 | A window spending no leave is not appended |
| Enumerator.WindowsFromOverBudget | leave_max_app.py:46-48 | Once a window from a start is over budget, no longer window from that start is within budget |
| Enumerator.PendingJumps | leave_max_app.py:46-53 | After an over-budget window the sweep goes on from the next start, past its one-day window, and loses nothing |
| Enumerator.PendingExhausted | leave_max_app.py:54-55 | Past the last end, the sweep moves to the next start's one-day window |
| Enumerator.Next | leave_max_app.py:43-53 | One pass of the inner loop either moves to the next start or grows the window by one day |
| Enumerator.JumpKeepsPending | leave_max_app.py:46-53 | An over-budget window sends the sweep to the next start's two-day window, keeping the state reachable and the windows appended plus still to come the same |
| Enumerator.EmitKeepsPending | leave_max_app.py:51-53 | Appending a window within budget that spends leave moves it from the windows still to come to the output |
| Enumerator.QuietKeepsPending | leave_max_app.py:51-53 | Skipping a window that spends no leave keeps the windows appended plus still to come the same |
| Enumerator.NextKeepsPending | leave_max_app.py:43-53 | One pass of the inner loop appends what it removes from the windows still to come |
| Enumerator.ExhaustedKeepsPending | leave_max_app.py:54-55 | Leaving an exhausted start keeps the windows still to come |
| Enumerator.RunIsPending | leave_max_app.py:42-56 | Running the loops to completion from any reachable state (`Run`) returns the windows appended so far followed by exactly the windows still to come |
| Enumerator.RunIsEnumerate | leave_max_app.py:39-56 | The sweep started at the first one-day window returns exactly the enumerated list |
| Enumerator.PermConsecOffs | leave_max_app.py:36-58 | The nested loops return exactly the enumerated list of windows |
| Enumerator.InWindowsFrom | leave_max_app.py:43-53 | For one start, the windows listed from an end on are exactly the windows within budget that spend leave and end there or later |
| Enumerator.InWindowsAfter | leave_max_app.py:42-56 | The windows listed from a start on are exactly the windows within budget that spend leave, except the one-day window at a start reached by a jump |
| Enumerator.Enumerated | leave_max_app.py:36-58 | A window is listed exactly when some in-bounds span spends 1 to budget leave days and is not the one-day window of a start reached by a jump |
| Enumerator.EnumerateSound | leave_max_app.py:44-52 | Every listed window spends 1 to budget leave days, no more than its length, and is a contiguous slice of the calendar |
| Enumerator.BudgetOfNonEmpty | leave_max_app.py:46-51 | A non-empty list of windows within a budget implies a positive budget |
| Enumerator.NoBudgetNoWindows | leave_max_app.py:46-52 | With a budget of 0 or less, no window is listed |
| Enumerator.EfficientWindowsListed | leave_max_app.py:46-52 | Every window within budget that yields more days off than leave is listed; the sweep skips only one-day windows |
| Enumerator.WindowsFromShape | leave_max_app.py:43-53 | The windows of one start all begin on that start's date and grow strictly in length |
| Enumerator.WindowsAfterShape | leave_max_app.py:42-56 | The windows from a start on begin no earlier than it and come in sweep order |
| Enumerator.EnumerateInSweepOrder | leave_max_app.py:36-58 | On increasing dates, windows come by Start Date, and by length within one Start Date |
| Ranker.FormatDates | leave_max_app.py:65 | Each date of the list is formatted, in order |
| Ranker.Score | leave_max_app.py:62-65 | A window's scored row: Start Date is its first date and End Date its last, Days Off lists one formatted date per day starting and ending with the formatted Start and End Dates, leave and length are carried over, and efficiency is length over leave |
| Ranker.ScoreAll | leave_max_app.py:62-65 | The scored table has one row per window, scoring that window |
| Ranker.Efficient | leave_max_app.py:68 | Exactly the rows with efficiency above 1 are kept, and no row is added |
| Ranker.EfficientRows | leave_max_app.py:62-68 | Every kept row lists dates, has efficiency No. Days Off over Leaves Used, and has more days off than leave |
| Ranker.MinKeyIndex | leave_max_app.py:70 | Returns a row whose key no other row's key precedes |
| Ranker.MaxDays | leave_max_app.py:70 | The No. Days Off maximum is a group value and bounds every group value |
| Ranker.MaxEnd | leave_max_app.py:70 | The End Date maximum is a group value and bounds every group value |
| Ranker.MaxEff | leave_max_app.py:70 | The Days Off per Leave maximum is a group value |
| Ranker.MaxList | leave_max_app.py:70 | The Days Off maximum is one of the group's lists, and under Python's list order no list of the group is greater |
| Ranker.Period | leave_max_app.py:73 | The Period label is the first formatted date, then " - ", then the last formatted date, and nothing else |
| Ranker.Aggregate | leave_max_app.py:70-73 | The aggregated row carries the group's Start Date and Leaves Used |
| Ranker.AggregateIsColumnMax | leave_max_app.py:70-73 | Each aggregated column is its group's maximum: equal to some member's value, and at least every member's value (for Days off per Leave, when every member spends leave); the Period labels the maximal Days Off list |
| Ranker.GroupOf | leave_max_app.py:70 | Every row of a key's group is an input row with that key |
| Ranker.InGroupOf | leave_max_app.py:70 | Every input row with a key is in that key's group |
| Ranker.OtherGroups | leave_max_app.py:70 | Setting a key aside keeps only input rows with other keys |
| Ranker.InOtherGroups | leave_max_app.py:70 | Every input row with another key survives setting a key aside |
| Ranker.OtherGroupsShorter | leave_max_app.py:70 | Setting aside a key that occurs shortens the table |
| Ranker.GroupOfOthers | leave_max_app.py:70 | Setting one key aside leaves every other key's group unchanged |
| Ranker.Groups | leave_max_app.py:70 | The groups of `groupby`: each non-empty, no more groups than rows |
| Ranker.GroupsAbove | leave_max_app.py:70 | When every input key lies above a key, every group key does |
| Ranker.GroupsSorted | leave_max_app.py:70 | Group keys strictly increase by Start Date, then Leaves Used |
| Ranker.GroupsAreGroups | leave_max_app.py:70 | Each group holds exactly the input rows with its key |
| Ranker.GroupsKeyIndex | leave_max_app.py:70 | Every input row's key is the key of some group |
| Ranker.GroupMax | leave_max_app.py:70 | One aggregated row per group, carrying that group's key; no more rows than the input |
| Ranker.PostprocessLeavedates | leave_max_app.py:60-75 | At most one row per window; every row has more days off than leave, so efficiency above 1; keys strictly increase, so no Start Date and Leaves Used pair occurs twice |
| Ranker.RatioLeTrans | leave_max_app.py:62 | For positive leave counts, the efficiency order is transitive |
| Ranker.StrLtIrreflexive | leave_max_app.py:70 | No string is less than itself under Python's order |
| Ranker.StrLtTrans | leave_max_app.py:70 | Python's string order is transitive |
| Ranker.StrLtTotal | leave_max_app.py:70 | Of two different strings, one is less than the other under Python's order |
| Ranker.ListLtIrreflexive | leave_max_app.py:70 | No list of strings is less than itself under Python's order |
| Ranker.ListLtTrans | leave_max_app.py:70 | Python's order on lists of strings is transitive |
| Ranker.ListLtTotal | leave_max_app.py:70 | Of two different lists of strings, one is less than the other under Python's order |
| Ranker.MaxListStep | leave_max_app.py:70 | Comparing the first list with the maximum of the rest gives a list no list of the group exceeds |
| Ranker.PrefixListOrder | leave_max_app.py:70 | A proper prefix list is less than the longer list, and the longer list is not less than its prefix |
| Ranker.MaxEffIsMax | leave_max_app.py:70 | With positive leave counts, the efficiency maximum is at least every efficiency of the group |
| Ranker.MaxListOfPrefixes | leave_max_app.py:70 | When every list of a group is a prefix of one of them, that one is the Days Off maximum |
| Ranker.GroupMaxSorted | leave_max_app.py:70-72 | Grouped keys strictly increase by Start Date, then Leaves Used, so no two rows share a key |
| Ranker.GroupMaxRowsAreGroups | leave_max_app.py:70 | Every grouped row is the column-wise maximum of exactly the input rows with its key |
| Ranker.GroupMaxRowIsGroup | leave_max_app.py:70 | A given grouped row is the column-wise maximum of the non-empty group of input rows with its key |
| Ranker.GroupMaxCoversKey | leave_max_app.py:70 | Every input row's key has a grouped row |
| Ranker.GroupMaxEfficient | leave_max_app.py:68-70 | Aggregating rows with more days off than leave gives rows with more days off than leave and efficiency above 1 |
| Ranker.RunRow | leave_max_app.py:60-75 | The row of an n-day run lists its n formatted dates, and its Period is the first and last formatted date joined by " - " |
| Ranker.ScoreSpan | leave_max_app.py:62-65 | Scoring a run of consecutive days gives the run's Start Date, End Date, formatted dates and efficiency |
| Ranker.FormatDatesPrefix | leave_max_app.py:65 | A shorter run's formatted dates are a prefix of a longer run's from the same day |
| Ranker.MaxEndOfRuns | leave_max_app.py:64-70 | In a group of runs from one start, the latest End Date is the longest run's |
| Ranker.MaxEffOfRuns | leave_max_app.py:62-70 | In a group of runs with one positive leave count, the greatest efficiency is the longest run's |
| Ranker.MaxListOfRuns | leave_max_app.py:65-70 | In a group of runs from one start, the greatest Days Off list is the longest run's |
| Ranker.AggregateIsLongest | leave_max_app.py:70-73 | A group of runs from one start with one positive leave count aggregates to the row of its longest run |
| Ranker.ScoredRows | leave_max_app.py:62-68 | Every filtered row scores some window, with efficiency days/leave greater than 1 |
| Ranker.GroupIsRuns | leave_max_app.py:70 | The rows of one key are runs from the key's Start Date spending the key's leave |
| Ranker.GroupedRowIsLongest | leave_max_app.py:60-75 | Every grouped row is the row of the longest run with its key, and some input row has that length |
| Ranker.GroupedRowIsMax | leave_max_app.py:69-70 | A grouped row is at least as long as every input row with its key |
| Ranker.GroupedRowCovers | leave_max_app.py:69-70 | Every input row has a grouped row with its key that is at least as long |
| Selection.Insert | leave_max_app.py:102 | Inserting adds exactly the one row |
| Selection.SortDescending | leave_max_app.py:102 | The sort is a permutation of its input |
| Selection.ConsDescending | leave_max_app.py:102 | A row at least as efficient as every row of a descending list can go in front of it |
| Selection.InsertDescending | leave_max_app.py:102 | Inserting into a list in descending efficiency keeps it descending |
| Selection.SortDescendingSorted | leave_max_app.py:102 | The sort orders rows by efficiency, highest first |
| Selection.Head | leave_max_app.py:102 | `head(100)` keeps the first 100 rows, or all rows when there are fewer, in their order |
| Selection.HeadIsSub | leave_max_app.py:102 | `head` keeps no row more often than the list holds it |
| Selection.SelectTop | leave_max_app.py:101-102 | No more than 100 rows are shown |
| Selection.InRangeRows | leave_max_app.py:101 | The length filter keeps a sub-multiset of the rows |
| Selection.SelectTopSize | leave_max_app.py:101-102 | All in-range rows are shown when there are at most 100, otherwise exactly 100 |
| Selection.SelectTopSubset | leave_max_app.py:101-102 | Every shown row is a ranked row of length in [lo, hi], shown no more often than ranked |
| Selection.SelectTopDescending | leave_max_app.py:102 | Efficiencies never increase down the shown rows |
| Selection.SelectTopIsTop | leave_max_app.py:101-102 | An in-range ranked row left out is no more efficient than any row shown |
| Selection.BelowTop | leave_max_app.py:102 | In a descending list, a row left out by `head` is no more efficient than any row kept |
| Selection.DistinctKeysOfSub | leave_max_app.py:101-102 | Rows drawn from a list without repeated keys, none more often than listed, repeat no key |
| Selection.SelectTopDistinct | leave_max_app.py:101-102 | When no two ranked rows share a Start Date and leave count, no two shown rows do |
| Pipeline.EnumerateWindows | leave_max_app.py:98 | The sweep lists only feasible calendar windows, each with dates, and lists every worthwhile one |
| Pipeline.CalendarWindowsInOrder | leave_max_app.py:97-98 | Over the calendar, windows come by Start Date, and by length within one Start Date |
| Pipeline.LeavesAreWorkdays | leave_max_app.py:44 | On the calendar, a window's leave cost is its number of workdays |
| Pipeline.CalendarSpan | leave_max_app.py:52 | On the calendar, a window's dates are consecutive days |
| Pipeline.WindowIsBridge | leave_max_app.py:44-52 | A calendar window is feasible and gives more days than leave exactly when its dates form a bridge |
| Pipeline.ScoredWindow | leave_max_app.py:52-65 | A calendar window scores as the run of its dates, with its workdays as leave |
| Pipeline.WindowRowIsBridge | leave_max_app.py:97-99 | The scored row of a worthwhile calendar window is the row of a bridge |
| Pipeline.ScoredIsBridge | leave_max_app.py:97-99 | Every row that passes the efficiency filter is scored from a bridge |
| Pipeline.ScoredAreBridges | leave_max_app.py:97-99 | All rows that pass the efficiency filter are rows of bridges |
| Pipeline.BridgeWindow | leave_max_app.py:97-99 | A bridge's calendar window is worthwhile and scores with its start, length and workdays, above efficiency 1 |
| Pipeline.BridgeIsScored | leave_max_app.py:97-99 | Every bridge passes the efficiency filter as a row with its start, leave and length |
| Pipeline.GroupedRowIsBridge | leave_max_app.py:70-73 | Grouping rows of bridges gives rows of bridges, each labelled as its run |
| Pipeline.RankedRowsAreBridges | leave_max_app.py:97-99 | Every ranked row is the row of a bridge, with its dates, End Date and Period |
| Pipeline.ScoredHaveDates | leave_max_app.py:63-64 | Every filtered row lists at least one date |
| Pipeline.RankedRowIsLongest | leave_max_app.py:69-70 | No bridge from a ranked row's Start Date with its leave count is longer than the row |
| Pipeline.RankedRowsAreLongest | leave_max_app.py:97-99 | Every ranked row is the longest bridge from its Start Date with its leave count |
| Pipeline.ScoredRowIsRanked | leave_max_app.py:70 | A filtered row's Start Date and leave count reach the ranked table, at least as long |
| Pipeline.BridgeIsRanked | leave_max_app.py:97-99 | Every bridge is represented by a ranked row with its Start Date and leave count, at least as long |
| Pipeline.BridgesAreRanked | leave_max_app.py:97-99 | All bridges are represented in the ranked table |
| Pipeline.RankedTable | leave_max_app.py:97-99 | The ranked table of a run: every row is the row of a bridge and the longest one for its key, keys strictly increase, and every bridge is represented by a row at least as long |
| Pipeline.BridgesHavePositiveLeaves | leave_max_app.py:62 | Ranked rows of bridges have positive leave counts |
| Pipeline.ShownRows | leave_max_app.py:101-102 | At most 100 rows of bridges are shown, each of length in [lo, hi], in non-increasing efficiency |
| Pipeline.ShownRowsAreTop | leave_max_app.py:101-102 | Every in-range ranked row left out is no more efficient than any row shown |
| Pipeline.ShownSelection | leave_max_app.py:101-102 | Selecting from a key-ordered table of bridges shows `TopN` of its in-range rows, or all of them when there are fewer, no key twice, in non-increasing efficiency, leaving out no more efficient in-range row |
| Pipeline.Optimize | leave_max_app.py:97-102 | A run shows 100 rows of the ranked table with length in [lo, hi], or all of them when there are fewer; each is the row of a bridge, efficiency never increases, no Start Date and leave count occurs twice, and no in-range ranked row left out is more efficient than a row shown |
| Pipeline.RunOptimization | leave_max_app.py:97-102 | The run's calls return exactly the rows `Optimize` specifies: min(number of in-range ranked rows, 100) rows, in non-increasing efficiency, no key twice, each of length in [lo, hi] and the row of a bridge, and the top of the in-range rows |

## Left out

- The Streamlit page, its widgets, the Plotly timeline and the `print` call (lines 1-3 and 78 on) are presentation only. The run's inputs become parameters of `Pipeline.RunOptimization`.
- The holiday table of lines 7-19 is a parameter `holidays: map<string, Date>`; only its dates matter.
- The parsing done by `pd.to_datetime` is left out: holiday dates arrive as day numbers.
- `strftime('%a, %d %b %Y')` is the parameter `fmt`. Comparisons of formatted lists follow Python's string order over whatever `fmt` returns.
- Floating-point division on line 62 is modelled as the exact quotient `Ratio(days, leaves)`. Comparisons use cross-multiplication, so no rounding is modelled.
- Calendar.DayOfWeek: dates are day numbers from 1 January 1970, not pandas timestamps. Time of day and time zones are not modelled.
- Calendar.PreprocessDates: a range with `from` after `to` gives an empty calendar, which is what `pd.date_range` returns. The model raises no error for it.
- Selection.SortDescending: pandas' default quicksort is not stable, so the order of equal efficiencies is unspecified. The model uses an insertion sort and states only the order and the permutation, not the tie order.
- Ranker.GroupedRowIsLongest: it requires every row to spend some leave and to list its dates. Any other row would give a division by zero or an empty list on lines 62-64. The sweep emits neither kind (`Pipeline.EnumerateWindows`).
- Ranker.MaxEff: its contract states only that the maximum is a group value. Being the greatest is the separate lemma `Ranker.MaxEffIsMax`, which needs positive leave counts.
