/** Calendar builder: the day-by-day table of an inclusive date range, each day flagged as a
 *  day off (a Saturday, a Sunday or a public holiday) or a workday. */
module Calendar {

  /** A calendar date as a day number; day 0 is Thursday 1 January 1970. */
  type Date = int

  /** A 0/1 value, as the table's integer flag columns hold it. */
  type Bit = b: int | 0 <= b <= 1

  /** Index of the weekday, Monday = 0 through Sunday = 6. */
  function DayOfWeek(d: Date): (w: int)
    ensures 0 <= w < 7
  {
    (d + 3) % 7
  }

  /** A day off is a Saturday, a Sunday, or a date of the holiday table. */
  predicate IsDayOff(d: Date, holidays: map<string, Date>)
  {
    DayOfWeek(d) >= 5 || d in holidays.Values
  }

  /** One row of the calendar table: the date, its weekday and the three 0/1 columns. */
  datatype Row = Row(date: Date, dayOfWeek: int, weekend: Bit, publicHoliday: Bit, dayOff: Bit)

  /** The row for date `d`; Day Off is set when Weekend plus Public Holidays is positive. */
  function MakeRow(d: Date, holidays: map<string, Date>): (r: Row)
    ensures r.date == d && r.dayOfWeek == DayOfWeek(d)
    ensures r.weekend == 1 <==> DayOfWeek(d) >= 5
    ensures r.publicHoliday == 1 <==> d in holidays.Values
    ensures r.dayOff == 1 <==> IsDayOff(d, holidays)
  {
    var weekend: Bit := if DayOfWeek(d) >= 5 then 1 else 0;
    var holiday: Bit := if d in holidays.Values then 1 else 0;
    Row(d, DayOfWeek(d), weekend, holiday, if weekend + holiday > 0 then 1 else 0)
  }

  /** The calendar of every date from `from` to `to` inclusive; empty when `from` is after `to`. */
  function PreprocessDates(from: Date, to: Date, holidays: map<string, Date>): (rows: seq<Row>)
    ensures |rows| == if from <= to then to - from + 1 else 0
    ensures forall i :: 0 <= i < |rows| ==> rows[i].date == from + i && rows[i].dayOfWeek == DayOfWeek(rows[i].date)
    ensures forall i :: 0 <= i < |rows| ==> (rows[i].weekend == 1 <==> DayOfWeek(rows[i].date) >= 5)
    ensures forall i :: 0 <= i < |rows| ==> (rows[i].publicHoliday == 1 <==> rows[i].date in holidays.Values)
    ensures forall i :: 0 <= i < |rows| ==> (rows[i].dayOff == 1 <==> IsDayOff(rows[i].date, holidays))
  {
    var rows := seq(if from <= to then to - from + 1 else 0, i => MakeRow(from + i, holidays));
    assert forall i :: 0 <= i < |rows| ==> rows[i] == MakeRow(from + i, holidays);
    rows
  }

  /** A date has a row in the calendar exactly when it lies in [from, to], and then exactly one. */
  lemma CalendarCoversRange(from: Date, to: Date, holidays: map<string, Date>, d: Date)
    ensures (exists i :: 0 <= i < |PreprocessDates(from, to, holidays)|
               && PreprocessDates(from, to, holidays)[i].date == d)
            <==> from <= d <= to
    ensures forall i, j :: 0 <= i < j < |PreprocessDates(from, to, holidays)| ==>
              PreprocessDates(from, to, holidays)[i].date < PreprocessDates(from, to, holidays)[j].date
  {
    var rows := PreprocessDates(from, to, holidays);
    if from <= d <= to {
      assert rows[d - from].date == d;
    }
  }

  /** Number of workdays among the `len` consecutive dates starting at `a`. */
  function Workdays(a: Date, len: nat, holidays: map<string, Date>): (c: nat)
    ensures c <= len
  {
    if len == 0 then 0
    else Workdays(a, len - 1, holidays) + (if IsDayOff(a + len - 1, holidays) then 0 else 1)
  }

  /** The workday count is zero exactly when every date of the run is a day off, and the whole
   *  length exactly when none is. */
  lemma {:induction false} WorkdaysCount(a: Date, len: nat, holidays: map<string, Date>)
    ensures Workdays(a, len, holidays) == 0 <==> forall d :: a <= d < a + len ==> IsDayOff(d, holidays)
    ensures Workdays(a, len, holidays) == len <==> forall d :: a <= d < a + len ==> !IsDayOff(d, holidays)
  {
    if len > 0 {
      WorkdaysCount(a, len - 1, holidays);
    }
  }

  /** The `len` consecutive dates starting at `a`. */
  function DateRange(a: Date, len: nat): (ds: seq<Date>)
    ensures |ds| == len
    ensures forall i :: 0 <= i < len ==> ds[i] == a + i
  {
    seq(len, i => a + i)
  }
}
