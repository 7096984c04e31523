/**
 * The month grid of the calendar screen (components/calendar/CalendarView.tsx):
 * JavaScript's calendar arithmetic for `new Date(year, month, day)`, the
 * Monday-first grid of whole weeks that covers a month, month navigation, and
 * the per-cell tests (same month, today, selected, has events).
 *
 * A date is a calendar day of the proleptic Gregorian calendar with a 0-based
 * month, as `getFullYear`, `getMonth` and `getDate` report it.
 */
module Calendar {

  datatype Date = Date(year: int, month: int, day: int)

  predicate IsLeapYear(y: int) {
    y % 4 == 0 && (y % 100 != 0 || y % 400 == 0)
  }

  function DaysInMonth(y: int, m: int): (n: int)
    requires 0 <= m < 12
    ensures 28 <= n <= 31
    ensures n == 29 <==> m == 1 && IsLeapYear(y)
  {
    if m == 1 then (if IsLeapYear(y) then 29 else 28)
    else if m == 3 || m == 5 || m == 8 || m == 10 then 30
    else 31
  }

  predicate ValidDate(d: Date) {
    0 <= d.month < 12 && 1 <= d.day <= DaysInMonth(d.year, d.month)
  }

  /** The year `new Date(y, …)` means: 0 to 99 stand for 1900 to 1999. */
  function JsYear(y: int): int {
    if 0 <= y <= 99 then 1900 + y else y
  }

  /** Days from 1 January of year 1 to 1 January of year y. */
  function DaysBeforeYear(y: int): int {
    365 * (y - 1) + (y - 1) / 4 - (y - 1) / 100 + (y - 1) / 400
  }

  /** Days from 1 January to the first of month m. */
  function DaysBeforeMonth(y: int, m: int): int
    requires 0 <= m < 12
  {
    var before :=
      if m == 0 then 0 else if m == 1 then 31 else if m == 2 then 59 else if m == 3 then 90
      else if m == 4 then 120 else if m == 5 then 151 else if m == 6 then 181 else if m == 7 then 212
      else if m == 8 then 243 else if m == 9 then 273 else if m == 10 then 304 else 334;
    before + (if m >= 2 && IsLeapYear(y) then 1 else 0)
  }

  /** Days since 1 January of year 1, which was a Monday. */
  function DayNumber(d: Date): int
    requires 0 <= d.month < 12
  {
    DaysBeforeYear(d.year) + DaysBeforeMonth(d.year, d.month) + d.day - 1
  }

  /** `getDay()`: 0 for Sunday, 1 for Monday, …, 6 for Saturday. */
  function GetDay(d: Date): int
    requires 0 <= d.month < 12
  {
    (DayNumber(d) + 1) % 7
  }

  /** The source's week numbering: Monday 1 to Sunday 7. */
  function IsoWeekday(d: Date): int
    requires 0 <= d.month < 12
  {
    if GetDay(d) == 0 then 7 else GetDay(d)
  }

  /** The year a month index from -1 to 12 carries into: `m / 12` for those indices. */
  function Carry(m: int): int
    requires -1 <= m <= 12
  {
    if m < 0 then -1 else if m > 11 then 1 else 0
  }

  /** The month a month index from -1 to 12 wraps to: `m % 12` for those indices. */
  function Wrap(m: int): int
    requires -1 <= m <= 12
  {
    if m < 0 then 11 else if m > 11 then 0 else m
  }

  /**
   * `new Date(y, m, d)` for the days the screen asks for: the month is brought
   * into 0..11 by carrying whole years, and day 0 is the last day of the
   * month before.
   */
  function MakeDate(y: int, m: int, d: int): (r: Date)
    requires -1 <= m <= 12 && 0 <= d <= DaysInMonth(JsYear(y) + Carry(m), Wrap(m))
    ensures ValidDate(r)
  {
    var yy := JsYear(y) + Carry(m);
    var mm := Wrap(m);
    if d >= 1 then Date(yy, mm, d)
    else if mm == 0 then Date(yy - 1, 11, 31)
    else Date(yy, mm - 1, DaysInMonth(yy, mm - 1))
  }

  /** 1 January follows 31 December. */
  lemma YearBoundary(y: int)
    ensures DayNumber(Date(y + 1, 0, 1)) == DayNumber(Date(y, 11, 31)) + 1
  {
    YearLength(y);
  }

  /** A year has 366 days when it is a leap year and 365 otherwise. */
  lemma YearLength(y: int)
    ensures DaysBeforeYear(y + 1) == DaysBeforeYear(y) + 365 + (if IsLeapYear(y) then 1 else 0)
  {
    FloorStep4(y);
    FloorStep100(y);
    FloorStep400(y);
    LeapByMultiples(y);
  }

  /** Multiples of 400 are multiples of 100, which are multiples of 4. */
  lemma LeapByMultiples(y: int)
    ensures (if y % 4 == 0 then 1 else 0) - (if y % 100 == 0 then 1 else 0) + (if y % 400 == 0 then 1 else 0)
      == if IsLeapYear(y) then 1 else 0
  {
    if y % 400 == 0 {
      var q := y / 400;
      assert y == 100 * (4 * q);
      assert y == 4 * (100 * q);
    } else if y % 100 == 0 {
      var q := y / 100;
      assert y == 4 * (25 * q);
    }
  }

  /** Counting multiples of 4, 100 and 400 up to y rather than y - 1 adds one exactly when y is such a multiple. */
  lemma FloorStep4(y: int)
    ensures y / 4 - (y - 1) / 4 == if y % 4 == 0 then 1 else 0
  {
    var q, r := y / 4, y % 4;
    if r == 0 { assert y - 1 == 4 * (q - 1) + 3; } else { assert y - 1 == 4 * q + (r - 1); }
  }

  lemma FloorStep100(y: int)
    ensures y / 100 - (y - 1) / 100 == if y % 100 == 0 then 1 else 0
  {
    var q, r := y / 100, y % 100;
    if r == 0 { assert y - 1 == 100 * (q - 1) + 99; } else { assert y - 1 == 100 * q + (r - 1); }
  }

  lemma FloorStep400(y: int)
    ensures y / 400 - (y - 1) / 400 == if y % 400 == 0 then 1 else 0
  {
    var q, r := y / 400, y % 400;
    if r == 0 { assert y - 1 == 400 * (q - 1) + 399; } else { assert y - 1 == 400 * q + (r - 1); }
  }

  /** The first of the month after month m of year y. */
  function NextMonthStart(y: int, m: int): Date
    requires 0 <= m < 12
  {
    if m == 11 then Date(y + 1, 0, 1) else Date(y, m + 1, 1)
  }

  /** The first of a month follows the last day of the month before. */
  lemma MonthBoundary(y: int, m: int)
    requires 0 <= m < 12
    ensures DayNumber(NextMonthStart(y, m)) == DayNumber(Date(y, m, DaysInMonth(y, m))) + 1
  {
    if m == 11 {
      YearBoundary(y);
    }
  }

  // ---------------------------------------------------------------------------
  // The month grid
  // ---------------------------------------------------------------------------

  /** `new Date(year, month, 1)`: the first day of the month the grid shows. */
  function FirstOfMonth(date: Date): Date
    requires ValidDate(date)
  {
    MakeDate(date.year, date.month, 1)
  }

  /** How many days of the month before fill the first week: Monday needs none, Sunday six. */
  function Lead(date: Date): int
    requires ValidDate(date)
  {
    IsoWeekday(FirstOfMonth(date)) - 1
  }

  /** `new Date(year, month, 0)`: the last day of the month before. */
  function LastOfPreviousMonth(date: Date): Date
    requires ValidDate(date)
  {
    MakeDate(date.year, date.month, 0)
  }

  /** `new Date(year, month + 1, 1)`: the first day of the month after. */
  function FirstOfNextMonth(date: Date): Date
    requires ValidDate(date)
  {
    MakeDate(date.year, date.month + 1, 1)
  }

  /**
   * The grid of a month: whole weeks from Monday to Sunday, consecutive days
   * starting with the Monday on or before the first of the month, ending with
   * the Sunday on or after its last day, the month's own days in place.
   */
  ghost predicate IsCalendarGrid(days: seq<Date>, date: Date)
    requires ValidDate(date)
  {
    var first := FirstOfMonth(date);
    var lead := Lead(date);
    var n := DaysInMonth(first.year, first.month);
    var l := LastOfPreviousMonth(date);
    var f := FirstOfNextMonth(date);
    |days| % 7 == 0 && lead + n <= |days| < lead + n + 7 &&
    (forall j :: 0 <= j < |days| ==> ValidDate(days[j]) && DayNumber(days[j]) == DayNumber(first) - lead + j) &&
    (forall j :: 0 <= j < lead ==> days[j] == Date(l.year, l.month, l.day - lead + 1 + j)) &&
    (forall j :: lead <= j < lead + n ==> days[j] == Date(first.year, first.month, j - lead + 1)) &&
    (forall j :: lead + n <= j < |days| ==> days[j] == Date(f.year, f.month, j - lead - n + 1))
  }

  /** `new Date(year, month, 1)`, `new Date(year, month, 0)` and `new Date(year, month + 1, …)` for a month of the grid. */
  lemma MonthEnds(date: Date)
    requires ValidDate(date)
    ensures FirstOfMonth(date) == Date(JsYear(date.year), date.month, 1)
    ensures LastOfPreviousMonth(date) ==
      if date.month == 0 then Date(JsYear(date.year) - 1, 11, 31)
      else Date(JsYear(date.year), date.month - 1, DaysInMonth(JsYear(date.year), date.month - 1))
    ensures FirstOfNextMonth(date) == NextMonthStart(JsYear(date.year), date.month)
    ensures JsYear(date.year) + Carry(date.month - 1) == LastOfPreviousMonth(date).year
    ensures Wrap(date.month - 1) == LastOfPreviousMonth(date).month
    ensures JsYear(date.year) + Carry(date.month + 1) == FirstOfNextMonth(date).year
    ensures Wrap(date.month + 1) == FirstOfNextMonth(date).month
    ensures MakeDate(date.year, date.month + 1, 0) == Date(JsYear(date.year), date.month, DaysInMonth(JsYear(date.year), date.month))
  {
  }

  /** What the source relies on about the month before: its last day, its days and where they fall. */
  lemma PreviousMonthFacts(date: Date)
    requires ValidDate(date)
    ensures var l := LastOfPreviousMonth(date);
      l.day == DaysInMonth(l.year, l.month) && DayNumber(l) + 1 == DayNumber(FirstOfMonth(date))
  {
    var l := LastOfPreviousMonth(date);
    MonthEnds(date);
    assert NextMonthStart(l.year, l.month) == FirstOfMonth(date);
    MonthBoundary(l.year, l.month);
  }

  /** What the source relies on about the month after: its first day and where it falls. */
  lemma NextMonthFacts(date: Date)
    requires ValidDate(date)
    ensures var first := FirstOfMonth(date);
      var f := FirstOfNextMonth(date);
      f.day == 1 && DayNumber(f) == DayNumber(first) + DaysInMonth(first.year, first.month)
  {
    var first := FirstOfMonth(date);
    MonthEnds(date);
    MonthBoundary(first.year, first.month);
    DaysWithinMonth(first.year, first.month, DaysInMonth(first.year, first.month));
  }

  /** Within a month, the day number grows with the day of the month. */
  lemma DaysWithinMonth(y: int, m: int, d: int)
    requires 0 <= m < 12
    ensures DayNumber(Date(y, m, d)) == DayNumber(Date(y, m, 1)) + d - 1
  {
  }

  /**
   * What the grid is laid out from: how many days of the month before lead,
   * the last day of that month, the first of the month, its length and the
   * first of the month after.
   */
  datatype Frame = Frame(lead: int, before: Date, first: Date, n: int, after: Date)

  function FrameOf(date: Date): Frame
    requires ValidDate(date)
  {
    var first := FirstOfMonth(date);
    Frame(Lead(date), LastOfPreviousMonth(date), first, DaysInMonth(first.year, first.month), FirstOfNextMonth(date))
  }

  /** The j-th cell laid out from a frame: the month before while j < lead, then the month, then the month after. */
  function FrameCell(fr: Frame, j: int): Date {
    if j < fr.lead then Date(fr.before.year, fr.before.month, fr.before.day - fr.lead + 1 + j)
    else if j < fr.lead + fr.n then Date(fr.first.year, fr.first.month, j - fr.lead + 1)
    else Date(fr.after.year, fr.after.month, j - fr.lead - fr.n + 1)
  }

  /** The j-th cell of the grid of the month of date. */
  function Cell(date: Date, j: int): Date
    requires ValidDate(date)
  {
    FrameCell(FrameOf(date), j)
  }

  /** Each cell is a real date, one day after the cell before it. */
  lemma CellDayNumber(date: Date, j: int)
    requires ValidDate(date) && 0 <= j < Lead(date) + DaysInMonth(FirstOfMonth(date).year, FirstOfMonth(date).month) + 7
    ensures ValidDate(Cell(date, j))
    ensures DayNumber(Cell(date, j)) == DayNumber(FirstOfMonth(date)) - Lead(date) + j
  {
    var lead := Lead(date);
    var l := LastOfPreviousMonth(date);
    var first := FirstOfMonth(date);
    var n := DaysInMonth(first.year, first.month);
    var f := FirstOfNextMonth(date);
    var c := Cell(date, j);
    PreviousMonthFacts(date);
    NextMonthFacts(date);
    DaysWithinMonth(c.year, c.month, c.day);
    if j < lead {
      DaysWithinMonth(l.year, l.month, l.day);
    } else if j < lead + n {
      MonthEnds(date);
    }
  }

  /** Cells laid out as `Cell` describes form the grid of the month. */
  lemma CellsFormGrid(days: seq<Date>, date: Date)
    requires ValidDate(date)
    requires |days| % 7 == 0
    requires Lead(date) + DaysInMonth(FirstOfMonth(date).year, FirstOfMonth(date).month) <= |days|
    requires |days| < Lead(date) + DaysInMonth(FirstOfMonth(date).year, FirstOfMonth(date).month) + 7
    requires forall j :: 0 <= j < |days| ==> days[j] == Cell(date, j)
    ensures IsCalendarGrid(days, date)
  {
    MonthEnds(date);
    forall j | 0 <= j < |days|
      ensures ValidDate(days[j]) && DayNumber(days[j]) == DayNumber(FirstOfMonth(date)) - Lead(date) + j
    {
      CellDayNumber(date, j);
    }
  }

  /** Topping k up by 7 - k % 7 days, unless that is a whole week, ends on a whole number of weeks. */
  lemma WholeWeeks(k: nat)
    ensures (k + 7 - k % 7) % 7 == 0
    ensures k % 7 == 0 <==> 7 - k % 7 == 7
  {
    var q, r := k / 7, k % 7;
    assert k + 7 - r == 7 * (q + 1);
  }

  /** How many cells the grid has: the lead and the month, topped up to whole weeks. */
  function GridLength(date: Date): nat
    requires ValidDate(date)
  {
    var k := Lead(date) + DaysInMonth(FirstOfMonth(date).year, FirstOfMonth(date).month);
    if k % 7 == 0 then k else k + 7 - k % 7
  }

  /** The grid of a month, cell by cell. */
  function CalendarGrid(date: Date): (r: seq<Date>)
    requires ValidDate(date)
    ensures |r| == GridLength(date)
  {
    seq(GridLength(date), j requires 0 <= j < GridLength(date) => Cell(date, j))
  }

  /** The grid of a month is a calendar grid. */
  lemma CalendarGridIsGrid(date: Date)
    requires ValidDate(date)
    ensures IsCalendarGrid(CalendarGrid(date), date)
  {
    var k := Lead(date) + DaysInMonth(FirstOfMonth(date).year, FirstOfMonth(date).month);
    WholeWeeks(k);
    CellsFormGrid(CalendarGrid(date), date);
  }

  /** `new Date(year, month - 1, d)` for a day d of the month before. */
  lemma PreviousMonthDay(date: Date, d: int)
    requires ValidDate(date) && 1 <= d <= LastOfPreviousMonth(date).day
    ensures 0 <= d <= DaysInMonth(JsYear(date.year) + Carry(date.month - 1), Wrap(date.month - 1))
    ensures MakeDate(date.year, date.month - 1, d) ==
      Date(LastOfPreviousMonth(date).year, LastOfPreviousMonth(date).month, d)
  {
    MonthEnds(date);
  }

  /** `new Date(year, month, d)` for a day d of the month. */
  lemma MonthDay(date: Date, d: int)
    requires ValidDate(date) && 1 <= d <= DaysInMonth(JsYear(date.year), date.month)
    ensures 0 <= d <= DaysInMonth(JsYear(date.year) + Carry(date.month), Wrap(date.month))
    ensures MakeDate(date.year, date.month, d) == Date(FirstOfMonth(date).year, FirstOfMonth(date).month, d)
  {
    MonthEnds(date);
  }

  /** `new Date(year, month + 1, d)` for one of the first seven days of the month after. */
  lemma NextMonthDay(date: Date, d: int)
    requires ValidDate(date) && 1 <= d <= 7
    ensures 0 <= d <= DaysInMonth(JsYear(date.year) + Carry(date.month + 1), Wrap(date.month + 1))
    ensures MakeDate(date.year, date.month + 1, d) ==
      Date(FirstOfNextMonth(date).year, FirstOfNextMonth(date).month, d)
  {
    MonthEnds(date);
  }

  /** The quantities the generator reads off its three dates. */
  lemma GeneratorSetup(date: Date)
    requires ValidDate(date)
    ensures MakeDate(date.year, date.month + 1, 0).day == DaysInMonth(JsYear(date.year), date.month)
    ensures MakeDate(date.year, date.month, 0).day == LastOfPreviousMonth(date).day
    ensures LastOfPreviousMonth(date).day <= DaysInMonth(JsYear(date.year) + Carry(date.month - 1), Wrap(date.month - 1))
    ensures 28 <= LastOfPreviousMonth(date).day
    ensures DaysInMonth(JsYear(date.year), date.month) <= DaysInMonth(JsYear(date.year) + Carry(date.month), Wrap(date.month))
    ensures 7 <= DaysInMonth(JsYear(date.year) + Carry(date.month + 1), Wrap(date.month + 1))
  {
    MonthEnds(date);
    PreviousMonthFacts(date);
  }

  /** The frame of a month in the generator's terms. */
  lemma FrameParts(date: Date)
    requires ValidDate(date)
    ensures var fr := FrameOf(date);
      fr == Frame(IsoWeekday(MakeDate(date.year, date.month, 1)) - 1, LastOfPreviousMonth(date),
                  FirstOfMonth(date), DaysInMonth(JsYear(date.year), date.month), FirstOfNextMonth(date)) &&
      GridLength(date) == if (fr.lead + fr.n) % 7 == 0 then fr.lead + fr.n else fr.lead + fr.n + 7 - (fr.lead + fr.n) % 7
  {
    MonthEnds(date);
  }

  /** `count` consecutive days of a month from day `from`, as `new Date(year, month, from + k)`. */
  function DayRun(year: int, month: int, from: int, count: nat): (r: seq<Date>)
    requires -1 <= month <= 12 && 0 <= from && from + count <= DaysInMonth(JsYear(year) + Carry(month), Wrap(month)) + 1
    ensures |r| == count
  {
    seq(count, k requires 0 <= k < count => MakeDate(year, month, from + k))
  }

  /** The first loop's days are the leading cells of the grid. */
  lemma PreviousMonthSegment(date: Date, lead: nat, last: int)
    requires ValidDate(date)
    requires lead == IsoWeekday(MakeDate(date.year, date.month, 1)) - 1
    requires last == LastOfPreviousMonth(date).day
    requires 0 <= last - lead + 1 && last + 1 <= DaysInMonth(JsYear(date.year) + Carry(date.month - 1), Wrap(date.month - 1)) + 1
    ensures forall k :: 0 <= k < lead ==> DayRun(date.year, date.month - 1, last - lead + 1, lead)[k] == Cell(date, k)
  {
    FrameParts(date);
    forall k | 0 <= k < lead
      ensures DayRun(date.year, date.month - 1, last - lead + 1, lead)[k] == Cell(date, k)
    {
      PreviousMonthDay(date, last - lead + 1 + k);
    }
  }

  /** The second loop's days are the cells of the month. */
  lemma MonthSegment(date: Date, lead: nat, n: nat)
    requires ValidDate(date)
    requires lead == IsoWeekday(MakeDate(date.year, date.month, 1)) - 1
    requires n == DaysInMonth(JsYear(date.year), date.month)
    requires n + 1 <= DaysInMonth(JsYear(date.year) + Carry(date.month), Wrap(date.month)) + 1
    ensures forall k :: 0 <= k < n ==> DayRun(date.year, date.month, 1, n)[k] == Cell(date, lead + k)
  {
    FrameParts(date);
    forall k | 0 <= k < n
      ensures DayRun(date.year, date.month, 1, n)[k] == Cell(date, lead + k)
    {
      MonthDay(date, k + 1);
    }
  }

  /** The third loop's days are the trailing cells of the grid. */
  lemma NextMonthSegment(date: Date, lead: nat, n: nat, count: nat)
    requires ValidDate(date)
    requires lead == IsoWeekday(MakeDate(date.year, date.month, 1)) - 1
    requires n == DaysInMonth(JsYear(date.year), date.month)
    requires count <= 7
    requires 7 <= DaysInMonth(JsYear(date.year) + Carry(date.month + 1), Wrap(date.month + 1))
    ensures var run := DayRun(date.year, date.month + 1, 1, count);
      forall k :: 0 <= k < count ==> run[k] == Cell(date, lead + n + k)
  {
    FrameParts(date);
    var run := DayRun(date.year, date.month + 1, 1, count);
    forall k | 0 <= k < count
      ensures run[k] == Cell(date, lead + n + k)
    {
      NextMonthDay(date, k + 1);
    }
  }

  /**
   * Days laid out as the three loops of the generator lay them out (the last
   * lead days of the month before, the n days of the month, then the first
   * days of the month after, up to whole weeks) are the grid.
   */
  lemma GeneratedDaysAreGrid(days: seq<Date>, date: Date, lead: nat, n: nat, last: int)
    requires ValidDate(date)
    requires lead == IsoWeekday(MakeDate(date.year, date.month, 1)) - 1
    requires n == DaysInMonth(JsYear(date.year), date.month)
    requires last == LastOfPreviousMonth(date).day
    requires 0 <= last - lead + 1 && last + 1 <= DaysInMonth(JsYear(date.year) + Carry(date.month - 1), Wrap(date.month - 1)) + 1
    requires n + 1 <= DaysInMonth(JsYear(date.year) + Carry(date.month), Wrap(date.month)) + 1
    requires 7 <= DaysInMonth(JsYear(date.year) + Carry(date.month + 1), Wrap(date.month + 1))
    requires days == DayRun(date.year, date.month - 1, last - lead + 1, lead) + DayRun(date.year, date.month, 1, n) +
      (if (lead + n) % 7 == 0 then [] else DayRun(date.year, date.month + 1, 1, 7 - (lead + n) % 7))
    ensures days == CalendarGrid(date)
  {
    var count := if (lead + n) % 7 == 0 then 0 else 7 - (lead + n) % 7;
    var before := DayRun(date.year, date.month - 1, last - lead + 1, lead);
    var month := DayRun(date.year, date.month, 1, n);
    var after := DayRun(date.year, date.month + 1, 1, count);
    assert days == before + month + after;
    FrameParts(date);
    PreviousMonthSegment(date, lead, last);
    MonthSegment(date, lead, n);
    NextMonthSegment(date, lead, n, count);
    var g := CalendarGrid(date);
    assert |days| == |g|;
    forall j | 0 <= j < |days|
      ensures days[j] == g[j]
    {
      if j < lead {
        assert days[j] == before[j];
      } else if j < lead + n {
        assert days[j] == month[j - lead];
      } else {
        assert days[j] == after[j - lead - n];
      }
    }
  }

  /** The first loop: the last `lead` days of the month before, from `last - lead + 1` to `last`. */
  method PreviousMonthTail(year: int, month: int, lead: nat, last: int) returns (days: seq<Date>)
    requires 0 <= month < 12 && 0 <= last - lead + 1
    requires last <= DaysInMonth(JsYear(year) + Carry(month - 1), Wrap(month - 1))
    ensures days == DayRun(year, month - 1, last - lead + 1, lead)
  {
    days := [];
    var i := lead;
    while i > 0
      invariant 0 <= i <= lead
      invariant days == DayRun(year, month - 1, last - lead + 1, lead - i)
    {
      days := days + [MakeDate(year, month - 1, last - i + 1)];
      i := i - 1;
    }
  }

  /** The second and third loops: days 1 to `count` of a month appended to the grid. */
  method AppendMonthHead(days: seq<Date>, year: int, month: int, count: nat) returns (r: seq<Date>)
    requires 0 <= month <= 12 && count <= DaysInMonth(JsYear(year) + Carry(month), Wrap(month))
    ensures r == days + DayRun(year, month, 1, count)
  {
    r := days;
    var i := 1;
    while i <= count
      invariant 1 <= i <= count + 1
      invariant r == days + DayRun(year, month, 1, i - 1)
    {
      r := r + [MakeDate(year, month, i)];
      i := i + 1;
    }
  }

  /** The grid as the screen builds it: the tail of the month before, the month, the head of the month after. */
  method GenerateCalendarDays(date: Date) returns (days: seq<Date>)
    requires ValidDate(date)
    ensures days == CalendarGrid(date)
  {
    var year := date.year;
    var month := date.month;
    var firstDay := MakeDate(year, month, 1);
    var lastDay := MakeDate(year, month + 1, 0);
    var dayOfWeek := GetDay(firstDay);
    if dayOfWeek == 0 {
      dayOfWeek := 7;
    }
    var daysInMonth := lastDay.day;
    GeneratorSetup(date);
    var prevMonthLastDay := MakeDate(year, month, 0).day;
    days := PreviousMonthTail(year, month, dayOfWeek - 1, prevMonthLastDay);
    days := AppendMonthHead(days, year, month, daysInMonth);
    var remainingDays := 7 - (|days| % 7);
    WholeWeeks(|days|);
    if remainingDays < 7 {
      days := AppendMonthHead(days, year, month + 1, remainingDays);
    } else {
      assert days == days + [];
    }
    GeneratedDaysAreGrid(days, date, dayOfWeek - 1, daysInMonth, prevMonthLastDay);
  }

  // ---------------------------------------------------------------------------
  // What the grid promises
  // ---------------------------------------------------------------------------

  /** Stepping back from a day to the Monday on or before it: the step is 0 to 6 and lands on a multiple of 7. */
  lemma StepBackToMonday(x: int)
    ensures var g := (x + 1) % 7;
      var lead := (if g == 0 then 7 else g) - 1;
      0 <= lead <= 6 && (x - lead) % 7 == 0
  {
    var g, q := (x + 1) % 7, (x + 1) / 7;
    assert x + 1 == 7 * q + g;
    if g == 0 {
      assert x - 6 == 7 * (q - 1);
    } else {
      assert x - (g - 1) == 7 * q;
    }
  }

  /** Whole weeks starting on day number x, a multiple of 7, run from a Monday to a Sunday. */
  lemma WeeksFromMonday(x: int, len: int)
    requires x % 7 == 0 && len % 7 == 0 && 28 <= len < 44
    ensures (x + 1) % 7 == 1 && (x + len - 1 + 1) % 7 == 0 && len <= 42
  {
    var q, k := x / 7, len / 7;
    assert x == 7 * q && len == 7 * k;
    assert x + 1 == 7 * q + 1;
    assert x + len == 7 * (q + k);
  }

  /** A day whose number is one less than a multiple of 7 is a Sunday. */
  lemma SundayByNumber(d: Date, v: int)
    requires 0 <= d.month < 12 && DayNumber(d) == v && (v + 1) % 7 == 0
    ensures IsoWeekday(d) == 7
  {
  }

  /** A day whose number is a multiple of 7 is a Monday. */
  lemma MondayByNumber(d: Date, v: int)
    requires 0 <= d.month < 12 && DayNumber(d) == v && v % 7 == 0
    ensures IsoWeekday(d) == 1
  {
    var q := v / 7;
    assert v + 1 == 7 * q + 1;
    assert GetDay(d) == 1;
  }

  /** The first of the month falls Lead(date) days after a Monday. */
  lemma LeadIsWeekdayOfFirst(date: Date)
    requires ValidDate(date)
    ensures 0 <= Lead(date) <= 6
    ensures (DayNumber(FirstOfMonth(date)) - Lead(date)) % 7 == 0
  {
    StepBackToMonday(DayNumber(FirstOfMonth(date)));
  }

  /** Whole weeks from a Monday to a Sunday: between 28 and 42 cells, the first on a Monday and the last on a Sunday. */
  lemma {:induction false} GridIsWholeWeeks(days: seq<Date>, date: Date)
    requires ValidDate(date) && IsCalendarGrid(days, date)
    ensures 28 <= |days| <= 42 && |days| % 7 == 0
    ensures IsoWeekday(days[0]) == 1 && IsoWeekday(days[|days| - 1]) == 7
  {
    LeadIsWeekdayOfFirst(date);
    var x := DayNumber(FirstOfMonth(date)) - Lead(date);
    assert DayNumber(days[0]) == x;
    MondayByNumber(days[0], x);
    var last := days[|days| - 1];
    assert DayNumber(last) == x + |days| - 1;
    WeeksFromMonday(x, |days|);
    SundayByNumber(last, x + |days| - 1);
  }

  /**
   * The month before contributes its days up to its last one, and the month
   * after at most six days from its first one.
   */
  lemma {:induction false} GridEdges(days: seq<Date>, date: Date)
    requires ValidDate(date) && IsCalendarGrid(days, date)
    ensures Lead(date) > 0 ==> days[Lead(date) - 1] == LastOfPreviousMonth(date)
    ensures var n := DaysInMonth(FirstOfMonth(date).year, FirstOfMonth(date).month);
      |days| - Lead(date) - n <= 6 &&
      (|days| > Lead(date) + n ==> days[Lead(date) + n] == FirstOfNextMonth(date))
  {
    MonthEnds(date);
  }

  /**
   * Each day of the month appears exactly once, in order and without gaps,
   * and the month's own days are the only cells whose month is the month
   * shown.
   */
  lemma {:induction false} GridHoldsMonthOnce(days: seq<Date>, date: Date)
    requires ValidDate(date) && IsCalendarGrid(days, date)
    ensures var first := FirstOfMonth(date);
      var n := DaysInMonth(first.year, first.month);
      forall d :: 1 <= d <= n ==> days[Lead(date) + d - 1] == Date(first.year, date.month, d)
    ensures forall j :: 0 <= j < |days| ==>
      (days[j].month == date.month <==>
        Lead(date) <= j < Lead(date) + DaysInMonth(FirstOfMonth(date).year, FirstOfMonth(date).month))
  {
    MonthEnds(date);
  }

  /** `new Date(y, m - 1, 1)`: the first of the month before the one shown. */
  function PreviousMonth(current: Date): (r: Date)
    requires ValidDate(current)
    ensures ValidDate(r)
  {
    MakeDate(current.year, current.month - 1, 1)
  }

  /** `new Date(y, m + 1, 1)`: the first of the month after the one shown. */
  function NextMonth(current: Date): (r: Date)
    requires ValidDate(current)
    ensures ValidDate(r)
  {
    MakeDate(current.year, current.month + 1, 1)
  }

  /**
   * Away from the two-digit years, navigation lands on the first of the
   * adjacent month, wrapping December and January into the next or previous
   * year, and the two moves undo each other.
   */
  lemma NavigationLandsOnAdjacentMonth(current: Date)
    requires ValidDate(current) && current.year >= 101
    ensures PreviousMonth(current) ==
      if current.month == 0 then Date(current.year - 1, 11, 1) else Date(current.year, current.month - 1, 1)
    ensures NextMonth(current) ==
      if current.month == 11 then Date(current.year + 1, 0, 1) else Date(current.year, current.month + 1, 1)
    ensures PreviousMonth(NextMonth(current)) == Date(current.year, current.month, 1)
    ensures NextMonth(PreviousMonth(current)) == Date(current.year, current.month, 1)
  {
  }

  /** The same calendar day: equal day, month and year. */
  predicate SameDay(a: Date, b: Date) {
    a.day == b.day && a.month == b.month && a.year == b.year
  }

  /** An entry of the agenda; only its date matters to the grid. */
  datatype Event = Event(id: string, title: string, date: Date)

  /** `events.some(...)`: whether any event falls on day d. */
  function AnyOnDay(events: seq<Event>, d: Date): (r: bool)
    ensures r <==> exists i :: 0 <= i < |events| && events[i].date == d
  {
    if events == [] then false
    else SameDay(events[0].date, d) || AnyOnDay(events[1..], d)
  }

  /** The calendar component: the month it shows and the grid it draws for it. */
  class CalendarView {
    var currentMonth: Date
    var calendarDays: seq<Date>
    const selectedDate: Date
    const events: seq<Event>

    /** The grid on screen is always the grid of the month shown. */
    ghost predicate Valid()
      reads this
    {
      ValidDate(currentMonth) && IsCalendarGrid(calendarDays, currentMonth)
    }

    /** The component opens on today's month; the clock's reading is a parameter. */
    constructor (today: Date, selectedDate: Date, events: seq<Event>)
      requires ValidDate(today)
      ensures Valid()
      ensures currentMonth == today && this.selectedDate == selectedDate && this.events == events
    {
      var days := GenerateCalendarDays(today);
      CalendarGridIsGrid(today);
      currentMonth := today;
      calendarDays := days;
      this.selectedDate := selectedDate;
      this.events := events;
    }

    /** The left arrow: show the month before and draw its grid. */
    method GoToPreviousMonth()
      requires Valid()
      modifies this
      ensures Valid()
      ensures currentMonth == PreviousMonth(old(currentMonth))
    {
      currentMonth := PreviousMonth(currentMonth);
      calendarDays := GenerateCalendarDays(currentMonth);
      CalendarGridIsGrid(currentMonth);
    }

    /** The right arrow: show the month after and draw its grid. */
    method GoToNextMonth()
      requires Valid()
      modifies this
      ensures Valid()
      ensures currentMonth == NextMonth(old(currentMonth))
    {
      currentMonth := NextMonth(currentMonth);
      calendarDays := GenerateCalendarDays(currentMonth);
      CalendarGridIsGrid(currentMonth);
    }

    /** Whether a cell belongs to the month shown; only the month is compared. */
    function IsCurrentMonth(d: Date): (r: bool)
      reads this
      ensures r <==> d.month == currentMonth.month
    {
      d.month == currentMonth.month
    }

    /** Within the grid, exactly the month's own days count as the current month. */
    lemma CurrentMonthCellsAreTheMonth()
      requires Valid()
      ensures forall j :: 0 <= j < |calendarDays| ==>
        (IsCurrentMonth(calendarDays[j]) <==>
          Lead(currentMonth) <= j < Lead(currentMonth) + DaysInMonth(FirstOfMonth(currentMonth).year, currentMonth.month))
    {
      GridHoldsMonthOnce(calendarDays, currentMonth);
      MonthEnds(currentMonth);
    }

    /** Whether d is today; the clock's reading is a parameter. */
    function IsToday(d: Date, today: Date): (r: bool)
      ensures r <==> d == today
    {
      SameDay(d, today)
    }

    /** Whether d is the selected day. */
    function IsSelectedDate(d: Date): (r: bool)
      reads this
      ensures r <==> d == selectedDate
    {
      SameDay(d, selectedDate)
    }

    /** Whether some event falls on d. */
    function HasEvents(d: Date): (r: bool)
      reads this
      ensures r <==> exists i :: 0 <= i < |events| && events[i].date == d
    {
      AnyOnDay(events, d)
    }
  }
}
