/** Whole-day calendar arithmetic as JavaScript's `Date` performs it, and the
    month grid the header's date picker shows (`buildCalendarDays` and the
    month stepper in src/app/Navbar.tsx).

    A day is a count of whole days from 1 January 1970, the `Day(t)` of
    section 21.4.1.2 of ECMA-262. `new Date(y, m, d)` builds such a day with
    MakeDay (section 21.4.1.28), which normalises an out-of-range month or
    date by carrying into the year and month; the functions below follow that
    definition, so `new Date(y, m, 0)` is the last day of the previous month
    and `new Date(y, 12, 1)` is 1 January of `y + 1`. Before that, the
    constructor reads a year argument from 0 to 99 as 1900 to 1999. */
module Calendar {

  /** Days since 1 January 1970 (negative before it). */
  type Day = int

  /** A month number as `getMonth()` returns it: 0 is January. */
  type Month = m: int | 0 <= m < 12

  /** The month a picker is showing; `buildCalendarDays` reads only the
      year and month of its reference date. */
  datatype YearMonth = YearMonth(year: int, month: Month)

  // ------------------------------------------------------ year and month

  predicate IsLeapYear(y: int) {
    y % 4 == 0 && (y % 100 != 0 || y % 400 == 0)
  }

  function DaysInYear(y: int): int {
    if IsLeapYear(y) then 366 else 365
  }

  /** First day of year `y` (DayFromYear, section 21.4.1.3 of ECMA-262; its
      floors are Dafny's `/`, which rounds down for a positive divisor). */
  function DayFromYear(y: int): Day {
    365 * (y - 1970) + (y - 1969) / 4 - (y - 1901) / 100 + (y - 1601) / 400
  }

  function DaysInMonth(y: int, m: Month): int {
    if m == 1 then (if IsLeapYear(y) then 29 else 28)
    else if m == 3 || m == 5 || m == 8 || m == 10 then 30
    else 31
  }

  /** Days in year `y` before month `m` starts (the table of MonthFromTime,
      section 21.4.1.5 of ECMA-262). */
  function DaysBeforeMonth(y: int, m: Month): int {
    [0, 31, 59, 90, 120, 151, 181, 212, 243, 273, 304, 334][m]
    + (if m >= 2 && IsLeapYear(y) then 1 else 0)
  }

  function MonthStart(y: int, m: Month): Day {
    DayFromYear(y) + DaysBeforeMonth(y, m)
  }

  /** `new Date(year, month, date)` at day granularity: the month carries
      into the year by floor division, the date counts on from the first of
      the resulting month. */
  function MakeDay(year: int, month: int, date: int): Day {
    MonthStart(year + month / 12, month % 12) + date - 1
  }

  function FirstOfMonth(ym: YearMonth): Day {
    MakeDay(ym.year, ym.month, 1)
  }

  /** The year the `Date` constructor makes of its year argument: 0 to 99
      stand for 1900 to 1999 (MakeFullYear, applied by the constructor of
      section 21.4.2.1 of ECMA-262). */
  function FullYear(y: int): int {
    if 0 <= y <= 99 then 1900 + y else y
  }

  /** `new Date(year, month, date)` at day granularity. */
  function NewDate(year: int, month: int, date: int): Day {
    MakeDay(FullYear(year), month, date)
  }

  /** The month a `Date` built from `ym`'s year and month falls in. */
  function Shown(ym: YearMonth): (r: YearMonth)
    ensures FirstOfMonth(r) == NewDate(ym.year, ym.month, 1)
    ensures 0 <= ym.year <= 99 ==> r.year == ym.year + 1900
    ensures !(0 <= ym.year <= 99) ==> r == ym
    ensures !(0 <= r.year <= 99)
  {
    YearMonth(FullYear(ym.year), ym.month)
  }

  /** `getDay()`: 0 is Sunday, 6 is Saturday (WeekDay, section 21.4.1.6 of
      ECMA-262; 1 January 1970 was a Thursday). */
  function Weekday(d: Day): (w: int)
    ensures 0 <= w < 7
  {
    (d + 4) % 7
  }

  // ------------------------------------------------------- year lengths

  /** Floor division by `k` goes up by one exactly when the next number is
      a multiple of `k`. */
  lemma FloorStep(a: int, k: int)
    requires k == 4 || k == 100 || k == 400
    ensures (a + 1) / k == a / k + (if (a + 1) % k == 0 then 1 else 0)
  {
    var q := a / k;
    var r := a % k;
    assert a == k * q + r && 0 <= r < k;
    if r + 1 == k {
      assert a + 1 == k * (q + 1);
    } else {
      assert a + 1 == k * q + (r + 1);
    }
  }

  /** Each leap-year count in DayFromYear steps up exactly in a year the
      corresponding divisibility rule picks out. */
  lemma {:induction false} LeapCountStep(y: int)
    ensures (y - 1968) / 4 - (y - 1969) / 4 == (if y % 4 == 0 then 1 else 0)
    ensures (y - 1900) / 100 - (y - 1901) / 100 == (if y % 100 == 0 then 1 else 0)
    ensures (y - 1600) / 400 - (y - 1601) / 400 == (if y % 400 == 0 then 1 else 0)
  {
    FloorStep(y - 1969, 4);
    FloorStep(y - 1901, 100);
    FloorStep(y - 1601, 400);
    assert (y - 1968) % 4 == y % 4;
    assert (y - 1900) % 100 == y % 100;
    assert (y - 1600) % 400 == y % 400;
  }

  /** DayFromYear advances by exactly the length of the year the Gregorian
      leap rule gives. */
  lemma {:induction false} YearLength(y: int)
    ensures DayFromYear(y + 1) - DayFromYear(y) == DaysInYear(y)
  {
    LeapCountStep(y);
    LeapRuleNesting(y);
    DayFromYearStep(y);
  }

  lemma LeapRuleNesting(y: int)
    ensures y % 100 == 0 ==> y % 4 == 0
    ensures y % 400 == 0 ==> y % 100 == 0
  {
  }

  lemma DayFromYearStep(y: int)
    ensures DayFromYear(y + 1) - DayFromYear(y)
         == 365 + ((y - 1968) / 4 - (y - 1969) / 4)
                - ((y - 1900) / 100 - (y - 1901) / 100)
                + ((y - 1600) / 400 - (y - 1601) / 400)
  {
  }

  /** The first of the following month (with December carrying into January
      of the next year) is `DaysInMonth` days after the first of this one. */
  lemma {:induction false} NextMonthStart(ym: YearMonth)
    ensures MakeDay(ym.year, ym.month + 1, 1)
         == FirstOfMonth(ym) + DaysInMonth(ym.year, ym.month)
  {
    var y, m := ym.year, ym.month;
    MakeDayInYear(y, m, 1);
    if m == 11 {
      MakeDayDecember(y);
      YearLength(y);
    } else {
      MakeDayInYear(y, m + 1, 1);
      MonthTable(y, m);
    }
  }

  /** A month number already in range needs no carrying. */
  lemma MakeDayInYear(y: int, m: int, date: int)
    requires 0 <= m < 12
    ensures MakeDay(y, m, date) == MonthStart(y, m) + date - 1
  {
    assert m / 12 == 0 && m % 12 == m;
  }

  /** Month 12 is January of the next year. */
  lemma MakeDayDecember(y: int)
    ensures MakeDay(y, 12, 1) == MonthStart(y + 1, 0)
  {
    assert 12 / 12 == 1 && 12 % 12 == 0;
  }

  /** Within a year, consecutive month starts are a month's length apart. */
  lemma MonthTable(y: int, m: Month)
    requires m < 11
    ensures DaysBeforeMonth(y, m + 1) - DaysBeforeMonth(y, m) == DaysInMonth(y, m)
  {
  }

  /** `new Date(y, m + 1, 0)` is the last day of month `m`, so the
      `getDate()` the grid reads from it is the number of days in `m`:
      the month's days run from the first to this day inclusive. */
  lemma LastDayOfMonth(ym: YearMonth)
    ensures MakeDay(ym.year, ym.month + 1, 0) - FirstOfMonth(ym) + 1
         == DaysInMonth(ym.year, ym.month)
  {
    NextMonthStart(ym);
  }

  /** `setDate(getDate() + k)` and `new Date(y, m, d + k)` move `k` whole days. */
  lemma MakeDayShift(year: int, month: int, date: int, k: int)
    ensures MakeDay(year, month, date + k) == MakeDay(year, month, date) + k
  {
  }

  // -------------------------------------------------------- the stepper

  /** Months counted from January of year 0: consecutive months differ by 1. */
  function MonthIndex(ym: YearMonth): int {
    12 * ym.year + ym.month
  }

  /** The picker's "previous"/"next" arrows (Navbar.tsx:361-365): the first
      of month `month + direction` of the shown year, built by the `Date`
      constructor. The result is exactly `direction` months on from the month
      the constructor reads the shown year as. */
  function StepMonth(ym: YearMonth, direction: int): (r: YearMonth)
    ensures MonthIndex(r) == MonthIndex(Shown(ym)) + direction
  {
    var total := ym.month + direction;
    YearMonth(FullYear(ym.year) + total / 12, total % 12)
  }

  /** The month `StepMonth` gives starts on the day the source's
      `new Date(y, m + direction, 1)` is. */
  lemma StepMonthFirstDay(ym: YearMonth, direction: int)
    ensures FirstOfMonth(StepMonth(ym, direction)) == NewDate(ym.year, ym.month + direction, 1)
  {
    var y, total := FullYear(ym.year), ym.month + direction;
    assert StepMonth(ym, direction) == YearMonth(y + total / 12, total % 12);
    MakeDayCarry(y, total);
  }

  /** Carrying the month into the year by hand gives the same day. */
  lemma MakeDayCarry(y: int, month: int)
    ensures MakeDay(y + month / 12, month % 12, 1) == MakeDay(y, month, 1)
  {
    var m := month % 12;
    assert m / 12 == 0 && m % 12 == m;
  }

  /** Two months are the same exactly when their month indices are. */
  lemma MonthIndexInjective(a: YearMonth, b: YearMonth)
    requires MonthIndex(a) == MonthIndex(b)
    ensures a == b
  {
  }

  /** Stepping forward and then back by the same amount returns to the
      month shown before, as long as neither month lies in the years 0 to
      99, which the constructor reads as 1900 to 1999. */
  lemma {:induction false} StepMonthInverse(ym: YearMonth, direction: int)
    requires !(0 <= ym.year <= 99) && !(0 <= StepMonth(ym, direction).year <= 99)
    ensures StepMonth(StepMonth(ym, direction), -direction) == ym
  {
    MonthIndexInjective(StepMonth(StepMonth(ym, direction), -direction), ym);
  }

  /** Where the inverse fails: from December of year 99, "next" shows
      January 2000 and "previous" from there December 1999. */
  lemma StepMonthAtYear99()
    ensures StepMonth(YearMonth(99, 11), 1) == YearMonth(2000, 0)
    ensures StepMonth(StepMonth(YearMonth(99, 11), 1), -1) == YearMonth(1999, 11)
    ensures StepMonth(YearMonth(99, 11), -1) == YearMonth(1999, 10)
  {
  }

  /** The arrows never show a month before December of year 99: from any
      later month one step lands in year 99 or later. */
  lemma StepStaysFromYear99(ym: YearMonth, direction: int)
    requires ym.year >= 99 && (direction == 1 || direction == -1)
    ensures StepMonth(ym, direction).year >= 99
    ensures StepMonth(ym, direction).year == 99 ==> StepMonth(ym, direction).month == 11
  {
  }

  // ------------------------------------------------------------ the grid

  /** Blank-free padding before the 1st: one cell per weekday before it. */
  function LeadingDays(ym: YearMonth): (n: int)
    ensures 0 <= n < 7
  {
    Weekday(FirstOfMonth(ym))
  }

  /** The day belongs to the month `ym`. */
  predicate InMonth(ym: YearMonth, d: Day) {
    FirstOfMonth(ym) <= d < FirstOfMonth(ym) + DaysInMonth(ym.year, ym.month)
  }

  /** `buildCalendarDays`: the days of the month the reference date's year
      and month stand for (`Shown`), preceded by the days of the previous
      month back to a Sunday and followed by days of the next month up to a
      whole number of weeks. */
  method BuildCalendarDays(reference: YearMonth) returns (days: seq<Day>)
    ensures |days| % 7 == 0 && 28 <= |days| <= 42
    ensures Weekday(days[0]) == 0
    ensures forall k :: 0 < k < |days| ==> days[k] == days[k - 1] + 1
    ensures days[LeadingDays(Shown(reference))] == NewDate(reference.year, reference.month, 1)
    ensures forall k :: 0 <= k < |days| ==>
      (InMonth(Shown(reference), days[k]) <==>
       LeadingDays(Shown(reference)) <= k < LeadingDays(Shown(reference)) + DaysInMonth(FullYear(reference.year), reference.month))
    ensures forall d :: InMonth(Shown(reference), d) ==> d in days
    ensures |days| - LeadingDays(Shown(reference)) - DaysInMonth(FullYear(reference.year), reference.month) < 7
  {
    var shown := Shown(reference);
    var first := NewDate(reference.year, reference.month, 1);
    var startWeekday := Weekday(first);
    var origin := first - startWeekday;
    days := [];

    // trailing days of the previous month: new Date(y, m, 1 - i), with the
    // year read off the first of the month, so already a full year
    var i := startWeekday;
    while i > 0
      invariant 0 <= i <= startWeekday
      invariant |days| == startWeekday - i
      invariant forall k :: 0 <= k < |days| ==> days[k] == origin + k
    {
      MakeDayShift(shown.year, shown.month, 1, -i);
      days := days + [NewDate(shown.year, shown.month, 1 - i)];
      i := i - 1;
    }

    // the month itself: new Date(y, m, i + 1) for i below getDate() of
    // new Date(y, m + 1, 0), which LastDayOfMonth shows is DaysInMonth
    LastDayOfMonth(shown);
    var daysInMonth := NewDate(reference.year, reference.month + 1, 0) - first + 1;
    i := 0;
    while i < daysInMonth
      invariant 0 <= i <= daysInMonth
      invariant |days| == startWeekday + i
      invariant forall k :: 0 <= k < |days| ==> days[k] == origin + k
    {
      MakeDayShift(shown.year, shown.month, 1, i);
      days := days + [NewDate(reference.year, reference.month, i + 1)];
      i := i + 1;
    }

    // leading days of the next month: the day after the last cell
    var filled := |days|;
    ghost var trailing := (7 - filled % 7) % 7;
    while |days| % 7 != 0
      invariant filled <= |days| <= filled + trailing
      invariant forall k :: 0 <= k < |days| ==> days[k] == origin + k
      decreases filled + trailing - |days|
    {
      TrailingStep(|days|, filled);
      var lastDay := days[|days| - 1];
      days := days + [lastDay + 1];
    }
    GridFacts(days, origin, first, startWeekday, DaysInMonth(shown.year, shown.month), filled);
  }

  /** Below the next multiple of 7, a length that is not a multiple of 7
      can grow by one without passing it. */
  lemma TrailingStep(n: int, filled: int)
    requires filled <= n <= filled + (7 - filled % 7) % 7 && n % 7 != 0
    ensures n + 1 <= filled + (7 - filled % 7) % 7
  {
  }

  /** The arithmetic behind the grid's contract, for a run of consecutive
      days starting `lead` days before `first`. */
  lemma GridFacts(days: seq<Day>, origin: Day, first: Day, lead: int, dim: int, filled: int)
    requires lead == Weekday(first) && origin == first - lead
    requires 28 <= dim <= 31 && filled == lead + dim
    requires filled <= |days| <= filled + (7 - filled % 7) % 7 && |days| % 7 == 0
    requires forall k :: 0 <= k < |days| ==> days[k] == origin + k
    ensures 28 <= |days| <= 42
    ensures Weekday(days[0]) == 0
    ensures forall d :: first <= d < first + dim ==> d in days
  {
    assert Weekday(origin) == 0;
    forall d | first <= d < first + dim
      ensures d in days
    {
      assert days[d - origin] == d;
    }
  }
}
