/** The date-range side of the header's date picker (src/app/Navbar.tsx):
    day comparison, the click-by-click range selection of `handleDateClick`,
    the "Today / Tomorrow / This weekend" shortcuts and the way each grid
    cell is highlighted. Every day has already been cut to midnight by
    `startOfDay`, so days compare as whole-day numbers. */
module Ranges {
  import opened Optional
  import opened Calendar

  /** `selectedRange`: either end may be unset (`null`). */
  datatype DateRange = DateRange(start: Option<Day>, end: Option<Day>)

  /** The picker's initial range. */
  const NoRange := DateRange(None, None)

  predicate IsComplete(r: DateRange) {
    r.start.Some? && r.end.Some?
  }

  /** When both ends are set, the range does not run backwards. */
  predicate Ordered(r: DateRange) {
    IsComplete(r) ==> r.start.value <= r.end.value
  }

  /** `isSameDay`: a missing side never matches, not even another missing one. */
  function IsSameDay(a: Option<Day>, b: Option<Day>): (r: bool)
    ensures r <==> a.Some? && a == b
  {
    match (a, b)
    case (Some(x), Some(y)) => x == y
    case _ => false
  }

  /** `isBetweenExclusive`: the day lies strictly inside a range whose ends are
      both set. The source's separate test for a backwards range excludes
      nothing more, since a day strictly between two ends needs them ordered. */
  function IsBetweenExclusive(day: Day, start: Option<Day>, end: Option<Day>): (r: bool)
    ensures r <==> start.Some? && end.Some? && start.value < day < end.value
    ensures r ==> !IsSameDay(Some(day), start) && !IsSameDay(Some(day), end)
  {
    if start.None? || end.None? then false
    else if end.value < start.value then false
    else start.value < day && day < end.value
  }

  /** `handleDateClick`: a click on `day` starts a new range when none is
      started or one is already complete, swaps ends when it lies before the
      start, restarts on the start itself, and otherwise completes the range.
      Whatever the previous range, the result is never backwards, the clicked
      day is one of its ends, and a second end appears exactly when a half
      range is completed by a different day, whose ends are then those two
      days in order. */
  function SelectDay(r: DateRange, day: Day): (n: DateRange)
    ensures Ordered(n)
    ensures n.start == Some(day) || n.end == Some(day)
    ensures n.end.None? ==> n.start == Some(day)
    ensures n.end.Some? <==> r.start.Some? && r.end.None? && r.start.value != day
    ensures n.end.Some? ==>
      && n.start.Some?
      && {n.start.value, n.end.value} == {day, r.start.value}
  {
    if r.start.None? || r.end.Some? then DateRange(Some(day), None)
    else if day < r.start.value then DateRange(Some(day), r.start)
    else if day == r.start.value then DateRange(Some(day), None)
    else DateRange(r.start, Some(day))
  }

  /** After a complete range, any click starts afresh from the clicked day,
      wherever it lies. */
  lemma SelectAfterComplete(r: DateRange, day: Day)
    requires IsComplete(r)
    ensures SelectDay(r, day) == DateRange(Some(day), None)
  {
  }

  /** Two clicks from an empty picker give the range between the two days in
      either order; the same day twice leaves just a start. A third click
      starts over. */
  lemma TwoClicks(a: Day, b: Day, c: Day)
    ensures var r := SelectDay(SelectDay(NoRange, a), b);
      && (a == b ==> r == DateRange(Some(a), None))
      && (a < b ==> r == DateRange(Some(a), Some(b)))
      && (b < a ==> r == DateRange(Some(b), Some(a)))
      && (a != b ==> SelectDay(r, c) == DateRange(Some(c), None))
  {
  }

  // --------------------------------------------------------- shortcuts

  /** The three shortcut buttons of the date panel. */
  datatype Suggestion = Today | Tomorrow | ThisWeekend

  /** Days from `today` to the coming Saturday, 0 on a Saturday
      (`(6 - getDay() + 7) % 7`): it is the nearest Saturday not in the past. */
  function WeekendStartOffset(today: Day): (o: int)
    ensures 0 <= o <= 6
    ensures Weekday(today + o) == 6
    ensures o == 0 <==> Weekday(today) == 6
    ensures forall d :: today <= d < today + o ==> Weekday(d) != 6
  {
    var daysUntilSaturday := (6 - Weekday(today) + 7) % 7;
    if daysUntilSaturday == 0 then 0 else daysUntilSaturday
  }

  /** The `(offsetStart, offsetEnd)` pair each button passes on. */
  function SuggestionOffsets(s: Suggestion, today: Day): (int, int) {
    match s
    case Today => (0, 0)
    case Tomorrow => (1, 1)
    case ThisWeekend => (WeekendStartOffset(today), WeekendStartOffset(today) + 1)
  }

  /** `handleSuggestedDate`: both ends are today moved on by their offsets. */
  function SuggestedRange(today: Day, offsetStart: int, offsetEnd: int): (r: DateRange)
    ensures IsComplete(r)
    ensures Ordered(r) <==> offsetStart <= offsetEnd
  {
    DateRange(Some(today + offsetStart), Some(today + offsetEnd))
  }

  /** What each shortcut selects: a complete, ordered range that starts no
      earlier than today; Today and Tomorrow are single days, and This
      weekend is the coming Saturday and the Sunday after it. */
  function Suggest(s: Suggestion, today: Day): (r: DateRange)
    ensures IsComplete(r) && Ordered(r)
    ensures today <= r.start.value <= today + 6
    ensures s == Today ==> r.start.value == r.end.value == today
    ensures s == Tomorrow ==> r.start.value == r.end.value == today + 1
    ensures s == ThisWeekend ==>
      && r.end.value == r.start.value + 1
      && Weekday(r.start.value) == 6 && Weekday(r.end.value) == 0
  {
    var (os, oe) := SuggestionOffsets(s, today);
    SuggestedRange(today, os, oe)
  }

  // ------------------------------------------------------ cell styles

  /** How a grid cell is drawn: an end of the range, inside it, today's
      outline, or plain (dimmed when outside the month shown). */
  datatype CellStyle = Endpoint | InRange | TodayMark | Plain(outsideMonth: bool)

  /** The cell classification of the date panel: ends before the inside of
      the range, the inside before today, today before the plain styles. */
  function ClassifyCell(day: Day, shown: YearMonth, range: DateRange, today: Day): CellStyle {
    if IsSameDay(Some(day), range.start) || IsSameDay(Some(day), range.end) then Endpoint
    else if IsBetweenExclusive(day, range.start, range.end) then InRange
    else if IsSameDay(Some(day), Some(today)) then TodayMark
    else Plain(!InMonth(shown, day))
  }

  /** For a complete ordered range, exactly the days from start to end
      inclusive are highlighted, and only its two ends as ends. With only a
      start, the start alone is highlighted. */
  lemma HighlightedSpan(day: Day, shown: YearMonth, range: DateRange, today: Day)
    requires range.start.Some? && Ordered(range)
    ensures var c := ClassifyCell(day, shown, range, today);
      && (c.Endpoint? <==> day == range.start.value || (range.end.Some? && day == range.end.value))
      && (range.end.Some? ==>
            ((c.Endpoint? || c.InRange?) <==> range.start.value <= day <= range.end.value))
      && (range.end.None? ==> !c.InRange?)
  {
  }
}
