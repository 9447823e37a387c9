/** The search widget of the site header (src/app/Navbar.tsx): which of the
    three panels is open, how events move between them, the navigation menu
    toggle, and `handleSearch`, which composes the query and the structured
    parameters handed to the results page.

    Each event is the effect of one handler. A mouse click fires the
    clicked element's own handler and then, unless the element stopped it,
    the window-level listener; clicks inside a search segment or panel are
    stopped there and never reach the window. */
module Header {
  import opened Optional
  import opened Text
  import opened Calendar
  import opened Ranges
  import opened Guests

  /** `ActiveSearchPanel` without its `null`, which is `None` here. */
  datatype Panel = WherePanel | WhenPanel | WhoPanel

  datatype HeaderState = HeaderState(
    active: Option<Panel>,
    whereQuery: string,
    shownMonth: YearMonth,
    range: DateRange,
    guests: GuestCounts,
    menuOpen: bool)

  /** What every reachable header state keeps: at least one adult and a
      range that never runs backwards. */
  predicate Inv(s: HeaderState) {
    Valid(s.guests) && Ordered(s.range)
  }

  /** The header as first rendered; the picker shows today's month. */
  function InitialState(today: YearMonth): (s: HeaderState)
    ensures Inv(s) && s.active.None? && !s.menuOpen
  {
    HeaderState(None, "", today, NoRange, InitialCounts, false)
  }

  datatype HeaderEvent =
    | OpenPanel(panel: Panel)                  // a segment button
    | TypeWhere(text: string)                  // typing in the city field
    | PickPlace(place: string)                 // a nearby, recent or suggested place
    | ChangeMonth(direction: int)              // the ‹ and › arrows
    | ClickDay(day: Day)                       // a grid cell
    | PickSuggestion(suggestion: Suggestion)   // Today / Tomorrow / This weekend
    | NextToWho                                // "Next: Who"
    | AdjustCount(kind: GuestKind, delta: int) // a plus or minus button
    | WindowClick(insideSearch: bool, insidePanel: bool, insideMenu: bool)
    | KeyDown(key: string)
    | ToggleMenu                               // the "Menu" button
    | FollowMenuLink                           // a link in the open menu

  /** Window-level listeners: installed only while a panel (or the menu) is
      open; a click outside the search bar and its panels closes the panel,
      a click outside the menu closes the menu, Escape closes both. */
  function WindowEvent(s: HeaderState, e: HeaderEvent): (r: HeaderState)
    requires e.WindowClick? || e.KeyDown?
    ensures r == s.(active := r.active, menuOpen := r.menuOpen)
    ensures r.active == s.active || r.active.None?
    ensures r.menuOpen ==> s.menuOpen
  {
    match e
    case WindowClick(insideSearch, insidePanel, insideMenu) =>
      s.(active := if s.active.Some? && !insideSearch && !insidePanel then None else s.active,
         menuOpen := if s.menuOpen && !insideMenu then false else s.menuOpen)
    case KeyDown(key) =>
      if key == "Escape" then s.(active := None, menuOpen := false) else s
  }

  /** One handler run. `today` is the clock's current day, read by the
      shortcut buttons. The header's invariant survives every event, and
      no window-level event ever opens a panel. */
  function Step(s: HeaderState, e: HeaderEvent, today: Day): (r: HeaderState)
    ensures Inv(s) ==> Inv(r)
    ensures (e.WindowClick? || e.KeyDown?) ==> r.active == s.active || r.active.None?
  {
    match e
    case OpenPanel(p) => s.(active := Some(p))
    case TypeWhere(text) => s.(whereQuery := text)
    case PickPlace(place) => s.(whereQuery := place, active := Some(WhenPanel))
    case ChangeMonth(direction) => s.(shownMonth := Calendar.StepMonth(s.shownMonth, direction))
    case ClickDay(day) => s.(range := SelectDay(s.range, day))
    case PickSuggestion(suggestion) => s.(range := Suggest(suggestion, today))
    case NextToWho => s.(active := Some(WhoPanel))
    case AdjustCount(kind, delta) => s.(guests := AdjustGuests(s.guests, kind, delta))
    case WindowClick(_, _, _) => WindowEvent(s, e)
    case KeyDown(_) => WindowEvent(s, e)
    case ToggleMenu => s.(menuOpen := !s.menuOpen)
    case FollowMenuLink => s.(menuOpen := false)
  }

  /** The search fields a submission reads. */
  predicate SameSearch(a: HeaderState, b: HeaderState) {
    a.whereQuery == b.whereQuery && a.range == b.range && a.guests == b.guests
  }

  /** Escape and an outside click close the open panel and change nothing
      the search will read; a click inside the bar or a panel keeps the
      panel; other keys do nothing. Opening a segment that is already open
      keeps it open (the segment buttons open, they do not toggle). */
  lemma PanelDismissal(s: HeaderState, today: Day, key: string, p: Panel)
    ensures Step(s, KeyDown("Escape"), today).active.None?
    ensures Step(s, WindowClick(false, false, false), today).active.None?
    ensures Step(s, WindowClick(true, false, false), today).active == s.active
    ensures Step(s, WindowClick(false, true, false), today).active == s.active
    ensures key != "Escape" ==> Step(s, KeyDown(key), today) == s
    ensures SameSearch(Step(s, KeyDown(key), today), s)
    ensures Step(Step(s, OpenPanel(p), today), OpenPanel(p), today).active == Some(p)
  {
  }

  /** Picking a place moves on to the dates, "Next" moves on to the guests,
      and neither touches the dates or the counts. */
  lemma PanelAdvance(s: HeaderState, place: string, today: Day)
    ensures var a := Step(s, PickPlace(place), today);
      && a.active == Some(WhenPanel) && a.whereQuery == place
      && a.range == s.range && a.guests == s.guests
    ensures var b := Step(Step(s, PickPlace(place), today), NextToWho, today);
      && b.active == Some(WhoPanel) && b.whereQuery == place
  {
  }

  // --------------------------------------------------- handleSearch

  /** The query parameters of the `/search` navigation. */
  datatype SearchParams = SearchParams(q: string, where: string, start: string, end: string, guests: string)

  /** `startText` / `endText`: the short "Jan 5" label of a set end, or null. */
  function DateText(format: Day -> string, d: Option<Day>): Option<string> {
    if d.Some? then Some(format(d.value)) else None
  }

  /** `totalGuests || 1`. */
  function ShownGuests(total: nat): nat {
    if total == 0 then 1 else total
  }

  function GuestNoun(total: nat): string {
    if total == 1 then "guest" else "guests"
  }

  /** The composed `q`: the place or "nearby", the date span when both ends
      have labels, the guest count and "events", empty parts dropped,
      separated by single spaces. */
  function ComposeQuery(where: string, startText: Option<string>, endText: Option<string>, total: nat): string {
    Join(KeepNonEmpty([
      if where != "" then where else "nearby",
      if Present(startText) && Present(endText) then startText.value + " to " + endText.value else "",
      NatToString(ShownGuests(total)) + " " + GuestNoun(total),
      "events"]), " ")
  }

  /** The composed query laid out: place, then (only with both date labels)
      "S to E", then the count and noun, then "events", one space between
      consecutive parts. A count of zero reads "1 guests". */
  lemma {:induction false} ComposedQueryShape(where: string, startText: Option<string>, endText: Option<string>, total: nat)
    ensures var place := if where != "" then where else "nearby";
      var dates := if Present(startText) && Present(endText)
                   then startText.value + " to " + endText.value + " " else "";
      ComposeQuery(where, startText, endText, total)
        == place + " " + dates + NatToString(ShownGuests(total)) + " " + GuestNoun(total) + " events"
    ensures total == 0 ==> GuestNoun(total) == "guests" && ShownGuests(total) == 1
  {
    var place := if where != "" then where else "nearby";
    var span := if Present(startText) && Present(endText) then startText.value + " to " + endText.value else "";
    var n := NatToString(ShownGuests(total));
    var noun := GuestNoun(total);
    JoinParts(place, span, n + " " + noun);
    if span == "" {
      Regroup(place, "", n, noun);
      assert place + " " + "" == place + " ";
    } else {
      Regroup(place, span + " ", n, noun);
      assert place + " " + (span + " ") == place + " " + span + " ";
    }
  }

  /** Dropping an empty middle part: the parts joined by spaces, the middle
      one (with its space) only when it is there. */
  lemma JoinParts(place: string, span: string, count: string)
    requires place != "" && count != ""
    ensures Join(KeepNonEmpty([place, span, count, "events"]), " ")
         == place + " " + (if span == "" then "" else span + " ") + count + " " + "events"
  {
    var parts := [place, span, count, "events"];
    if span == "" {
      assert parts[1..][1..] == [count, "events"];
      assert KeepNonEmpty(parts[1..]) == [count, "events"];
      assert KeepNonEmpty(parts) == [place, count, "events"];
      JoinSmall(place, count, "events", "", " ");
      assert place + " " + "" == place + " ";
    } else {
      assert KeepNonEmpty(parts) == parts;
      JoinSmall(place, span, count, "events", " ");
      assert place + " " + (span + " ") == place + " " + span + " ";
    }
  }

  lemma Regroup(place: string, dates: string, n: string, noun: string)
    ensures place + " " + dates + (n + " " + noun) + " " + "events"
         == place + " " + dates + n + " " + noun + " events"
  {
  }

  /** Result of pressing Search: the state afterwards and the navigation. */
  datatype Submission = Submission(state: HeaderState, params: SearchParams)

  /** `handleSearch`. `format` is the "Jan 5" date formatter. The panel
      closes and nothing else in the header changes; `where` is the typed
      place, `start`/`end` the labels of the set ends (or empty), `guests`
      the decimal total, never below 1, and `q` the composed query. */
  function HandleSearch(s: HeaderState, format: Day -> string): (r: Submission)
    ensures r.state == s.(active := None)
    ensures r.params.where == s.whereQuery
    ensures r.params.start == (if s.range.start.Some? then format(s.range.start.value) else "")
    ensures r.params.end == (if s.range.end.Some? then format(s.range.end.value) else "")
    ensures AllDigits(r.params.guests)
    ensures ParseNat(r.params.guests) >= 1
    ensures Valid(s.guests) ==> ParseNat(r.params.guests) == Total(s.guests)
    ensures r.params.q == ComposeQuery(s.whereQuery, DateText(format, s.range.start),
                                       DateText(format, s.range.end), Total(s.guests))
  {
    var startText := DateText(format, s.range.start);
    var endText := DateText(format, s.range.end);
    var total := Total(s.guests);
    ParseNatToString(ShownGuests(total));
    Submission(
      s.(active := None),
      SearchParams(
        ComposeQuery(s.whereQuery, startText, endText, total),
        s.whereQuery,
        startText.GetOr(""),
        endText.GetOr(""),
        NatToString(ShownGuests(total))))
  }
}
