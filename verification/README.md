# Vivana header search, sign-in form and results page, in Dafny

This project models the interactive core of the Vivana experiences site:

- **The site header** (`src/app/Navbar.tsx`):
  - the month grid of the date picker and its month stepper;
  - the click-by-click date-range selection, the "Today / Tomorrow / This weekend" shortcuts and the highlighting of grid cells;
  - the guest counter and its label;
  - the open/closed state of the three search panels and the navigation menu;
  - `handleSearch`, which composes the free-text query and the structured parameters for `/search`;
  - the stored session: `loadUser`, `handleLogout`, `handleAuthLink`, and the profile menu's display name and initials.
- **The sign-in / sign-up page** (`src/app/auth/page.tsx`): `pickString`, both branches of `handleSubmit` with every error message, and the page state around them.
- **The results page** (`src/app/search/page.tsx`): `asString`, `buildQuery`, the effective query, when the Custom Search request is made, how its reply becomes results or an error, the "View on Google" link, and which body the page renders.
- **The hand-off between the header and the results page** (`handoff.dfy`).

Dates are whole-day numbers counted from 1 January 1970, as in section 21.4.1.2 of ECMA-262. `new Date(y, m, d)` is modelled at day granularity as `NewDate`: the year argument goes through MakeFullYear (section 21.4.2.1 of ECMA-262), which reads the years 0 to 99 as 1900 to 1999, and then MakeDay (section 21.4.1.28 of ECMA-262) carries an out-of-range month or date into the year. The time-value limit of TimeClip is not modelled (see "Left out").

The model treats browser storage as two optional text slots. JSON is a `JsonValue` datatype. `JSON.parse`/`JSON.stringify` is a `Codec` parameter. The storage lemmas assume the codec is lawful: parsing what was stringified gives it back, and `""` does not parse. `CodecWitness.LawfulCodecExists` shows that this assumption can be met, so those lemmas are not vacuous.

Each module follows one part of the program:

| file | module | models |
|---|---|---|
| `optional.dfy` | `Optional` | `null`/`undefined` as `Option` |
| `text.dfy` | `Text` | `trim` (JavaScript's whitespace set), ASCII case mapping, decimal numerals, `filter(Boolean)` and `join` |
| `json.dfy` | `Json` | JSON values, truthiness, property reads, object spread, the codec |
| `codec.dfy` | `CodecWitness` | a lawful codec, so the codec assumption is satisfiable |
| `calendar.dfy` | `Calendar` | ECMA-262 day arithmetic, `buildCalendarDays`, the month stepper |
| `ranges.dfy` | `Ranges` | `isSameDay`, `isBetweenExclusive`, `handleDateClick`, the shortcuts, cell styles |
| `guests.dfy` | `Guests` | `adjustGuests`, the row floors, `guestDisplay` |
| `header.dfy` | `Header` | panel and menu state, window listeners, `handleSearch` |
| `session.dfy` | `Session` | `loadUser`, `handleLogout`, `handleAuthLink`, `displayName`, `initials` |
| `auth.dfy` | `Auth` | `pickString`, `handleSubmit`, the mode switch |
| `searchpage.dfy` | `SearchPage` | the results page |
| `handoff.dfy` | `Handoff` | header query → results page |

## Model

| member | source | states |
|---|---|---|
| Calendar.BuildCalendarDays | src/app/Navbar.tsx:53-73 | The grid is 4 to 6 whole weeks of consecutive days. It starts on a Sunday and puts `new Date(y, m, 1)` at the first day's weekday, so for a year 0 to 99 it is the grid of that month in 1900 to 1999. A cell lies in the shown month exactly when its index falls in the month's run. Every day of the shown month appears, and fewer than 7 days of the next month follow it. |
| Calendar.LastDayOfMonth | src/app/Navbar.tsx:62 | `new Date(y, m + 1, 0)` is the last day of month `m`, so its date is the month's length; December carries into the next year. |
| Calendar.NextMonthStart | src/app/Navbar.tsx:62 | The first of the next month (December → January of the next year) is the month's length after the first of this one. |
| Calendar.Shown | src/app/Navbar.tsx:54 | The month `new Date(y, m, 1)` falls in: the years 0 to 99 read as 1900 to 1999, any other year as itself. It is never in the years 0 to 99. |
| Calendar.StepMonth | src/app/Navbar.tsx:361-365 | The arrows move exactly `direction` months on from the month the constructor reads, across year boundaries. |
| Calendar.StepMonthFirstDay | src/app/Navbar.tsx:361-365 | The stepped month starts on the day `new Date(y, m + direction, 1)` gives. |
| Calendar.StepMonthInverse | src/app/Navbar.tsx:361-365 | Outside the years 0 to 99, stepping forward and then back by the same amount returns to the month shown before. |
| Calendar.StepMonthAtYear99 | src/app/Navbar.tsx:361-365 | Where the inverse fails: from December of year 99, "next" shows January 2000, "previous" from there shows December 1999, and "previous" from December 99 shows November 1999. |
| Calendar.StepStaysFromYear99 | src/app/Navbar.tsx:361-365 | From a month in year 99 or later, one arrow press stays in year 99 or later, and lands in year 99 only in December. |
| Ranges.IsSameDay | src/app/Navbar.tsx:39-42 | Two days match exactly when both are set and equal; two unset days do not match. |
| Ranges.IsBetweenExclusive | src/app/Navbar.tsx:44-51 | True exactly when both ends are set and the day lies strictly between them; such a day is never an end. |
| Ranges.SelectDay | src/app/Navbar.tsx:242-256 | After any click the range is not backwards and the clicked day is one of its ends. A second end appears exactly when a half range is completed by a different day, and then the ends are that day and the old start, in order. |
| Ranges.SelectAfterComplete | src/app/Navbar.tsx:245-247 | A click after a complete range starts a new one from the clicked day. |
| Ranges.TwoClicks | src/app/Navbar.tsx:242-256 | From an empty picker, two different days give the range between them in either order, and the same day twice gives just a start. A third click starts over. |
| Ranges.WeekendStartOffset | src/app/Navbar.tsx:623-627 | The offset is 0 to 6 days and lands on a Saturday. It is 0 exactly on a Saturday, and no Saturday comes earlier. |
| Ranges.SuggestedRange | src/app/Navbar.tsx:269-276 | Both ends are set. The range is ordered exactly when the start offset does not exceed the end offset. |
| Ranges.Suggest | src/app/Navbar.tsx:655-676 | Every shortcut gives a complete, ordered range starting within the coming week. Today and Tomorrow are single days. This weekend is a Saturday and the Sunday after it. |
| Ranges.HighlightedSpan | src/app/Navbar.tsx:686-705 | With an ordered range, ends are styled exactly on the two ends, and ends plus inside cover exactly the days from start to end. With only a start, nothing is styled as inside. |
| Guests.AdjustGuests | src/app/Navbar.tsx:258-267 | Only the chosen count changes: by `delta`, clamped at 0, and for adults at 1. The invariant of at least one adult is kept. |
| Guests.DecrementAgreesWithFloor | src/app/Navbar.tsx:742-770 | On a valid counter, an enabled minus button removes exactly one guest, and pressing a disabled one would change nothing: the row floors and the clamping agree. |
| Guests.DecrementThenIncrement | src/app/Navbar.tsx:258-267 | Minus then plus on an enabled row restores the counter. |
| Guests.GuestDisplayReadsBack | src/app/Navbar.tsx:232-236 | A valid counter's label is never the placeholder. It reads back as the total guest count and ends in "s" exactly when the total exceeds one. |
| Guests.ThreeGuestsExample | src/app/Navbar.tsx:92-96 | The initial two adults plus one child read "3 guests". |
| Header.InitialState | src/app/Navbar.tsx:84-99 | The first render has no panel open, the menu closed, and the header invariant holding. |
| Header.WindowEvent | src/app/Navbar.tsx:160-213 | Window clicks and keys change only the open panel and the menu flag, and each can only close them. |
| Header.Step | src/app/Navbar.tsx:238-305 | Every handler keeps the header invariant (at least one adult, range never backwards), and no window event opens a panel. |
| Header.PanelDismissal | src/app/Navbar.tsx:160-187 | Escape and an outside click close the panel. A click inside the bar or a panel keeps it, other keys change nothing, and re-opening an open segment keeps it open. |
| Header.PanelAdvance | src/app/Navbar.tsx:528-531 | Picking a place sets it and moves to the dates panel without touching dates or guests; "Next" then moves to the guests panel. |
| Header.ComposedQueryShape | src/app/Navbar.tsx:286-293 | The query is the place (or "nearby"), then "S to E" only with both dates, then the count and noun, then "events", one space apart. A count of zero reads "1 guests". |
| Header.HandleSearch | src/app/Navbar.tsx:278-305 | Search closes the panel and changes nothing else. `guests` is a decimal numeral, at least 1, equal to the total on a valid counter. `start`/`end` are the labels of the set ends, and `q` is the composed query. |
| Session.LoadUser | src/app/Navbar.tsx:106-126 | A user is loaded exactly when the slot holds text that parses with a truthy `isAuthenticated`. The profile is the record's fields minus `password`. |
| Session.Logout | src/app/Navbar.tsx:142-158 | Logging out always clears the user and never touches the redirect. With no record, storage is unchanged; an unreadable record is removed. |
| Session.LogoutSignsOut | src/app/Navbar.tsx:142-158 | After logout `loadUser` finds nobody, and a stored object keeps every field with `isAuthenticated` false. |
| Session.StashRedirect | src/app/Navbar.tsx:949-954 | Only the redirect slot changes, and it is set exactly when path, query and fragment are not all empty. |
| Session.RedirectTarget | src/app/auth/page.tsx:70-71 | A completed form goes to the stashed page when one is set, and to "/" when none or an empty one is; never to an empty path. |
| Session.NameParts | src/app/Navbar.tsx:829 | The first name and then the last name, each kept exactly when it is a non-empty string. |
| Session.DisplayName | src/app/Navbar.tsx:828-831 | The joined, trimmed names when they have text, else the email, else "Traveler"; never empty. |
| Session.DisplayFullName | src/app/Navbar.tsx:828-831 | Both names show as "First Last". |
| Session.DisplayFirstNameOnly | src/app/Navbar.tsx:828-831 | A first name alone shows alone. |
| Session.DisplayBlankNameFallsBack | src/app/Navbar.tsx:828-831 | Any whitespace-only first name (empty included) counts as none, so the email is shown. |
| Session.Initials | src/app/Navbar.tsx:833-838 | One upper-cased first letter per name part, or "V" with no names; always 1 or 2 characters. |
| Json.Spread | src/app/Navbar.tsx:150 | `{...v}` copies an object's fields. An array maps each index's numeral to its item, a string each index's numeral to its one-character string, with no other keys. `null`, booleans and numbers contribute nothing. |
| CodecWitness.LawfulCodecExists | src/app/auth/page.tsx:100 | Some codec parses back every value it stringifies and rejects `""`, so the storage lemmas' codec assumption can hold. |
| Auth.PickString | src/app/auth/page.tsx:5-6 | The result is trimmed. It is non-empty exactly when the entry is text that is not all whitespace. |
| Auth.NewProfile | src/app/auth/page.tsx:92-98 | The sign-up record is an object whose credentials match the address and password it was built from, with a truthy `isAuthenticated`. |
| Auth.NewProfileFields | src/app/auth/page.tsx:92-98 | The record has exactly the five fields the handler writes, with a null avatar and the given creation time. |
| Auth.SignInOutcome | src/app/auth/page.tsx:29-76 | A successful sign-in needs a window, a readable record and matching credentials. It rewrites the record with `isAuthenticated` set and consumes the redirect. A failure changes nothing and reports a sign-in error. |
| Auth.SignInMessages | src/app/auth/page.tsx:33-63 | Each sign-in message appears exactly when its check fails and all earlier checks pass: blank fields, no window, no record, unreadable or `null` record, mismatched credentials. |
| Auth.SignUpOutcome | src/app/auth/page.tsx:78-106 | The mismatch message appears exactly when the trimmed passwords differ. The unavailable message appears exactly when they agree without a window. Success writes a fresh record with the lower-cased address. |
| Auth.Submit | src/app/auth/page.tsx:26-106 | A failure writes nothing, navigates nowhere and reports an error of the current mode. A success writes the record, empties the stash and goes to the stashed page or "/". |
| Auth.FirstSubmitSignsUp | src/app/auth/page.tsx:11-13 | The page opens on the sign-up form, so a first submission runs the sign-up branch and leaves the flag off. |
| Auth.HandleSubmit | src/app/auth/page.tsx:20-113 | After a submission the flag is off and the mode unchanged. The message is exactly the failure's text, or none on success. |
| Auth.SetMode | src/app/auth/page.tsx:16-18 | Switching forms clears the message; choosing the current form changes nothing. |
| Auth.SignInDecides | src/app/auth/page.tsx:55-75 | With filled fields and a readable stored object, sign-in succeeds exactly when the credentials match; otherwise it reports invalid credentials. |
| Auth.SignInWith | src/app/auth/page.tsx:29-76 | The same for a form typed as two strings. |
| Auth.SignUpSucceeds | src/app/auth/page.tsx:78-106 | Matching passwords with a window store the record of the trimmed, lower-cased address and the trimmed password. |
| Auth.SucceedReadable | src/app/auth/page.tsx:100-106 | A record written on success parses back and is accepted by `loadUser`. |
| Auth.SignUpStores | src/app/auth/page.tsx:92-106 | Sign-up stores a fresh signed-in record that reads back unchanged and that `loadUser` accepts. |
| Auth.SignUpThenSignIn | src/app/auth/page.tsx:29-106 | After sign-up, signing in with the same password and an address equal after trimming and lower-casing succeeds. A different password is refused as invalid, with storage untouched. |
| Auth.BlankPasswordLocksOut | src/app/auth/page.tsx:78-100 | A whitespace-only password is accepted at sign-up and stored as "", and then no sign-in can succeed. |
| Auth.SignInKeepsRecord | src/app/auth/page.tsx:65-68 | A successful sign-in keeps every stored field, sets `isAuthenticated`, and leaves a record `loadUser` accepts. |
| Auth.StashThenSubmit | src/app/auth/page.tsx:70-74 | After stashing a page and submitting successfully, the form returns to exactly that page and empties the stash. |
| SearchPage.AsString | src/app/search/page.tsx:173-176 | A value is present exactly for a single value or a non-empty list, and it is that value or the list's first. |
| SearchPage.ReadParam | src/app/search/page.tsx:10-14 | Present exactly when `asString` is. The value is trimmed, and empty exactly when the raw value is all whitespace. |
| SearchPage.BuildQuery | src/app/search/page.tsx:158-171 | The result is trimmed. It is empty exactly when the place is blank, the span lacks an end and no guest count is given. |
| SearchPage.BuildQueryLayout | src/app/search/page.tsx:158-171 | For trimmed parameters the query is the place, the "S to E" span (only with both dates) and "G guests", each present piece joined to the next by one space. |
| SearchPage.BuildQueryEmpty | src/app/search/page.tsx:169-170 | The joined pieces are all whitespace exactly when the place is blank and neither the span nor the guest piece is there. |
| SearchPage.BuildQueryFull | src/app/search/page.tsx:169-170 | All pieces read "W S to E G guests". |
| SearchPage.BuildQueryOneDate | src/app/search/page.tsx:169-170 | With one date the span is dropped without a double space. |
| SearchPage.EffectiveQuery | src/app/search/page.tsx:19 | The query is trimmed: `q` when it has text, else the query rebuilt from the other parameters. |
| SearchPage.PlanFetch | src/app/search/page.tsx:24-30 | A request is made exactly with a query, a key and an engine id. It asks for 8 results for the query plus " events". |
| SearchPage.Load | src/app/search/page.tsx:25-45 | Exactly one of results and error is set, and results exactly for a decoded body. A bad status names itself, a throw gives its message or "Unknown error", and missing items give an empty list. |
| SearchPage.ResultsList | src/app/search/page.tsx:105-156 | An error with text wins and shows that text. Then missing results mean loading, then an empty list means no results, and otherwise the items are shown. |
| SearchPage.GoogleUrl | src/app/search/page.tsx:48-50 | The Google home page exactly without a query; otherwise a search for the query plus " events". |
| SearchPage.RenderPage | src/app/search/page.tsx:52-62 | The page shows the effective query. |
| SearchPage.ViewSelection | src/app/search/page.tsx:64-100 | The hint shows exactly without a query. The note shows exactly when neither setting is set, the results exactly when a request is made, and nothing more when only one setting is set. Results show the reply's view and the Google search link. |
| SearchPage.LoadingOnlyOnSilentThrow | src/app/search/page.tsx:114-128 | "Loading results..." persists exactly when the request threw an `Error` with an empty message. Every other failure shows an error, and every body shows a list or "no results". |
| Handoff.Received | src/app/Navbar.tsx:295-301 | The page reads back the `q` the header sent. |
| Handoff.QueryShape | src/app/Navbar.tsx:286-293 | The header's query ends in "events". It is trimmed whenever the typed place does not start with whitespace. |
| Handoff.SearchQueryShape | src/app/Navbar.tsx:278-301 | The `q` the Search button puts in the URL ends in "events", and it is trimmed unless the typed place starts with whitespace. |
| Handoff.HeaderQueryReachesPage | src/app/Navbar.tsx:278-305 | A header search always sends a `q` with text. The page uses it trimmed, which is verbatim unless the typed place starts with whitespace. The request's terms end in "events events". |
| Handoff.SentQueryReachesPage | src/app/search/page.tsx:10-27 | Any sent `q` ending in "events" is the page's query after trimming, and the request's terms end in "events events". |
| Handoff.PageReadsQuery | src/app/search/page.tsx:19-27 | A `q` ending in "events" survives trimming and wins over the structured parameters, and the request doubles the word. |

## Left out

- Time of day, time zones and daylight saving: `startOfDay` is taken to give whole local days, so every `Date` is a day number. The inverse of MakeDay (`getFullYear`, `getMonth`, `getDate`) is not defined. The grid's "day after the last cell" is modelled as day + 1 (see `Calendar.BuildCalendarDays` above).
- The cell style's `isCurrentMonth` compares only `getMonth()`. `ClassifyCell` tests whether the day lies in the shown month's span. The two agree on every grid cell, since the grid covers the shown month and its neighbours only.
- `toLocaleDateString` is a `format` parameter, and the clock is a `today`/`now` parameter.
- `URLSearchParams`, `encodeURIComponent` and `router.push` are not modelled: the sent parameters are assumed to reach the page unchanged.
- `fetch` is a `respond` parameter, and `process.env` is a `Config` value.
- The `storage` event listener is not modelled: it only re-runs `loadUser`, which is modelled.
- `localStorage`/`sessionStorage` calls that throw (quota, privacy mode) are not modelled.
- `toLowerCase`/`toUpperCase` are modelled on ASCII letters only. Unicode case mapping is not modelled.
- Session.NameParts, Session.DisplayName and Session.Initials read only string name and email fields, and so differ from the source on other values: there `filter(Boolean)` keeps a truthy non-string name and `initials` then throws on `.charAt`.
- Session.Initials: `charAt(0)` takes the first UTF-16 code unit, the model the first character (code point); the two differ for names starting outside the Basic Multilingual Plane.
- Json.Spread: a string spreads into one key per UTF-16 code unit in the source, one per character (code point) in the model.
- Json.JsonValue: numbers are whole; fractions, exponents and `NaN`/`Infinity` handling of `JSON` are not modelled (no stored field the core reads is a number).
- Calendar.StepMonth: TimeClip's limit of 100,000,000 days either side of 1970 is not modelled, so the stepper never yields an invalid date.
- Calendar.StepMonthInverse: not promised for months in the years 0 to 99, where the source is not invertible either (`Calendar.StepMonthAtYear99`).
- Calendar.BuildCalendarDays: TimeClip's limit is not modelled either. The trailing days are taken as the last day + 1. This differs from `new Date(y, m, d + 1)` only when they fall in year 0, that is for the shown month December of year -1, which the arrows never reach from a later month (`Calendar.StepStaysFromYear99`).
- The profile menu's own open/close state, the JSX markup, the class strings other than the cell style, the home-page carousel and the static pages (about, contact, experiences, layout, footer) are not modelled.

## Notes

The composer reads a zero total as "1 guests" (`totalGuests || 1` next to `totalGuests === 1`). No reachable header state has a zero total, because the counter keeps at least one adult (`Header.Step`).

The header's `q` already ends in "events", and the results page appends " events" again before calling the search API and building the Google link. `Handoff.HeaderQueryReachesPage` states this as a property of the code as written.

A sign-up with a whitespace-only password passes the form (the handler checks no length). It stores an empty password that no sign-in can match; `Auth.BlankPasswordLocksOut` states this as a property of the code as written.

The month stepper is not invertible at year 99. Pressing "previous" on January 100 shows December of year 99. From there the constructor reads 99 as 1999, so the grid shows December 1999, "next" shows January 2000 and "previous" shows November 1999 (`Calendar.StepMonthAtYear99`).
