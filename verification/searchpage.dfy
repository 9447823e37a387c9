/** The search results page (src/app/search/page.tsx): reading the query
    string, falling back from the free-text `q` to a query rebuilt from the
    structured parameters, deciding whether to call the search API, turning
    its reply into results or an error, and choosing what to render. The
    API key and engine id (`process.env`) and the HTTP exchange itself are
    inputs. */
module SearchPage {
  import opened Optional
  import opened Text

  /** One query-string value as the framework hands it over: absent, a single
      string, or every value of a repeated key. */
  datatype Param = Absent | Single(s: string) | Multi(items: seq<string>)

  /** `asString`: the first value of a repeated key, the value itself
      otherwise; an empty list and an absent key give nothing. */
  function AsString(p: Param): (r: Option<string>)
    ensures r.Some? <==> p.Single? || (p.Multi? && p.items != [])
    ensures r.Some? ==> r.value == (if p.Single? then p.s else p.items[0])
  {
    match p
    case Absent => None
    case Single(s) => Some(s)
    case Multi(items) => if items == [] then None else Some(items[0])
  }

  /** `asString(v)?.trim()`. */
  function ReadParam(p: Param): (r: Option<string>)
    ensures r.Some? <==> AsString(p).Some?
    ensures r.Some? ==> IsTrimmed(r.value) && (r.value == "" <==> AllSpace(AsString(p).value))
  {
    match AsString(p)
    case None => None
    case Some(s) => Some(Trim(s))
  }

  /** The page's `searchParams`, by the keys it reads. */
  datatype SearchParams = SearchParams(q: Param, where: Param, start: Param, end: Param, guests: Param)

  /** The date piece of `buildQuery`: "S to E" when both ends are set. */
  function DatePart(start: Option<string>, end: Option<string>): string {
    if Present(start) && Present(end) then start.value + " to " + end.value else ""
  }

  /** The guest piece of `buildQuery`: "G guests" when a count is set. */
  function GuestPart(guests: Option<string>): string {
    if Present(guests) then guests.value + " guests" else ""
  }

  /** `buildQuery`: the place, the date span and the guest count, missing
      or empty pieces dropped, joined by single spaces and trimmed. */
  function BuildQuery(where: Option<string>, start: Option<string>, end: Option<string>,
                      guests: Option<string>): (r: string)
    ensures IsTrimmed(r)
    ensures r == "" <==>
      AllSpace(where.GetOr("")) && !(Present(start) && Present(end)) && !Present(guests)
  {
    var parts := [where.GetOr(""), DatePart(start, end), GuestPart(guests)];
    var joined := Join(KeepNonEmpty(parts), " ");
    BuildQueryEmpty(where.GetOr(""), start, end, guests, joined);
    Trim(joined)
  }

  /** The rebuilt query is blank exactly when the place is blank and neither
      the date span nor the guest count is there: each of those pieces
      carries a letter. */
  lemma BuildQueryEmpty(where: string, start: Option<string>, end: Option<string>,
                        guests: Option<string>, joined: string)
    requires joined == Join(KeepNonEmpty([where, DatePart(start, end), GuestPart(guests)]), " ")
    ensures AllSpace(joined) <==> AllSpace(where) && !(Present(start) && Present(end)) && !Present(guests)
  {
    var parts := [where, DatePart(start, end), GuestPart(guests)];
    var kept := KeepNonEmpty(parts);
    if AllSpace(where) && !(Present(start) && Present(end)) && !Present(guests) {
      assert parts[1..] == ["", ""] && parts[1..][1..] == [""] && parts[1..][1..][1..] == [];
      assert KeepNonEmpty(parts[1..][1..]) == [];
      assert KeepNonEmpty(parts[1..]) == [];
      assert kept == (if where == "" then [] else [where]);
    }
    if Present(start) && Present(end) {
      assert DatePart(start, end)[|start.value| + 1] == 't';
    }
    if Present(guests) {
      assert GuestPart(guests)[|guests.value| + 1] == 'g';
    }
    if AllSpace(joined) {
      JoinAllSpace(kept, " ");
      if where != "" {
        KeepNonEmptyKeeps(parts, 0);
      }
      if Present(start) && Present(end) {
        assert false;
      }
      if Present(guests) {
        assert false;
      }
    }
  }

  /** For the trimmed values the page passes in, the rebuilt query is the
      place, the "S to E" span (only with both ends) and the "G guests"
      count (only with a count), each left out when missing or empty, with
      one space between consecutive pieces. */
  lemma {:induction false} BuildQueryLayout(where: Option<string>, start: Option<string>, end: Option<string>,
                                            guests: Option<string>)
    requires IsTrimmed(where.GetOr("")) && IsTrimmed(start.GetOr("")) && IsTrimmed(end.GetOr(""))
    requires IsTrimmed(guests.GetOr(""))
    ensures BuildQuery(where, start, end, guests)
         == SpaceJoin(SpaceJoin(where.GetOr(""), if Present(start) && Present(end) then start.value + " to " + end.value else ""),
                      if Present(guests) then guests.value + " guests" else "")
  {
    var w, span, count := where.GetOr(""), DatePart(start, end), GuestPart(guests);
    JoinKeepThree(w, span, count);
    PiecesTrimmed(start, end, guests);
    SpaceJoinTrimmed(w, span);
    SpaceJoinTrimmed(SpaceJoin(w, span), count);
    TrimOfTrimmed(SpaceJoin(SpaceJoin(w, span), count));
  }

  /** The span and count pieces of trimmed values are trimmed. */
  lemma PiecesTrimmed(start: Option<string>, end: Option<string>, guests: Option<string>)
    requires IsTrimmed(start.GetOr("")) && IsTrimmed(end.GetOr("")) && IsTrimmed(guests.GetOr(""))
    ensures IsTrimmed(DatePart(start, end)) && IsTrimmed(GuestPart(guests))
  {
    if Present(start) && Present(end) {
      var span := start.value + " to " + end.value;
      assert span[0] == start.value[0] && span[|span| - 1] == end.value[|end.value| - 1];
    }
    if Present(guests) {
      var count := guests.value + " guests";
      assert count[0] == guests.value[0] && count[|count| - 1] == 's';
    }
  }

  /** With every piece given, the rebuilt query reads "W S to E G guests",
      one space between pieces. */
  lemma BuildQueryFull(w: string, st: string, en: string, g: string)
    requires w != "" && st != "" && en != "" && g != "" && IsTrimmed(w)
    ensures BuildQuery(Some(w), Some(st), Some(en), Some(g)) == w + " " + (st + " to " + en) + " " + (g + " guests")
  {
    var span := st + " to " + en;
    var count := g + " guests";
    assert DatePart(Some(st), Some(en)) == span && GuestPart(Some(g)) == count;
    assert KeepNonEmpty([w, span, count]) == [w, span, count];
    JoinSmall(w, span, count, "", " ");
    var full := w + " " + span + " " + count;
    assert full[0] == w[0] && full[|full| - 1] == 's';
    TrimOfTrimmed(full);
  }

  /** With only one date, the span is left out without leaving a double
      space behind. */
  lemma BuildQueryOneDate(w: string, en: string, g: string)
    requires w != "" && g != "" && IsTrimmed(w)
    ensures BuildQuery(Some(w), None, Some(en), Some(g)) == w + " " + (g + " guests")
  {
    var count := g + " guests";
    assert [w, "", count][1..] == ["", count];
    assert KeepNonEmpty([w, "", count]) == [w, count];
    JoinSmall(w, count, "", "", " ");
    var short := w + " " + count;
    assert short[0] == w[0] && short[|short| - 1] == 's';
    TrimOfTrimmed(short);
  }

  /** `effectiveQuery`: the trimmed `q` when it has any text, else the query
      rebuilt from the other trimmed parameters. */
  function EffectiveQuery(p: SearchParams): (r: string)
    ensures IsTrimmed(r)
    ensures Present(ReadParam(p.q)) ==> r == ReadParam(p.q).value
    ensures !Present(ReadParam(p.q)) ==>
      r == BuildQuery(ReadParam(p.where), ReadParam(p.start), ReadParam(p.end), ReadParam(p.guests))
  {
    var query := ReadParam(p.q);
    if Present(query) then query.value
    else BuildQuery(ReadParam(p.where), ReadParam(p.start), ReadParam(p.end), ReadParam(p.guests))
  }

  /** The server configuration: `GOOGLE_API_KEY` and `GOOGLE_CSE_ID`. */
  datatype Config = Config(apiKey: Option<string>, cx: Option<string>)

  /** The parameters of the Custom Search request. */
  datatype FetchRequest = FetchRequest(q: string, key: string, cx: string, num: string)

  /** A request is made only with a query, a key and an engine id, all
      non-empty; it asks for eight results about the query's events. */
  function PlanFetch(query: string, config: Config): (r: Option<FetchRequest>)
    ensures r.Some? <==> query != "" && Present(config.apiKey) && Present(config.cx)
    ensures r.Some? ==> r.value == FetchRequest(query + " events", config.apiKey.value, config.cx.value, "8")
  {
    if query != "" && Present(config.apiKey) && Present(config.cx) then
      Some(FetchRequest(query + " events", config.apiKey.value, config.cx.value, "8"))
    else None
  }

  /** One search result, with the four fields the page keeps. */
  datatype Item = Item(title: string, link: string, snippet: string, displayLink: string)

  /** How the request ended: a non-OK HTTP status, a decoded body whose
      `items` may be missing, or a thrown value (an `Error` with its
      message, or something else). */
  datatype Reply =
    | HttpError(status: nat)
    | Body(items: Option<seq<Item>>)
    | Thrown(message: Option<string>)

  /** The page's `results` and `error` after the request. */
  datatype Loaded = Loaded(results: Option<seq<Item>>, error: Option<string>)

  /** The `try`/`catch` around the request: a bad status becomes an error
      naming it, a body its items (none when the field is missing), a throw
      its message or "Unknown error". Exactly one of the two is set. */
  function Load(reply: Reply): (l: Loaded)
    ensures l.results.Some? <==> l.error.None?
    ensures l.results.Some? <==> reply.Body?
    ensures reply.HttpError? ==> l.error == Some("Google API responded " + NatToString(reply.status))
    ensures reply.Body? ==> l.results.value == reply.items.GetOr([])
    ensures reply.Thrown? ==> l.error == Some(reply.message.GetOr("Unknown error"))
  {
    match reply
    case HttpError(status) => Loaded(None, Some("Google API responded " + NatToString(status)))
    case Body(items) => Loaded(Some(items.GetOr([])), None)
    case Thrown(message) => Loaded(None, Some(message.GetOr("Unknown error")))
  }

  /** What `ResultsList` shows. */
  datatype ResultsView = ErrorView(message: string) | Loading | NoResults | ItemList(items: seq<Item>)

  /** `ResultsList`: an error with text first, then missing results, then
      an empty list, then the items. */
  function ResultsList(l: Loaded): (v: ResultsView)
    ensures v.ErrorView? <==> Present(l.error)
    ensures v.ErrorView? ==> v.message == l.error.value
    ensures v.Loading? <==> !Present(l.error) && l.results.None?
    ensures v.NoResults? <==> !Present(l.error) && l.results == Some([])
    ensures v.ItemList? ==> l.results == Some(v.items) && v.items != []
  {
    if Present(l.error) then ErrorView(l.error.value)
    else if l.results.None? then Loading
    else if l.results.value == [] then NoResults
    else ItemList(l.results.value)
  }

  /** The "View on Google" target: the search for the query's events, or the
      home page without a query. The URL encoding is not modelled. */
  datatype GoogleLink = GoogleHome | GoogleSearch(terms: string)

  function GoogleUrl(query: string): (g: GoogleLink)
    ensures g.GoogleHome? <==> query == ""
    ensures g.GoogleSearch? ==> g.terms == query + " events"
  {
    if query != "" then GoogleSearch(query + " events") else GoogleHome
  }

  /** The page body below its heading: the hint, the "not configured" note,
      the results list, or nothing more. */
  datatype PageBody = Hint | NotConfigured(link: GoogleLink) | Results(view: ResultsView, link: GoogleLink) | Bare

  datatype Page = Page(query: string, body: PageBody)

  /** The whole page. `respond` stands for the HTTP exchange; it is
      consulted only when a request is made. */
  function RenderPage(p: SearchParams, config: Config, respond: FetchRequest -> Reply): (page: Page)
    ensures page.query == EffectiveQuery(p)
  {
    var query := EffectiveQuery(p);
    var plan := PlanFetch(query, config);
    var loaded := if plan.Some? then Load(respond(plan.value)) else Loaded(None, None);
    var link := GoogleUrl(query);
    var body :=
      if query == "" then Hint
      else if !Present(config.apiKey) && !Present(config.cx) then NotConfigured(link)
      else if Present(config.apiKey) && Present(config.cx) then Results(ResultsList(loaded), link)
      else Bare;
    Page(query, body)
  }

  /** Which body is shown: the hint without a query; with one, the note when
      neither setting is present, the results when both are (and exactly
      then is a request made), and nothing more when only one is. */
  lemma ViewSelection(p: SearchParams, config: Config, respond: FetchRequest -> Reply)
    ensures var page := RenderPage(p, config, respond);
      && (page.body.Hint? <==> page.query == "")
      && (page.body.NotConfigured? <==> page.query != "" && !Present(config.apiKey) && !Present(config.cx))
      && (page.body.Results? <==> PlanFetch(page.query, config).Some?)
      && (page.body.Bare? <==> page.query != "" && Present(config.apiKey) != Present(config.cx))
      && (page.body.Results? ==>
            && page.body.link == GoogleSearch(page.query + " events")
            && page.body.view == ResultsList(Load(respond(PlanFetch(page.query, config).value))))
  {
  }

  /** "Loading results..." stays on screen only when the request threw an
      `Error` with an empty message: every other failure names itself, and
      every body yields a list, empty or not. */
  lemma LoadingOnlyOnSilentThrow(reply: Reply)
    ensures var v := ResultsList(Load(reply));
      && (v.Loading? <==> reply == Thrown(Some("")))
      && (v.ErrorView? <==> reply.HttpError? || (reply.Thrown? && reply != Thrown(Some(""))))
      && (v.NoResults? <==> reply == Body(None) || reply == Body(Some([])))
      && (v.ItemList? <==> reply.Body? && reply.items.Some? && reply.items.value != [])
  {
    if reply.HttpError? {
      var m := "Google API responded " + NatToString(reply.status);
      assert m[0] == 'G';
    }
  }
}
