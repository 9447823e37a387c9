/** The hand-off from the header's Search button (src/app/Navbar.tsx) to
    the results page (src/app/search/page.tsx): the header's parameters, read
    back by the page, decide the query it shows and the one it sends. */
module Handoff {
  import opened Optional
  import opened Text
  import Header
  import SearchPage
  import Guests

  /** The parameters the header puts in the URL, as the page receives them:
      every key once. The URL encoding in between is taken to round-trip. */
  function Received(p: Header.SearchParams): (r: SearchPage.SearchParams)
    ensures SearchPage.AsString(r.q) == Some(p.q)
  {
    SearchPage.SearchParams(SearchPage.Single(p.q), SearchPage.Single(p.where), SearchPage.Single(p.start),
                            SearchPage.Single(p.end), SearchPage.Single(p.guests))
  }

  /** A search started from the header always carries a `q` with text, so
      the page uses it (trimmed) and never rebuilds one from the other
      parameters; it is the header's query verbatim unless the typed place
      starts with whitespace. Since that query already ends in "events" and
      the page appends " events" again, the request asks for
      "... events events". */
  lemma {:induction false} HeaderQueryReachesPage(s: Header.HeaderState, format: int -> string,
                                                  config: SearchPage.Config)
    ensures ReachesPage(Header.HandleSearch(s, format).params, s.whereQuery, config)
  {
    SearchQueryShape(s, format);
    SentQueryReachesPage(Header.HandleSearch(s, format).params, s.whereQuery, config);
  }

  /** The `q` the Search button sends has the composed query's shape. */
  lemma SearchQueryShape(s: Header.HeaderState, format: int -> string)
    ensures var q := Header.HandleSearch(s, format).params.q;
      && |q| >= 6 && q[|q| - 6..] == "events"
      && (s.whereQuery == "" || !IsJsSpace(s.whereQuery[0]) ==> IsTrimmed(q))
  {
    var startText, endText := Header.DateText(format, s.range.start), Header.DateText(format, s.range.end);
    QueryShape(s.whereQuery, startText, endText, Guests.Total(s.guests));
    assert Header.HandleSearch(s, format).params.q
        == Header.ComposeQuery(s.whereQuery, startText, endText, Guests.Total(s.guests));
  }

  /** What the page makes of the parameters `sent` from a header whose typed
      place was `where`: it shows `sent.q` trimmed (verbatim when the place
      does not start with whitespace), which ends in "events", and any
      request it sends asks for "... events events". */
  predicate ReachesPage(sent: Header.SearchParams, where: string, config: SearchPage.Config) {
    var query := SearchPage.EffectiveQuery(Received(sent));
    && query == Trim(sent.q)
    && |query| >= 6 && query[|query| - 6..] == "events"
    && (where == "" || !IsJsSpace(where[0]) ==> query == sent.q)
    && (SearchPage.PlanFetch(query, config).Some? ==>
          var q := SearchPage.PlanFetch(query, config).value.q;
          |q| >= 13 && q[|q| - 13..] == "events events")
  }

  /** The same, for any sent parameters whose `q` has the header's shape. */
  lemma SentQueryReachesPage(sent: Header.SearchParams, where: string, config: SearchPage.Config)
    requires |sent.q| >= 6 && sent.q[|sent.q| - 6..] == "events"
    requires where == "" || !IsJsSpace(where[0]) ==> IsTrimmed(sent.q)
    ensures ReachesPage(sent, where, config)
  {
    PageReadsQuery(Received(sent), sent.q, config);
    if where == "" || !IsJsSpace(where[0]) {
      TrimOfTrimmed(sent.q);
    }
  }

  /** The page's side of the hand-off, for any `q` ending in "events". */
  lemma PageReadsQuery(p: SearchPage.SearchParams, q: string, config: SearchPage.Config)
    requires SearchPage.AsString(p.q) == Some(q)
    requires |q| >= 6 && q[|q| - 6..] == "events"
    ensures var query := SearchPage.EffectiveQuery(p);
      && query == Trim(q)
      && |query| >= 6 && query[|query| - 6..] == "events"
      && (SearchPage.PlanFetch(query, config).Some? ==>
            var f := SearchPage.PlanFetch(query, config).value.q;
            |f| >= 13 && f[|f| - 13..] == "events events")
  {
    EventsSurviveTrim(q);
    PageTakesQuery(p, q);
    EventsTwice(Trim(q));
  }

  lemma EventsSurviveTrim(q: string)
    requires |q| >= 6 && q[|q| - 6..] == "events"
    ensures |Trim(q)| >= 6 && Trim(q)[|Trim(q)| - 6..] == "events"
  {
    var e := "events";
    assert !IsJsSpace(e[0]) && !IsJsSpace(e[1]) && !IsJsSpace(e[2]);
    assert !IsJsSpace(e[3]) && !IsJsSpace(e[4]) && !IsJsSpace(e[5]);
    TrimKeepsTail(q, e);
  }

  /** A `q` with text wins over the structured parameters. */
  lemma PageTakesQuery(p: SearchPage.SearchParams, q: string)
    requires SearchPage.AsString(p.q) == Some(q) && Trim(q) != ""
    ensures SearchPage.EffectiveQuery(p) == Trim(q)
  {
    assert SearchPage.ReadParam(p.q) == Some(Trim(q));
  }

  lemma EventsTwice(query: string)
    requires |query| >= 6 && query[|query| - 6..] == "events"
    ensures var q := query + " events"; |q| >= 13 && q[|q| - 13..] == "events events"
  {
    var q := query + " events";
    assert q[|q| - 13..] == query[|query| - 6..] + " events";
  }

  /** The header's query ends in "events" and starts with the place (or
      "nearby"). */
  lemma QueryShape(where: string, startText: Option<string>, endText: Option<string>, total: nat)
    ensures var q := Header.ComposeQuery(where, startText, endText, total);
      && |q| >= 6 && q[|q| - 6..] == "events"
      && (where == "" || !IsJsSpace(where[0]) ==> IsTrimmed(q))
  {
    var q := Header.ComposeQuery(where, startText, endText, total);
    Header.ComposedQueryShape(where, startText, endText, total);
    var place := if where != "" then where else "nearby";
    var dates := if Present(startText) && Present(endText) then startText.value + " to " + endText.value + " " else "";
    var head := place + " " + dates + NatToString(Header.ShownGuests(total)) + " " + Header.GuestNoun(total);
    assert q == head + " events";
    assert q[|q| - 6..] == "events";
    assert q[0] == place[0];
  }
}
