/** scraper_plugin.cpp: what a page yields, and how the counters and the URL list follow the
    history of completed scrapes since the last cleanup.
 */
module ScraperPlugin {
  import opened Options
  import opened PluginLifecycle
  import opened TagCapture
  import opened TagStripping
  import opened Whitespace

  datatype Item = Item(selector: string, content: Option<string>)

  datatype Request = Request(url: string, selectors: seq<string>)

  // `error`: the reply's error string, if it failed.
  datatype Event = Finished(request: Request, error: Option<string>) | Lifecycle(call: Call)

  datatype Reply = Page(html: string) | Failed(error: string)

  datatype State = State(life: Life, pages: nat, data: nat, urls: seq<string>)

  const NEW := State(FRESH, 0, 0, [])

  // ---- What a page yields --------------------------------------------------------------------

  // The content extracted for one selector.
  ghost predicate Extracts(html: string, selector: string, item: Item) {
    && item.selector == selector
    && (if selector == "title" then Captured(TITLE, html, item.content)
        else if selector == "h1" then Captured(H1, html, item.content)
        else item.content == Some("Selector not implemented: " + selector))
  }

  // Without selectors the whole text, in one item.
  ghost predicate Yields(html: string, selectors: seq<string>, data: seq<Item>) {
    if selectors == [] then data == [Item("text_content", Some(TextContent(html)))]
    else |data| == |selectors| && forall i | 0 <= i < |selectors| :: Extracts(html, selectors[i], data[i])
  }

  function ItemCount(r: Request): nat { if r.selectors == [] then 1 else |r.selectors| }

  // A page and its selectors determine what is extracted.
  lemma YieldIsUnique(html: string, selectors: seq<string>, data: seq<Item>, data': seq<Item>)
    requires Yields(html, selectors, data) && Yields(html, selectors, data')
    ensures data == data'
  {
    if selectors != [] {
      forall i | 0 <= i < |selectors| ensures data[i] == data'[i] {
        assert Extracts(html, selectors[i], data[i]) && Extracts(html, selectors[i], data'[i]);
        if selectors[i] == "title" {
          CapturedIsUnique(TITLE, html, data[i].content, data'[i].content);
        } else if selectors[i] == "h1" {
          CapturedIsUnique(H1, html, data[i].content, data'[i].content);
        }
      }
    }
  }

  // ---- Pages, literally ----------------------------------------------------------------------

  lemma HeadingYields(before: string, attributes: string, text: string, after: string, data: seq<Item>)
    requires '<' !in before && '>' !in attributes && text != "" && '<' !in text
    requires Yields(before + ("<h1" + (attributes + ">")) + (text + "</h1>" + after), ["h1"], data)
    ensures data == [Item("h1", Some(text))]
  {
    var html := before + ("<h1" + (attributes + ">")) + (text + "</h1>" + after);
    CaptureRoundTrip(H1, before, attributes, text, after);
    assert Extracts(html, "h1", data[0]);
    CapturedIsUnique(H1, html, data[0].content, Some(text));
  }

  lemma TitleYields(before: string, text: string, after: string, data: seq<Item>)
    requires '<' !in before && text != "" && '<' !in text
    requires Yields(before + "<title>" + (text + "</title>" + after), ["title"], data)
    ensures data == [Item("title", Some(text))]
  {
    var html := before + "<title>" + (text + "</title>" + after);
    CaptureRoundTrip(TITLE, before, "", text, after);
    assert "<title>" + "" == "<title>";
    assert Extracts(html, "title", data[0]);
    CapturedIsUnique(TITLE, html, data[0].content, Some(text));
  }

  // Without a tag there is neither; the item then has no content.
  lemma NoTagNoContent(html: string, data: seq<Item>)
    requires '<' !in html && Yields(html, ["title", "h1"], data)
    ensures data == [Item("title", None), Item("h1", None)]
  {
    assert Extracts(html, "title", data[0]) && Extracts(html, "h1", data[1]);
    NothingToCapture(TITLE, html);
    NothingToCapture(H1, html);
    CapturedIsUnique(TITLE, html, data[0].content, None);
    CapturedIsUnique(H1, html, data[1].content, None);
  }

  lemma OtherSelectorsYield(html: string, selector: string, data: seq<Item>)
    requires selector != "title" && selector != "h1" && Yields(html, [selector], data)
    ensures data == [Item(selector, Some("Selector not implemented: " + selector))]
  {
    assert Extracts(html, [selector][0], data[0]);
  }

  // Two words between two tags, blanks around and between them.
  lemma TextYields(open: string, lead: string, u: string, gap: string, v: string, trail: string, close: string, data: seq<Item>)
    requires '>' !in open && '>' !in close
    requires Visible(u) && Visible(v) && '<' !in u && '<' !in v
    requires Blank(lead) && Blank(gap) && Blank(trail) && gap != ""
    requires Yields("<" + open + ">" + (lead + u + gap + v + trail) + ("<" + close + ">"), [], data)
    ensures |u| + 1 + |v| <= 500 ==> data == [Item("text_content", Some(u + " " + v))]
    ensures |u| + 1 + |v| > 500 ==> data == [Item("text_content", Some((u + " " + v)[..500]))]
  {
    var text := lead + u + gap + v + trail;
    assert '<' !in text;
    BetweenTags(open, text, close);
    GapsCollapse(lead, u, gap, v, trail);
    var w := u + " " + v;
    assert TextContent("<" + open + ">" + text + ("<" + close + ">")) == Left(w, 500);
    assert |w| == 500 ==> w[..500] == w;
  }

  lemma BetweenTags(open: string, text: string, close: string)
    requires '>' !in open && '>' !in close && '<' !in text
    ensures Stripped("<" + open + ">" + text + ("<" + close + ">")) == text
  {
    var doc := [Tag(open), Text(text), Tag(close)];
    assert forall t | t in doc :: WellFormed(t);
    RenderedThree(open, text, close);
    StripRendered(doc);
  }

  lemma RenderedThree(open: string, text: string, close: string)
    ensures Rendered([Tag(open), Text(text), Tag(close)]) == "<" + open + ">" + text + ("<" + close + ">")
    ensures TextOf([Tag(open), Text(text), Tag(close)]) == text
  {
    var doc := [Tag(open), Text(text), Tag(close)];
    assert doc[1..] == [Text(text), Tag(close)] && doc[1..][1..] == [Tag(close)] && doc[1..][1..][1..] == [];
    assert Rendered([Tag(close)]) == "<" + close + ">" && TextOf([Tag(close)]) == "";
    assert Rendered(doc[1..]) == text + ("<" + close + ">") && TextOf(doc[1..]) == text;
    assert Rendered(doc) == ("<" + open + ">") + (text + ("<" + close + ">"));
  }

  // ---- Counters ------------------------------------------------------------------------------

  function Step(s: State, e: Event): State {
    match e
    case Finished(r, None) =>
      s.(pages := s.pages + 1, data := s.data + ItemCount(r),
         urls := if r.url in s.urls then s.urls else s.urls + [r.url])
    case Finished(r, Some(error)) => s.(life := s.life.(lastError := error))
    case Lifecycle(c) =>
      var s' := s.(life := After(s.life, c));
      if c == Cleanup && !s'.life.held then s'.(pages := 0, data := 0, urls := []) else s'
  }

  function Run(es: seq<Event>): State {
    if es == [] then NEW else Step(Run(es[..|es| - 1]), es[|es| - 1])
  }

  // The scrapes completed with success since the last cleanup.
  function Successes(es: seq<Event>): seq<Request> {
    if es == [] then [] else
      match es[|es| - 1]
      case Finished(r, None) => Successes(es[..|es| - 1]) + [r]
      case Lifecycle(Cleanup) => []
      case _ => Successes(es[..|es| - 1])
  }

  function Items(rs: seq<Request>): nat {
    if rs == [] then 0 else Items(rs[..|rs| - 1]) + ItemCount(rs[|rs| - 1])
  }

  ghost predicate Follows(s: State, rs: seq<Request>) {
    && s.pages == |rs|
    && s.data == Items(rs) >= s.pages
    && FirstOccurrences(rs, s.urls)
  }

  // A mutex that is held stays held, so a run that ends unblocked never blocked.
  lemma {:induction false} CountersFollowHistory(es: seq<Event>)
    requires !Run(es).life.held
    ensures Follows(Run(es), Successes(es))
  {
    if es == [] {
      NothingFollows(NEW);
    } else {
      var init := es[..|es| - 1];
      CountersFollowHistory(init);
      match es[|es| - 1]
      case Finished(r, error) =>
        if error == None {
          SuccessFollows(Run(init), Successes(init), r);
        }
      case Lifecycle(c) =>
        if c == Cleanup {
          NothingFollows(Run(es));
        }
    }
  }

  function CallsOf(es: seq<Event>): seq<Call> {
    if es == [] then []
    else CallsOf(es[..|es| - 1]) + if es[|es| - 1].Lifecycle? then [es[|es| - 1].call] else []
  }

  // The error of the last scrape that failed, or what the calls since then have made of it.
  ghost function LastError(es: seq<Event>): string {
    if es == [] then "" else
      match es[|es| - 1]
      case Finished(_, Some(error)) => error
      case Lifecycle(c) => Message(CallsOf(es[..|es| - 1]), c, LastError(es[..|es| - 1]))
      case _ => LastError(es[..|es| - 1])
  }

  // Nothing but the calls decides the life cycle; in particular nothing else blocks.
  lemma {:induction false} LifeFollowsCalls(es: seq<Event>)
    ensures SameLife(Run(es).life, Calls(FRESH, CallsOf(es)))
  {
    if es != [] {
      var init, e := es[..|es| - 1], es[|es| - 1];
      LifeFollowsCalls(init);
      if e.Lifecycle? {
        CallLeavesMessage(Run(init).life, CallsOf(init), e.call);
      } else {
        assert CallsOf(es) == CallsOf(init);
      }
    }
  }

  lemma {:induction false} LastErrorTells(es: seq<Event>)
    requires !Run(es).life.held
    ensures Run(es).life.lastError == LastError(es)
  {
    if es != [] {
      var init, e := es[..|es| - 1], es[|es| - 1];
      if e.Lifecycle? {
        assert !Run(init).life.held;
      }
      LastErrorTells(init);
      LifeFollowsCalls(init);
      if e.Lifecycle? {
        CallLeavesMessage(Run(init).life, CallsOf(init), e.call);
      }
    }
  }

  lemma NothingFollows(s: State)
    requires s.pages == 0 && s.data == 0 && s.urls == []
    ensures Follows(s, [])
  {}

  lemma SuccessFollows(s: State, rs: seq<Request>, r: Request)
    requires Follows(s, rs)
    ensures Follows(Step(s, Finished(r, None)), rs + [r])
  {
    assert (rs + [r])[..|rs|] == rs;
    FirstOccurrencesSnoc(rs, s.urls, r);
  }

  // The position of the first success of a URL, |rs| if it has none.
  function FirstSuccess(rs: seq<Request>, url: string): (k: nat)
    ensures k <= |rs|
  {
    if rs == [] then 0
    else
      var k := FirstSuccess(rs[..|rs| - 1], url);
      if k < |rs| - 1 || rs[|rs| - 1].url == url then k else |rs|
  }

  lemma {:induction false} FirstSuccessIsFirst(rs: seq<Request>, url: string)
    ensures FirstSuccess(rs, url) < |rs| ==> rs[FirstSuccess(rs, url)].url == url
    ensures forall k | 0 <= k < FirstSuccess(rs, url) :: rs[k].url != url
  {
    if rs != [] {
      FirstSuccessIsFirst(rs[..|rs| - 1], url);
    }
  }

  lemma FirstSuccessSnoc(rs: seq<Request>, r: Request, url: string)
    ensures FirstSuccess(rs + [r], url) ==
            var k := FirstSuccess(rs, url);
            if k < |rs| || r.url == url then k else |rs| + 1
  {
    assert (rs + [r])[..|rs|] == rs;
  }

  // The list has exactly the URLs that succeeded, without duplicates, in the order of their first
  // successes.
  ghost predicate FirstOccurrences(rs: seq<Request>, urls: seq<string>) {
    && (forall k | 0 <= k < |rs| :: rs[k].url in urls)
    && (forall i | 0 <= i < |urls| :: FirstSuccess(rs, urls[i]) < |rs|)
    && (forall i, j | 0 <= i < j < |urls| :: FirstSuccess(rs, urls[i]) < FirstSuccess(rs, urls[j]))
  }

  lemma NoDuplicates(rs: seq<Request>, urls: seq<string>)
    requires FirstOccurrences(rs, urls)
    ensures forall i, j | 0 <= i < j < |urls| :: urls[i] != urls[j]
    ensures forall u :: u in urls <==> exists k :: 0 <= k < |rs| && rs[k].url == u
  {
    forall u | u in urls ensures exists k :: 0 <= k < |rs| && rs[k].url == u {
      var i :| 0 <= i < |urls| && urls[i] == u;
      FirstSuccessIsFirst(rs, urls[i]);
    }
    forall i, j | 0 <= i < j < |urls| ensures urls[i] != urls[j] {
      assert FirstSuccess(rs, urls[i]) < FirstSuccess(rs, urls[j]);
    }
  }

  lemma FirstOccurrencesSnoc(rs: seq<Request>, urls: seq<string>, r: Request)
    requires FirstOccurrences(rs, urls)
    ensures FirstOccurrences(rs + [r], if r.url in urls then urls else urls + [r.url])
  {
    var rs', urls' := rs + [r], if r.url in urls then urls else urls + [r.url];
    forall k | 0 <= k < |rs'| ensures rs'[k].url in urls' {
      assert k < |rs| ==> rs'[k] == rs[k];
    }
    forall i | 0 <= i < |urls| ensures FirstSuccess(rs', urls'[i]) == FirstSuccess(rs, urls[i]) < |rs| {
      FirstSuccessSnoc(rs, r, urls[i]);
    }
    if r.url !in urls {
      FirstSuccessIsFirst(rs, r.url);
      FirstSuccessSnoc(rs, r, r.url);
    }
  }

  // The history determines the list.
  lemma {:induction false} FirstOccurrencesUnique(rs: seq<Request>, us: seq<string>, vs: seq<string>, i: nat)
    requires FirstOccurrences(rs, us) && FirstOccurrences(rs, vs)
    requires i <= |us| && i <= |vs| && us[..i] == vs[..i]
    ensures us == vs
    decreases |us| - i
  {
    if i < |us| {
      NextOccurrence(rs, us, vs, i);
    }
    if i < |vs| {
      NextOccurrence(rs, vs, us, i);
    }
    if i < |us| && i < |vs| {
      SameUrl(rs, us[i], vs[i]);
      assert us[..i + 1] == us[..i] + [us[i]] && vs[..i + 1] == vs[..i] + [vs[i]];
      FirstOccurrencesUnique(rs, us, vs, i + 1);
    }
  }

  // Lists that agree so far: the next entry of one stands in the other, not before this position.
  lemma NextOccurrence(rs: seq<Request>, us: seq<string>, vs: seq<string>, i: nat)
    requires FirstOccurrences(rs, us) && FirstOccurrences(rs, vs)
    requires i < |us| && i <= |vs| && us[..i] == vs[..i]
    ensures i < |vs| && FirstSuccess(rs, vs[i]) <= FirstSuccess(rs, us[i])
  {
    var j := Position(rs, vs, us[i], FirstSuccess(rs, us[i]));
    assert forall x | 0 <= x < i :: us[x] == us[..i][x] == vs[..i][x] == vs[x];
    assert forall x | 0 <= x < i :: FirstSuccess(rs, us[x]) < FirstSuccess(rs, us[i]);
  }

  // Where a URL with a first success stands in the list.
  lemma Position(rs: seq<Request>, urls: seq<string>, url: string, k: nat) returns (j: nat)
    requires FirstOccurrences(rs, urls) && k == FirstSuccess(rs, url) < |rs|
    ensures j < |urls| && urls[j] == url
  {
    FirstSuccessIsFirst(rs, url);
    assert rs[k].url in urls;
    j :| j < |urls| && urls[j] == url;
  }

  lemma SameUrl(rs: seq<Request>, u: string, v: string)
    requires FirstSuccess(rs, u) == FirstSuccess(rs, v) < |rs|
    ensures u == v
  {
    FirstSuccessIsFirst(rs, u);
    FirstSuccessIsFirst(rs, v);
  }

  class ScraperPlugin {
    const life: Plugin
    var pagesScraped: nat
    var dataExtracted: nat
    var scrapedUrls: seq<string>

    function Snapshot(): State
      reads this, life
    {
      State(life.Snapshot(), pagesScraped, dataExtracted, scrapedUrls)
    }

    constructor ()
      ensures Snapshot() == NEW && fresh(life)
    {
      life := new Plugin();
      pagesScraped, dataExtracted, scrapedUrls := 0, 0, [];
    }

    method ParseHtml(html: string, selectors: seq<string>) returns (extractedData: seq<Item>)
      modifies `dataExtracted
      ensures Yields(html, selectors, extractedData)
      ensures dataExtracted == old(dataExtracted) + |extractedData|
    {
      extractedData := [];
      if selectors == [] {
        var cleanText := StripTags(html);
        cleanText := Simplify(cleanText);
        extractedData := extractedData + [Item("text_content", Some(Left(cleanText, TEXT_LIMIT)))];
        assert extractedData == [Item("text_content", Some(TextContent(html)))];
      } else {
        for i := 0 to |selectors|
          invariant |extractedData| == i && dataExtracted == old(dataExtracted)
          invariant forall k | 0 <= k < i :: Extracts(html, selectors[k], extractedData[k])
        {
          var content;
          if selectors[i] == "title" {
            content := Capture(TITLE, html);
          } else if selectors[i] == "h1" {
            content := Capture(H1, html);
          } else {
            content := Some("Selector not implemented: " + selectors[i]);
          }
          extractedData := extractedData + [Item(selectors[i], content)];
        }
      }
      dataExtracted := dataExtracted + |extractedData|;
    }

    method OnScrapeFinished(request: Request, reply: Reply) returns (data: seq<Item>)
      modifies `pagesScraped, `dataExtracted, `scrapedUrls, life`lastError
      ensures Snapshot() == Step(old(Snapshot()), Finished(request, if reply.Page? then None else Some(reply.error)))
      ensures if reply.Page? then Yields(reply.html, request.selectors, data) else data == []
    {
      data := [];
      if reply.Page? {
        data := ParseHtml(reply.html, request.selectors);
        pagesScraped := pagesScraped + 1;
        if request.url !in scrapedUrls {
          scrapedUrls := scrapedUrls + [request.url];
        }
      } else {
        life.lastError := reply.error;
      }
    }

    method Cleanup() returns (o: Outcome)
      modifies this, life
      ensures Snapshot() == Step(old(Snapshot()), Lifecycle(Call.Cleanup))
      ensures o == OutcomeOf(old(life.Snapshot()), Call.Cleanup)
    {
      o := life.Cleanup();
      if o == Blocked { return; }
      pagesScraped, dataExtracted, scrapedUrls := 0, 0, [];
    }
  }
}
