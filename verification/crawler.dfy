/** The crawler service (backend/app/services/crawler.py): `fetch_page`
    turned into a record, and the crawl over the site's link graph.

    The crawl is asyncio code. `crawl_recursive` runs without suspending from
    its depth and budget checks up to `visited_urls.add`, and again after
    `await fetch_page` to the end; the children it creates only start inside
    `asyncio.gather`, in an order that depends on when the network answers.
    So the crawl is modelled as a worklist of those two uninterrupted steps:
    `Admit` (the checks and the insertion) and `Expand` (recording the fetched
    page and spawning its children). A scheduler picks which pending step runs
    next, and every property below holds whatever it picks. */
module Crawler {
  import opened Text
  import opened Urls
  import opened Html

  /** `settings.MAX_PAGES_PER_SCAN` and `settings.MAX_DEPTH`. */
  const DefaultMaxPages: int := 100
  const DefaultMaxDepth: int := 5

  /** Children spawned per page: `page_data['links'][:20]`. */
  const LinksPerPage: nat := 20

  /** The answer to a GET of a URL: a response with its status, body text and
      parsed document, a timeout, or any other exception with its `str(e)`. */
  datatype Response = Ok(status: int, body: string, doc: Document) | Timeout | Failure(message: string)

  /** The `meta` dictionary of a fetched page; a page that was not parsed has
      none of its keys, which reads the same as `EmptyMeta`. */
  datatype MetaInfo = MetaInfo(title: Option<string>, description: Option<string>,
                               keywords: Option<string>, hasFavicon: bool)

  const EmptyMeta := MetaInfo(None, None, None, false)

  /** The dictionary `fetch_page` returns. */
  datatype Fetched = Fetched(url: string, status: int, title: Option<string>, html: Option<Document>,
                             text: Option<string>, links: seq<string>, meta: MetaInfo, error: Option<string>)

  /** An entry of `pages_data`: the fetched record plus its `depth`. */
  datatype PageRecord = PageRecord(page: Fetched, depth: int)

  /** `str(e)` of the `AttributeError` raised by `None.strip()`. */
  const TitleCrashMessage := "'NoneType' object has no attribute 'strip'"

  /** `value or default` for an optional integer setting: `None` and `0` are falsy. */
  function OrDefault(v: Option<int>, default: int): (r: int)
    ensures r == default <== v.None? || v.value == 0
    ensures v.Some? && v.value != 0 ==> r == v.value
  {
    if v.None? || v.value == 0 then default else v.value
  }

  /** The links of a parsed page: every `href` joined onto the page URL by
      `join` (`urljoin`), kept when `isValid` (`is_valid_url`) accepts it, in
      document order. */
  function ValidLinks(url: string, anchors: seq<Anchor>,
      join: (string, string) -> string, isValid: string -> bool): (r: seq<string>)
    ensures |r| <= |anchors|
  {
    if anchors == [] then []
    else
      var absolute := join(url, anchors[|anchors| - 1].href);
      ValidLinks(url, anchors[..|anchors| - 1], join, isValid) + (if isValid(absolute) then [absolute] else [])
  }

  /** A URL is among the kept links exactly when `is_valid_url` accepts it and
      it is the join of some anchor of the page. */
  lemma {:induction false} ValidLinksExactly(url: string, anchors: seq<Anchor>,
      join: (string, string) -> string, isValid: string -> bool)
    ensures forall l :: l in ValidLinks(url, anchors, join, isValid) <==>
                        isValid(l) && exists k :: 0 <= k < |anchors| && l == join(url, anchors[k].href)
  {
    if anchors != [] {
      var n := |anchors| - 1;
      var prefix := anchors[..n];
      var absolute := join(url, anchors[n].href);
      ValidLinksExactly(url, prefix, join, isValid);
      assert ValidLinks(url, anchors, join, isValid) == ValidLinks(url, prefix, join, isValid) + (if isValid(absolute) then [absolute] else []);
      forall l
        ensures l in ValidLinks(url, anchors, join, isValid) <==>
                isValid(l) && exists k :: 0 <= k < |anchors| && l == join(url, anchors[k].href)
      {
        if l in ValidLinks(url, prefix, join, isValid) {
          var k :| 0 <= k < n && l == join(url, prefix[k].href);
          assert prefix[k] == anchors[k];
        }
        if isValid(l) && exists k :: 0 <= k < |anchors| && l == join(url, anchors[k].href) {
          var k :| 0 <= k < |anchors| && l == join(url, anchors[k].href);
          if k < n {
            assert prefix[k] == anchors[k];
          }
        }
      }
    }
  }

  /** The loop of `fetch_page` over the page's anchors. */
  method CollectLinks(url: string, anchors: seq<Anchor>,
      join: (string, string) -> string, isValid: string -> bool) returns (links: seq<string>)
    ensures links == ValidLinks(url, anchors, join, isValid)
  {
    links := [];
    var i := 0;
    while i < |anchors|
      invariant 0 <= i <= |anchors|
      invariant links == ValidLinks(url, anchors[..i], join, isValid)
    {
      var absolute := join(url, anchors[i].href);
      assert anchors[..i + 1][..i] == anchors[..i];
      if isValid(absolute) {
        links := links + [absolute];
      }
      i := i + 1;
    }
    assert anchors[..i] == anchors;
  }

  /** A record for a page that answered with no usable document. */
  function Unparsed(url: string, status: int, error: Option<string>): Fetched
  {
    Fetched(url, status, None, None, None, [], EmptyMeta, error)
  }

  /** The record of a page that answered 200, with its title already decided. */
  function Parsed(url: string, doc: Document, title: Option<string>,
      join: (string, string) -> string, isValid: string -> bool): Fetched
  {
    Fetched(url, 200, title, Some(doc), Some(doc.visibleText), ValidLinks(url, doc.anchors, join, isValid),
            MetaInfo(title, MetaContent(doc.description), MetaContent(doc.keywords), doc.hasIconLink), None)
  }

  /** `fetch_page` as written: `title_tag.string.strip()` raises when the
      `<title>` element has no single string, and the `except Exception`
      turns the whole page into a status-0 record without links. */
  function FetchAsWritten(url: string, response: Response,
      join: (string, string) -> string, isValid: string -> bool): (f: Fetched)
    ensures f.url == url
  {
    match response
    case Timeout => Unparsed(url, 408, Some("Request timeout"))
    case Failure(message) => Unparsed(url, 0, Some(message))
    case Ok(status, _, doc) =>
      if status != 200 then Unparsed(url, status, None)
      else match doc.title
        case NoTitle => Parsed(url, doc, None, join, isValid)
        case TitleTag(None) => Unparsed(url, 0, Some(TitleCrashMessage))
        case TitleTag(Some(s)) => Parsed(url, doc, Some(Strip(s)), join, isValid)
  }

  /** `fetch_page` with its title guarded: a `<title>` without a string gives
      no title instead of an exception. */
  function Fetch(url: string, response: Response,
      join: (string, string) -> string, isValid: string -> bool): (f: Fetched)
    ensures f.url == url
  {
    match response
    case Timeout => Unparsed(url, 408, Some("Request timeout"))
    case Failure(message) => Unparsed(url, 0, Some(message))
    case Ok(status, _, doc) =>
      if status != 200 then Unparsed(url, status, None)
      else Parsed(url, doc, TitleText(doc.title), join, isValid)
  }

  /** A page whose fetch failed (a status other than 200, a timeout or an
      exception) has no links, so it is never expanded; a timeout is recorded
      as 408 and an exception as 0, each with its error text. */
  lemma FailedFetchHasNoLinks(url: string, response: Response,
      join: (string, string) -> string, isValid: string -> bool)
    ensures var f := Fetch(url, response, join, isValid);
            && (f.links != [] ==> response.Ok? && response.status == 200)
            && (f.status == 200 <==> response.Ok? && response.status == 200)
            && (response.Timeout? ==> f.status == 408 && f.error == Some("Request timeout"))
            && (response.Failure? ==> f.status == 0 && f.error == Some(response.message))
            && (f.html.Some? <==> response.Ok? && response.status == 200)
    ensures var f := FetchAsWritten(url, response, join, isValid);
            && (f.links != [] ==> response.Ok? && response.status == 200)
            && (f.status == 200 <==> response.Ok? && response.status == 200 && response.doc.title != TitleTag(None))
            && (response.Timeout? ==> f.status == 408 && f.error == Some("Request timeout"))
            && (response.Failure? ==> f.status == 0 && f.error == Some(response.message))
            && (f.html.Some? <==> f.status == 200)
  {
  }

  /** The links a fetch keeps are exactly the joins of the page's anchors that
      `is_valid_url` accepts; as written, a page whose `<title>` has no string
      keeps none. */
  lemma FetchedLinksAreValid(url: string, response: Response,
      join: (string, string) -> string, isValid: string -> bool)
    ensures var f := Fetch(url, response, join, isValid);
            forall l :: l in f.links <==>
              response.Ok? && response.status == 200 && isValid(l) &&
              exists k :: 0 <= k < |response.doc.anchors| && l == join(url, response.doc.anchors[k].href)
    ensures var f := FetchAsWritten(url, response, join, isValid);
            forall l :: l in f.links <==>
              response.Ok? && response.status == 200 && response.doc.title != TitleTag(None) && isValid(l) &&
              exists k :: 0 <= k < |response.doc.anchors| && l == join(url, response.doc.anchors[k].href)
  {
    if response.Ok? {
      ValidLinksExactly(url, response.doc.anchors, join, isValid);
    }
  }

  /** As written, a 200 page whose `<title>` has no single string is recorded
      with status 0, no text and no links, although it was fetched and parsed. */
  lemma EmptyTitleLosesPage(url: string, body: string, doc: Document,
      join: (string, string) -> string, isValid: string -> bool)
    requires doc.title == TitleTag(None)
    ensures FetchAsWritten(url, Ok(200, body, doc), join, isValid) == Unparsed(url, 0, Some(TitleCrashMessage))
    ensures Fetch(url, Ok(200, body, doc), join, isValid).status == 200
    ensures Fetch(url, Ok(200, body, doc), join, isValid).links == ValidLinks(url, doc.anchors, join, isValid)
  {
  }

  /** The two agree on every response except a 200 page with a string-less `<title>`. */
  lemma FetchAgreesElsewhere(url: string, response: Response,
      join: (string, string) -> string, isValid: string -> bool)
    requires !(response.Ok? && response.status == 200 && response.doc.title == TitleTag(None))
    ensures FetchAsWritten(url, response, join, isValid) == Fetch(url, response, join, isValid)
  {
  }

  /** `fetch_page`: the loop over the anchors collects the valid absolute
      links; a `<title>` without a string then raises, and the page is
      recorded as failed. */
  method FetchPage(url: string, response: Response,
      join: (string, string) -> string, isValid: string -> bool) returns (f: Fetched)
    ensures f == FetchAsWritten(url, response, join, isValid)
  {
    match response {
      case Timeout =>
        return Unparsed(url, 408, Some("Request timeout"));
      case Failure(message) =>
        return Unparsed(url, 0, Some(message));
      case Ok(status, _, doc) =>
        if status != 200 {
          return Unparsed(url, status, None);
        }
        var links := CollectLinks(url, doc.anchors, join, isValid);
        if doc.title == TitleTag(None) {
          return Unparsed(url, 0, Some(TitleCrashMessage));
        }
        var title := TitleText(doc.title);
        f := Fetched(url, 200, title, Some(doc), Some(doc.visibleText), links,
                     MetaInfo(title, MetaContent(doc.description), MetaContent(doc.keywords), doc.hasIconLink), None);
    }
  }

  /** A step of the crawl: `Admit` runs `crawl_recursive` up to its `await`,
      `Expand` runs the rest once the page has been fetched. */
  datatype Step = Admit(url: string, depth: int) | Expand(url: string, depth: int)

  /** The keys of the recorded pages. */
  function PageKeys(pages: seq<PageRecord>, key: string -> string): (r: set<string>)
    ensures |r| <= |pages|
  {
    if pages == [] then {} else PageKeys(pages[..|pages| - 1], key) + {key(pages[|pages| - 1].page.url)}
  }

  /** The keys of the pending `Expand` steps. */
  function ExpandKeys(steps: seq<Step>, key: string -> string): set<string>
  {
    if steps == [] then {} else (if steps[0].Expand? then {key(steps[0].url)} else {}) + ExpandKeys(steps[1..], key)
  }

  function CountExpands(steps: seq<Step>): nat
  {
    if steps == [] then 0 else (if steps[0].Expand? then 1 else 0) + CountExpands(steps[1..])
  }

  /** `[crawl_recursive(link, depth) for link in links]`. */
  function AdmitAll(links: seq<string>, depth: int): (r: seq<Step>)
    ensures |r| == |links|
    ensures forall i :: 0 <= i < |r| ==> r[i] == Admit(links[i], depth)
  {
    if links == [] then [] else AdmitAll(links[..|links| - 1], depth) + [Admit(links[|links| - 1], depth)]
  }

  function Take(s: seq<string>, n: nat): (r: seq<string>)
    ensures |r| == Min(n, |s|) && r == s[..|r|]
  {
    if |s| <= n then s else s[..n]
  }

  lemma AddKey(keys: set<string>, k: string)
    ensures k in keys ==> keys + {k} == keys
    ensures k !in keys ==> |keys + {k}| == |keys| + 1
  {
  }

  /** Every recorded page has its key among the page keys. */
  lemma {:induction false} PageKeysCoverPages(pages: seq<PageRecord>, key: string -> string)
    ensures forall i :: 0 <= i < |pages| ==> key(pages[i].page.url) in PageKeys(pages, key)
  {
    if pages != [] {
      var n := |pages| - 1;
      var prefix := pages[..n];
      PageKeysCoverPages(prefix, key);
      forall i | 0 <= i < n
        ensures key(pages[i].page.url) in PageKeys(pages, key)
      {
        assert pages[i] == prefix[i];
      }
    }
  }

  /** Page keys are distinct when there are as many keys as pages. */
  lemma {:induction false} DistinctPageKeys(pages: seq<PageRecord>, key: string -> string)
    requires |PageKeys(pages, key)| == |pages|
    ensures forall i, j :: 0 <= i < j < |pages| ==> key(pages[i].page.url) != key(pages[j].page.url)
  {
    if pages != [] {
      var n := |pages| - 1;
      var prefix := pages[..n];
      var k := key(pages[n].page.url);
      var before := PageKeys(prefix, key);
      assert PageKeys(pages, key) == before + {k};
      AddKey(before, k);
      assert k !in before && |before| == n;
      DistinctPageKeys(prefix, key);
      PageKeysCoverPages(prefix, key);
      forall i, j | 0 <= i < j < |pages|
        ensures key(pages[i].page.url) != key(pages[j].page.url)
      {
        assert pages[i] == prefix[i];
        if j < n {
          assert pages[j] == prefix[j];
        }
      }
    }
  }

  lemma PageKeysAppend(pages: seq<PageRecord>, p: PageRecord, key: string -> string)
    ensures PageKeys(pages + [p], key) == PageKeys(pages, key) + {key(p.page.url)}
  {
    assert (pages + [p])[..|pages|] == pages;
  }

  lemma {:induction false} StepsConcat(a: seq<Step>, b: seq<Step>, key: string -> string)
    ensures ExpandKeys(a + b, key) == ExpandKeys(a, key) + ExpandKeys(b, key)
    ensures CountExpands(a + b) == CountExpands(a) + CountExpands(b)
  {
    if a == [] {
      assert a + b == b;
    } else {
      assert (a + b)[1..] == a[1..] + b;
      StepsConcat(a[1..], b, key);
    }
  }

  lemma {:induction false} AdmitsHaveNoExpands(links: seq<string>, depth: int, key: string -> string)
    ensures ExpandKeys(AdmitAll(links, depth), key) == {} && CountExpands(AdmitAll(links, depth)) == 0
  {
    if links != [] {
      AdmitsHaveNoExpands(links[..|links| - 1], depth, key);
      StepsConcat(AdmitAll(links[..|links| - 1], depth), [Admit(links[|links| - 1], depth)], key);
    }
  }

  /** Taking the step at `i` out of the worklist. */
  lemma RemoveStep(steps: seq<Step>, i: nat, key: string -> string)
    requires i < |steps|
    ensures var rest := steps[..i] + steps[i + 1..];
            && ExpandKeys(steps, key) == ExpandKeys(rest, key) + (if steps[i].Expand? then {key(steps[i].url)} else {})
            && CountExpands(steps) == CountExpands(rest) + (if steps[i].Expand? then 1 else 0)
  {
    assert steps == steps[..i] + ([steps[i]] + steps[i + 1..]);
    StepsConcat(steps[..i], [steps[i]] + steps[i + 1..], key);
    StepsConcat([steps[i]], steps[i + 1..], key);
    StepsConcat(steps[..i], steps[i + 1..], key);
    assert ([steps[i]] + steps[i + 1..])[1..] == steps[i + 1..];
  }

  /** Expanding the pending step at `idx` into the page record `r` and
      `spawned` (which holds no `Expand`) moves one key from the pending steps
      to the pages. */
  lemma ExpandMovesKey(before: seq<PageRecord>, r: PageRecord, pending: seq<Step>, idx: nat, spawned: seq<Step>,
                       key: string -> string)
    requires idx < |pending| && pending[idx].Expand? && r.page.url == pending[idx].url
    requires ExpandKeys(spawned, key) == {} && CountExpands(spawned) == 0
    ensures var next := pending[..idx] + pending[idx + 1..] + spawned;
            && PageKeys(before + [r], key) + ExpandKeys(next, key) == PageKeys(before, key) + ExpandKeys(pending, key)
            && CountExpands(next) + 1 == CountExpands(pending)
  {
    var rest := pending[..idx] + pending[idx + 1..];
    RemoveStep(pending, idx, key);
    PageKeysAppend(before, r, key);
    StepsConcat(rest, spawned, key);
  }

  /** Running the `Admit` step at `idx` adds to the pending keys exactly the
      key of the `Expand` it spawns, if any. */
  lemma AdmitAddsKey(keys: set<string>, pending: seq<Step>, idx: nat, spawned: seq<Step>, key: string -> string)
    requires idx < |pending| && pending[idx].Admit?
    ensures var next := pending[..idx] + pending[idx + 1..] + spawned;
            && (spawned == [] ==> keys + ExpandKeys(next, key) == keys + ExpandKeys(pending, key)
                                  && CountExpands(next) == CountExpands(pending))
            && (|spawned| == 1 && spawned[0].Expand? ==>
                  keys + ExpandKeys(next, key) == keys + ExpandKeys(pending, key) + {key(spawned[0].url)}
                  && CountExpands(next) == CountExpands(pending) + 1)
  {
    var rest := pending[..idx] + pending[idx + 1..];
    RemoveStep(pending, idx, key);
    StepsConcat(rest, spawned, key);
    if |spawned| == 1 {
      assert spawned[1..] == [];
    }
  }

  /** The worklist at the start and at the end of a crawl holds no `Expand`. */
  lemma NoPendingKeys(keys: set<string>, url: string, key: string -> string)
    ensures keys + ExpandKeys([], key) == keys
    ensures keys + ExpandKeys([Admit(url, 0)], key) == keys && CountExpands([Admit(url, 0)]) == 0
  {
    assert [Admit(url, 0)][1..] == [];
  }

  /** A recorded page the crawl may hold: at a depth in `[0, maxDepth]`, in
      the domain, and at depth 0 only for the base URL. */
  predicate PageWithin(r: PageRecord, maxDepth: int, inDomain: string -> bool, root: string)
  {
    0 <= r.depth <= maxDepth && inDomain(r.page.url) && (r.depth == 0 ==> r.page.url == root)
  }

  predicate PagesWithin(pages: seq<PageRecord>, maxDepth: int, inDomain: string -> bool, root: string)
  {
    forall i :: 0 <= i < |pages| ==> PageWithin(pages[i], maxDepth, inDomain, root)
  }

  lemma PagesWithinAppend(pages: seq<PageRecord>, r: PageRecord, maxDepth: int, inDomain: string -> bool, root: string)
    requires PagesWithin(pages, maxDepth, inDomain, root) && PageWithin(r, maxDepth, inDomain, root)
    ensures PagesWithin(pages + [r], maxDepth, inDomain, root)
  {
    forall i | 0 <= i < |pages| + 1
      ensures PageWithin((pages + [r])[i], maxDepth, inDomain, root)
    {
      if i < |pages| {
        assert (pages + [r])[i] == pages[i];
      }
    }
  }

  /** A pending step is never at a negative depth, is at depth 0 only for the
      base URL, and is an `Expand` only for a URL that passed the depth and
      domain checks. */
  predicate StepWithin(s: Step, maxDepth: int, inDomain: string -> bool, root: string)
  {
    && 0 <= s.depth
    && (s.depth == 0 ==> s.url == root)
    && (s.Expand? ==> s.depth <= maxDepth && inDomain(s.url))
  }

  predicate StepsWithin(steps: seq<Step>, maxDepth: int, inDomain: string -> bool, root: string)
  {
    steps == [] || (StepWithin(steps[0], maxDepth, inDomain, root) && StepsWithin(steps[1..], maxDepth, inDomain, root))
  }

  lemma {:induction false} StepsWithinConcat(a: seq<Step>, b: seq<Step>, maxDepth: int, inDomain: string -> bool, root: string)
    ensures StepsWithin(a + b, maxDepth, inDomain, root)
            <==> StepsWithin(a, maxDepth, inDomain, root) && StepsWithin(b, maxDepth, inDomain, root)
  {
    if a == [] {
      assert a + b == b;
    } else {
      assert (a + b)[1..] == a[1..] + b;
      StepsWithinConcat(a[1..], b, maxDepth, inDomain, root);
    }
  }

  /** Taking a step out of a worklist of admissible steps leaves one. */
  lemma RemoveStepWithin(steps: seq<Step>, i: nat, maxDepth: int, inDomain: string -> bool, root: string)
    requires i < |steps| && StepsWithin(steps, maxDepth, inDomain, root)
    ensures StepWithin(steps[i], maxDepth, inDomain, root)
    ensures StepsWithin(steps[..i] + steps[i + 1..], maxDepth, inDomain, root)
  {
    assert steps == steps[..i] + ([steps[i]] + steps[i + 1..]);
    StepsWithinConcat(steps[..i], [steps[i]] + steps[i + 1..], maxDepth, inDomain, root);
    StepsWithinConcat([steps[i]], steps[i + 1..], maxDepth, inDomain, root);
    StepsWithinConcat(steps[..i], steps[i + 1..], maxDepth, inDomain, root);
  }

  lemma {:induction false} AdmitAllWithin(links: seq<string>, depth: int, maxDepth: int, inDomain: string -> bool, root: string)
    requires 0 < depth
    ensures StepsWithin(AdmitAll(links, depth), maxDepth, inDomain, root)
  {
    if links != [] {
      var n := |links| - 1;
      AdmitAllWithin(links[..n], depth, maxDepth, inDomain, root);
      StepsWithinConcat(AdmitAll(links[..n], depth), [Admit(links[n], depth)], maxDepth, inDomain, root);
    }
  }

  /** A recorded page is what `fetch_page` makes of the web's answer for its URL. */
  predicate FromWeb(r: PageRecord, web: string -> Response,
      join: (string, string) -> string, isValid: string -> bool)
  {
    r.page == FetchAsWritten(r.page.url, web(r.page.url), join, isValid)
  }

  /** `after` keeps the pages of `start` and only adds pages fetched from `web`. */
  predicate Extends(start: seq<PageRecord>, after: seq<PageRecord>, web: string -> Response,
      join: (string, string) -> string, isValid: string -> bool)
  {
    && |start| <= |after| && after[..|start|] == start
    && forall i :: |start| <= i < |after| ==> FromWeb(after[i], web, join, isValid)
  }

  lemma ExtendsItself(pages: seq<PageRecord>, web: string -> Response,
      join: (string, string) -> string, isValid: string -> bool)
    ensures Extends(pages, pages, web, join, isValid)
  {
  }

  lemma ExtendsStep(start: seq<PageRecord>, before: seq<PageRecord>, after: seq<PageRecord>, r: PageRecord,
      web: string -> Response, join: (string, string) -> string, isValid: string -> bool)
    requires Extends(start, before, web, join, isValid)
    requires after == before || (after == before + [r] && FromWeb(r, web, join, isValid))
    ensures Extends(start, after, web, join, isValid)
  {
    if after != before {
      assert after[..|start|] == before[..|start|];
      forall i | |start| <= i < |after|
        ensures FromWeb(after[i], web, join, isValid)
      {
        if i < |before| {
          assert after[i] == before[i];
        }
      }
    }
  }

  /** The crawl's statistics (`get_statistics`). */
  datatype Statistics = Statistics(totalPages: nat, uniqueUrls: nat, maxDepthReached: int)

  /** `max(p['depth'] for p in pages)`, or 0 for no pages. */
  function MaxDepth(pages: seq<PageRecord>): (r: int)
    ensures pages == [] ==> r == 0
    ensures forall i :: 0 <= i < |pages| ==> pages[i].depth <= r
    ensures pages != [] ==> exists i :: 0 <= i < |pages| && pages[i].depth == r
  {
    if pages == [] then 0
    else if |pages| == 1 then pages[0].depth
    else Max(pages[0].depth, MaxDepth(pages[1..]))
  }

  class Crawler {
    const baseUrl: string
    const domain: string
    const maxPages: int
    const maxDepth: int
    /** `normalize_url`, the key under which a URL counts as visited. */
    const key: string -> string
    /** `is_same_domain`. */
    const inDomain: string -> bool
    /** `is_valid_url`. */
    const isValid: string -> bool
    var visited: set<string>
    var pages: seq<PageRecord>

    /** `__init__`: the base URL loses its trailing slashes, the domain is the
        netloc of the URL as given, and falsy bounds fall back to the settings. */
    constructor (url: string, maxPagesSetting: Option<int>, maxDepthSetting: Option<int>)
      ensures baseUrl == RStripChar(url, '/') && domain == UrlParse(url).netloc
      ensures maxPages == OrDefault(maxPagesSetting, DefaultMaxPages)
      ensures maxDepth == OrDefault(maxDepthSetting, DefaultMaxDepth)
      ensures key == NormalizeUrl
      ensures forall u :: inDomain(u) == IsSameDomain(domain, u)
      ensures isValid == IsValidUrl
      ensures visited == {} && pages == []
      ensures Valid()
    {
      var netloc := UrlParse(url).netloc;
      baseUrl := RStripChar(url, '/');
      domain := netloc;
      maxPages := OrDefault(maxPagesSetting, DefaultMaxPages);
      maxDepth := OrDefault(maxDepthSetting, DefaultMaxDepth);
      key := NormalizeUrl;
      inDomain := u => IsSameDomain(netloc, u);
      isValid := IsValidUrl;
      visited := {};
      pages := [];
    }

    /** The most URLs the crawl can mark visited: `max_pages`, or none at all
        when it is negative. */
    function Budget(): nat
    {
      Max(0, maxPages)
    }

    /** What `crawl_recursive` keeps true between steps: the visited set is
        exactly the keys of the recorded pages, one per page, within the
        budget, and each page is in the domain, within the depth bound, and at
        depth 0 only if it is the base URL. */
    predicate Valid()
      reads this
    {
      && visited == PageKeys(pages, key)
      && |visited| == |pages| <= Budget()
      && PagesWithin(pages, maxDepth, inDomain, baseUrl)
    }

    /** The checks `crawl_recursive` makes before marking `url` visited. */
    predicate Admissible(url: string, depth: int)
      reads this
    {
      depth <= maxDepth && |visited| < maxPages && key(url) !in visited && inDomain(url)
    }

    /** `crawl_recursive` up to `await fetch_page`: the depth bound, the page
        budget, the dedup check and the domain check, then the insertion. */
    method AdmitStep(url: string, depth: int) returns (spawned: seq<Step>)
      modifies this
      ensures pages == old(pages)
      ensures old(Admissible(url, depth)) ==> visited == old(visited) + {key(url)} && spawned == [Expand(url, depth)]
      ensures !old(Admissible(url, depth)) ==> visited == old(visited) && spawned == []
    {
      spawned := [];
      if depth > maxDepth {
        return;
      }
      if |visited| >= maxPages {
        return;
      }
      var normalized := key(url);
      if normalized in visited {
        return;
      }
      if !inDomain(url) {
        return;
      }
      visited := visited + {normalized};
      spawned := [Expand(url, depth)];
    }

    /** `crawl_recursive` after `await fetch_page` has given `pageData`:
        record the page, then, when it has links and is above the depth bound,
        spawn its first 20 links one level deeper, unless the budget is
        already spent. */
    method ExpandStep(url: string, depth: int, pageData: Fetched) returns (spawned: seq<Step>)
      modifies this
      ensures visited == old(visited)
      ensures pages == old(pages) + [PageRecord(pageData, depth)]
      ensures spawned == if pageData.links != [] && depth < maxDepth && |visited| < maxPages
                         then AdmitAll(Take(pageData.links, LinksPerPage), depth + 1) else []
    {
      pages := pages + [PageRecord(pageData, depth)];
      spawned := [];
      if pageData.links != [] && depth < maxDepth {
        var children := Take(pageData.links, LinksPerPage);
        var i := 0;
        while i < |children|
          invariant 0 <= i <= |children|
          invariant spawned == AdmitAll(children[..i], depth + 1)
          invariant i > 0 ==> |visited| < maxPages
        {
          if |visited| >= maxPages {
            break;
          }
          assert children[..i + 1][..i] == children[..i];
          spawned := spawned + [Admit(children[i], depth + 1)];
          i := i + 1;
        }
        if |visited| < maxPages {
          assert children[..i] == children;
        }
      }
    }

    /** What holds between two steps of the crawl, with `pending` the steps not
        yet run: every visited key belongs to a recorded page or to a pending
        `Expand`, one key each, within the budget; pages and pending steps
        keep the depth, domain and base-URL bounds. */
    predicate Worklist(pending: seq<Step>)
      reads this
    {
      && visited == PageKeys(pages, key) + ExpandKeys(pending, key)
      && |visited| == |pages| + CountExpands(pending) <= Budget()
      && PagesWithin(pages, maxDepth, inDomain, baseUrl)
      && StepsWithin(pending, maxDepth, inDomain, baseUrl)
    }

    /** Runs the `Admit` step at `idx`. */
    method RunAdmit(pending: seq<Step>, idx: nat) returns (next: seq<Step>)
      requires idx < |pending| && pending[idx].Admit? && Worklist(pending)
      modifies this
      ensures Worklist(next) && pages == old(pages)
      ensures |visited| > old(|visited|) || (|visited| == old(|visited|) && CountExpands(next) == CountExpands(pending) && |next| < |pending|)
    {
      var url := pending[idx].url;
      var depth := pending[idx].depth;
      var rest := pending[..idx] + pending[idx + 1..];
      RemoveStepWithin(pending, idx, maxDepth, inDomain, baseUrl);
      if Admissible(url, depth) {
        AdmitAddsKey(PageKeys(pages, key), pending, idx, [Expand(url, depth)], key);
        AddKey(visited, key(url));
        assert StepsWithin([Expand(url, depth)], maxDepth, inDomain, baseUrl) by {
          assert [Expand(url, depth)][1..] == [];
        }
      } else {
        AdmitAddsKey(PageKeys(pages, key), pending, idx, [], key);
      }
      var spawned := AdmitStep(url, depth);
      StepsWithinConcat(rest, spawned, maxDepth, inDomain, baseUrl);
      next := rest + spawned;
    }

    /** Runs the `Expand` step at `idx`, fetching its page from `web`. */
    method RunExpand(pending: seq<Step>, idx: nat, web: string -> Response, join: (string, string) -> string)
      returns (next: seq<Step>)
      requires idx < |pending| && pending[idx].Expand? && Worklist(pending)
      modifies this
      ensures Worklist(next) && visited == old(visited)
      ensures CountExpands(next) < CountExpands(pending)
      ensures pages == old(pages) + [PageRecord(FetchAsWritten(pending[idx].url, web(pending[idx].url), join, isValid), pending[idx].depth)]
    {
      var url := pending[idx].url;
      var depth := pending[idx].depth;
      var rest := pending[..idx] + pending[idx + 1..];
      RemoveStepWithin(pending, idx, maxDepth, inDomain, baseUrl);
      var pageData := FetchPage(url, web(url), join, isValid);
      var children := Take(pageData.links, LinksPerPage);
      AdmitsHaveNoExpands(children, depth + 1, key);
      AdmitAllWithin(children, depth + 1, maxDepth, inDomain, baseUrl);
      PagesWithinAppend(pages, PageRecord(pageData, depth), maxDepth, inDomain, baseUrl);
      var spawned := ExpandStep(url, depth, pageData);
      assert ExpandKeys(spawned, key) == {} && CountExpands(spawned) == 0;
      assert StepsWithin(spawned, maxDepth, inDomain, baseUrl);
      ExpandMovesKey(old(pages), PageRecord(pageData, depth), pending, idx, spawned, key);
      StepsWithinConcat(rest, spawned, maxDepth, inDomain, baseUrl);
      next := rest + spawned;
    }

    /** Runs the pending step at `idx`: the visited set grows, or a pending
        `Expand` is used up, or the worklist gets shorter; at most the
        fetched page of an `Expand` is recorded. */
    method RunStep(pending: seq<Step>, idx: nat, web: string -> Response, join: (string, string) -> string)
      returns (next: seq<Step>)
      requires idx < |pending| && Worklist(pending)
      modifies this
      ensures Worklist(next)
      ensures || |visited| > old(|visited|)
              || (|visited| == old(|visited|) && CountExpands(next) < CountExpands(pending))
              || (|visited| == old(|visited|) && CountExpands(next) == CountExpands(pending) && |next| < |pending|)
      ensures || pages == old(pages)
              || pages == old(pages) + [PageRecord(FetchAsWritten(pending[idx].url, web(pending[idx].url), join, isValid), pending[idx].depth)]
    {
      if pending[idx].Admit? {
        next := RunAdmit(pending, idx);
      } else {
        next := RunExpand(pending, idx, web, join);
      }
    }

    /** `crawl`: run the worklist from `Admit(base_url, 0)` until no step is
        pending. `web` answers every GET, `join` is `urljoin`, and
        `schedule[n]` picks (modulo the worklist's length) the step run n-th;
        once the schedule is used up the first pending step runs. */
    method Crawl(web: string -> Response, join: (string, string) -> string, schedule: seq<nat>)
      returns (result: seq<PageRecord>)
      requires Valid()
      modifies this
      ensures Valid() && result == pages
      ensures forall i, j :: 0 <= i < j < |pages| ==> key(pages[i].page.url) != key(pages[j].page.url)
      ensures Extends(old(pages), pages, web, join, isValid)
    {
      var pending := [Admit(baseUrl, 0)];
      var n := 0;
      ghost var start := pages;
      NoPendingKeys(PageKeys(pages, key), baseUrl, key);
      ExtendsItself(pages, web, join, isValid);
      while pending != []
        invariant Worklist(pending)
        invariant Extends(start, pages, web, join, isValid)
        decreases Budget() - |visited|, CountExpands(pending), |pending|
      {
        var idx := if n < |schedule| then schedule[n] % |pending| else 0;
        ghost var before := pages;
        ghost var fetched := PageRecord(FetchAsWritten(pending[idx].url, web(pending[idx].url), join, isValid), pending[idx].depth);
        pending := RunStep(pending, idx, web, join);
        ExtendsStep(start, before, pages, fetched, web, join, isValid);
        n := n + 1;
      }
      NoPendingKeys(PageKeys(pages, key), baseUrl, key);
      DistinctPageKeys(pages, key);
      result := pages;
    }

    /** `get_statistics`. */
    function Stats(): (s: Statistics)
      reads this
      ensures s.totalPages == |pages| && s.uniqueUrls == |visited|
      ensures Valid() ==> s.uniqueUrls == s.totalPages <= Budget()
      ensures Valid() ==> 0 <= s.maxDepthReached <= Max(0, maxDepth)
      ensures Valid() && pages != [] ==> exists i :: 0 <= i < |pages| && pages[i].depth == s.maxDepthReached
    {
      Statistics(|pages|, |visited|, MaxDepth(pages))
    }
  }
}
