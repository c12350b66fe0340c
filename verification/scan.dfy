/** The scan task of backend/app/tasks/scan_website.py: crawl the site, run
    the checkers each page's preferences switch on, store one row per page
    and one per finding, and keep the session's status and counters up to
    date.

    The checkers are modelled in their own modules; here each one is an
    oracle (`Checkers`) from its input to the findings it returns, and the
    task's part is which of them run, how their findings become stored rows,
    and what the session says along the way. */
module Scan {
  import opened Text
  import opened Errors
  import opened Html
  import Crawler
  import Urls
  import SP = Spelling
  import AV = Address
  import LC = LinkChecker
  import SC = Seo

  // ---------------------------------------------------------------------
  // Sessions and pages

  /** `ScanStatus`. */
  datatype ScanStatus = Pending | Running | Completed | Failed

  /** The string value of each `ScanStatus` member. */
  function StatusValue(s: ScanStatus): string
  {
    match s
    case Pending => "pending"
    case Running => "running"
    case Completed => "completed"
    case Failed => "failed"
  }

  /** A stored `Page` with its `errors`; the text columns and meta fields
      the report does not read are not modelled. */
  datatype PageRow = PageRow(url: string, title: Option<string>, statusCode: int, depth: int,
                             errors: seq<Finding>)

  /** The keys of `website.preferences` the task reads; an absent key is `None`. */
  datatype Preferences = Preferences(
    maxPages: Option<int>,
    maxDepth: Option<int>,
    checkSpelling: Option<bool>,
    checkAddresses: Option<bool>,
    checkLinks: Option<bool>,
    checkPhones: Option<bool>,
    checkSeo: Option<bool>,
    whitelistWords: Option<seq<string>>)

  /** `preferences.get(key, True)`: a checker is on unless switched off. */
  predicate Enabled(setting: Option<bool>)
  {
    setting != Some(false)
  }

  /** `preferences.get(key, default)` for a bound. */
  function Setting(v: Option<int>, default: int): (r: int)
    ensures v.None? ==> r == default
    ensures v.Some? ==> r == v.value
  {
    if v.None? then default else v.value
  }

  /** The page bound the crawler ends up with: the preference, or 100 when
      it is absent, and the crawler's own fallback to 100 for `0`. */
  function PageBudget(prefs: Preferences): (r: int)
    ensures prefs.maxPages.None? || prefs.maxPages == Some(0) ==> r == Crawler.DefaultMaxPages
    ensures prefs.maxPages.Some? && prefs.maxPages.value != 0 ==> r == prefs.maxPages.value
  {
    Crawler.OrDefault(Some(Setting(prefs.maxPages, Crawler.DefaultMaxPages)), Crawler.DefaultMaxPages)
  }

  /** The depth bound the crawler ends up with, likewise with 5. */
  function DepthBudget(prefs: Preferences): (r: int)
    ensures prefs.maxDepth.None? || prefs.maxDepth == Some(0) ==> r == Crawler.DefaultMaxDepth
    ensures prefs.maxDepth.Some? && prefs.maxDepth.value != 0 ==> r == prefs.maxDepth.value
  {
    Crawler.OrDefault(Some(Setting(prefs.maxDepth, Crawler.DefaultMaxDepth)), Crawler.DefaultMaxDepth)
  }

  /** `preferences.get('whitelist_words', [])`. */
  function Whitelist(prefs: Preferences): seq<string>
  {
    if prefs.whitelistWords.None? then [] else prefs.whitelistWords.value
  }

  /** `page_data.get('text_content')`. */
  function TextContent(p: Crawler.PageRecord): Option<string>
  {
    p.page.text
  }

  /** `page_data.get('html_content')`: `str(soup)` of a parsed page. */
  function HtmlContent(p: Crawler.PageRecord): Option<string>
  {
    if p.page.html.Some? then Some(p.page.html.value.markup) else None
  }

  // ---------------------------------------------------------------------
  // The checkers and their rows

  /** What each checker returns on its input. `links` and `seo` read the
      page's HTML and URL, `robots` the site's URL. */
  datatype Checkers = Checkers(
    spelling: (string, seq<string>) -> seq<SP.SpellError>,
    addresses: string -> seq<AV.AddressError>,
    links: (string, string) -> seq<LC.BrokenLink>,
    phones: string -> seq<LC.PhoneIssue>,
    seo: (string, string) -> seq<SC.Issue>,
    robots: string -> Option<SC.Issue>)

  function SpellingRow(e: SP.SpellError): (f: Finding)
    ensures f.kind == ErrorType.Spelling && f.severity == Warning
    ensures f.message == e.message && f.suggestion == e.suggestion
  {
    Finding(ErrorType.Spelling, Warning, e.message, Some(e.context), e.suggestion, None, None)
  }

  function AddressRow(e: AV.AddressError): (f: Finding)
    ensures f.kind == ErrorType.Address && f.severity == Error
    ensures f.message == e.message && f.suggestion == e.suggestion
  {
    Finding(ErrorType.Address, Error, e.message, Some(e.context), e.suggestion, None, None)
  }

  function LinkRow(b: LC.BrokenLink): (f: Finding)
    ensures f.kind == ErrorType.BrokenLink && f.severity == Error
    ensures f.linkUrl == Some(b.linkUrl) && f.linkStatus == Some(b.statusCode)
  {
    Finding(ErrorType.BrokenLink, Error, LC.BrokenLinkMessage(b), None, None, Some(b.linkUrl), Some(b.statusCode))
  }

  /** Only a phone written as text has a `context`. */
  function PhoneRow(p: LC.PhoneIssue): (f: Finding)
    ensures f.kind == ErrorType.Phone && f.severity == Warning
    ensures f.context.Some? <==> p.NotClickable?
  {
    Finding(ErrorType.Phone, Warning, LC.PhoneIssueMessage(p),
            if p.NotClickable? then Some(p.context) else None,
            Some(LC.PhoneIssueSuggestion(p)), None, None)
  }

  /** `severity_map.get(err.get('severity', 'warning'), ErrorSeverity.WARNING)`:
      a missing or unknown severity reads as a warning. */
  function SeoSeverity(value: Option<string>): (r: Severity)
    ensures value.None? ==> r == Warning
    ensures value.Some? && SeverityFromValue(value.value).None? ==> r == Warning
    ensures value.Some? && SeverityFromValue(value.value).Some? ==> r == SeverityFromValue(value.value).value
  {
    var v := if value.None? then "warning" else value.value;
    match SeverityFromValue(v)
    case Some(s) => s
    case None => Warning
  }

  /** An SEO finding keeps the severity the SEO checker gave it. */
  function SeoRow(i: SC.Issue): (f: Finding)
    ensures f.kind == ErrorType.Seo && f.severity == i.severity
  {
    SeverityValueRoundTrip(i.severity);
    Finding(ErrorType.Seo, SeoSeverity(Some(SeverityValue(i.severity))), SC.Message(i.topic), None,
            Some(SC.Suggestion(i.topic)), None, None)
  }

  /** `[row(x) for x in xs]`. */
  function Rows<T>(xs: seq<T>, row: T -> Finding): (r: seq<Finding>)
    ensures |r| == |xs| && forall i :: 0 <= i < |xs| ==> r[i] == row(xs[i])
  {
    seq(|xs|, i requires 0 <= i < |xs| => row(xs[i]))
  }

  /** A checker whose input is `input` runs when its preference is on and
      the input is present and non-empty. */
  predicate Runs(setting: Option<bool>, input: Option<string>)
  {
    Enabled(setting) && input.Some? && input.value != []
  }

  /** The SEO findings of a page: the page's own, then, for a page at depth 0
      only, the site's robots.txt finding if there is one. */
  function SeoIssues(p: Crawler.PageRecord, site: string, c: Checkers): seq<SC.Issue>
    requires HtmlContent(p).Some?
  {
    var own := c.seo(HtmlContent(p).value, p.page.url);
    if p.depth == 0 && c.robots(site).Some? then own + [c.robots(site).value] else own
  }

  function SpellingPart(p: Crawler.PageRecord, prefs: Preferences, c: Checkers): seq<Finding>
  {
    if Runs(prefs.checkSpelling, TextContent(p))
    then Rows(c.spelling(TextContent(p).value, Whitelist(prefs)), SpellingRow) else []
  }

  function AddressPart(p: Crawler.PageRecord, prefs: Preferences, c: Checkers): seq<Finding>
  {
    if Runs(prefs.checkAddresses, TextContent(p)) then Rows(c.addresses(TextContent(p).value), AddressRow) else []
  }

  function LinkPart(p: Crawler.PageRecord, prefs: Preferences, c: Checkers): seq<Finding>
  {
    if Runs(prefs.checkLinks, HtmlContent(p)) then Rows(c.links(HtmlContent(p).value, p.page.url), LinkRow) else []
  }

  function PhonePart(p: Crawler.PageRecord, prefs: Preferences, c: Checkers): seq<Finding>
  {
    if Runs(prefs.checkPhones, HtmlContent(p)) then Rows(c.phones(HtmlContent(p).value), PhoneRow) else []
  }

  function SeoPart(p: Crawler.PageRecord, site: string, prefs: Preferences, c: Checkers): seq<Finding>
  {
    if Runs(prefs.checkSeo, HtmlContent(p)) then Rows(SeoIssues(p, site, c), SeoRow) else []
  }

  /** `page_errors` of a page: the checkers' rows in the order the task runs them. */
  function PageErrors(p: Crawler.PageRecord, site: string, prefs: Preferences, c: Checkers): seq<Finding>
  {
    SpellingPart(p, prefs, c) + AddressPart(p, prefs, c) + LinkPart(p, prefs, c) + PhonePart(p, prefs, c)
    + SeoPart(p, site, prefs, c)
  }

  // ---------------------------------------------------------------------
  // Properties of a page's findings

  /** The number of findings of kind `k`. */
  function CountKind(fs: seq<Finding>, k: ErrorType): (n: nat)
    ensures n <= |fs|
  {
    if fs == [] then 0 else CountKind(fs[..|fs| - 1], k) + (if fs[|fs| - 1].kind == k then 1 else 0)
  }

  lemma {:induction false} CountKindAppend(a: seq<Finding>, b: seq<Finding>, k: ErrorType)
    ensures CountKind(a + b, k) == CountKind(a, k) + CountKind(b, k)
    decreases |b|
  {
    if b == [] {
      assert a + b == a;
    } else {
      var b' := b[..|b| - 1];
      assert (a + b)[..|a + b| - 1] == a + b';
      CountKindAppend(a, b', k);
    }
  }

  /** Findings that all have kind `j` count fully for `j` and not at all for
      any other kind. */
  lemma {:induction false} CountKindUniform(fs: seq<Finding>, j: ErrorType, k: ErrorType)
    requires forall i :: 0 <= i < |fs| ==> fs[i].kind == j
    ensures CountKind(fs, k) == if k == j then |fs| else 0
    decreases |fs|
  {
    if fs != [] {
      CountKindUniform(fs[..|fs| - 1], j, k);
    }
  }

  /** How many findings of kind `k` the checker for `k` returns on the page
      when it runs, and 0 when it does not; for SEO the robots.txt finding
      counts, at depth 0 only. */
  function Returned(p: Crawler.PageRecord, site: string, prefs: Preferences, c: Checkers, k: ErrorType): nat
  {
    match k
    case Spelling =>
      if Runs(prefs.checkSpelling, TextContent(p)) then |c.spelling(TextContent(p).value, Whitelist(prefs))| else 0
    case Address =>
      if Runs(prefs.checkAddresses, TextContent(p)) then |c.addresses(TextContent(p).value)| else 0
    case BrokenLink =>
      if Runs(prefs.checkLinks, HtmlContent(p)) then |c.links(HtmlContent(p).value, p.page.url)| else 0
    case Phone =>
      if Runs(prefs.checkPhones, HtmlContent(p)) then |c.phones(HtmlContent(p).value)| else 0
    case Seo =>
      if Runs(prefs.checkSeo, HtmlContent(p))
      then |c.seo(HtmlContent(p).value, p.page.url)| + (if p.depth == 0 && c.robots(site).Some? then 1 else 0)
      else 0
  }

  /** A page gets, of each kind, exactly the findings that kind's checker
      returned when its preference and its input let it run, and none
      otherwise. */
  lemma PageErrorsByKind(p: Crawler.PageRecord, site: string, prefs: Preferences, c: Checkers, k: ErrorType)
    ensures CountKind(PageErrors(p, site, prefs, c), k) == Returned(p, site, prefs, c, k)
  {
    var s, a, l, ph, se :=
      SpellingPart(p, prefs, c), AddressPart(p, prefs, c), LinkPart(p, prefs, c), PhonePart(p, prefs, c),
      SeoPart(p, site, prefs, c);
    CountKindAppend(s, a, k);
    CountKindAppend(s + a, l, k);
    CountKindAppend(s + a + l, ph, k);
    CountKindAppend(s + a + l + ph, se, k);
    SpellingPartCount(p, site, prefs, c, k);
    AddressPartCount(p, site, prefs, c, k);
    LinkPartCount(p, site, prefs, c, k);
    PhonePartCount(p, site, prefs, c, k);
    SeoPartCount(p, site, prefs, c, k);
  }

  lemma SpellingPartCount(p: Crawler.PageRecord, site: string, prefs: Preferences, c: Checkers, k: ErrorType)
    ensures CountKind(SpellingPart(p, prefs, c), k)
            == if k == ErrorType.Spelling then Returned(p, site, prefs, c, k) else 0
  {
    CountKindUniform(SpellingPart(p, prefs, c), ErrorType.Spelling, k);
  }

  lemma AddressPartCount(p: Crawler.PageRecord, site: string, prefs: Preferences, c: Checkers, k: ErrorType)
    ensures CountKind(AddressPart(p, prefs, c), k)
            == if k == ErrorType.Address then Returned(p, site, prefs, c, k) else 0
  {
    CountKindUniform(AddressPart(p, prefs, c), ErrorType.Address, k);
  }

  lemma LinkPartCount(p: Crawler.PageRecord, site: string, prefs: Preferences, c: Checkers, k: ErrorType)
    ensures CountKind(LinkPart(p, prefs, c), k)
            == if k == ErrorType.BrokenLink then Returned(p, site, prefs, c, k) else 0
  {
    CountKindUniform(LinkPart(p, prefs, c), ErrorType.BrokenLink, k);
  }

  lemma PhonePartCount(p: Crawler.PageRecord, site: string, prefs: Preferences, c: Checkers, k: ErrorType)
    ensures CountKind(PhonePart(p, prefs, c), k)
            == if k == ErrorType.Phone then Returned(p, site, prefs, c, k) else 0
  {
    CountKindUniform(PhonePart(p, prefs, c), ErrorType.Phone, k);
  }

  lemma SeoPartCount(p: Crawler.PageRecord, site: string, prefs: Preferences, c: Checkers, k: ErrorType)
    ensures CountKind(SeoPart(p, site, prefs, c), k)
            == if k == ErrorType.Seo then Returned(p, site, prefs, c, k) else 0
  {
    CountKindUniform(SeoPart(p, site, prefs, c), ErrorType.Seo, k);
  }

  /** Severity is fixed by kind except for SEO, whose findings keep the
      severity the SEO checker gave them. */
  lemma PageErrorSeverity(p: Crawler.PageRecord, site: string, prefs: Preferences, c: Checkers, i: nat)
    requires i < |PageErrors(p, site, prefs, c)|
    ensures var f := PageErrors(p, site, prefs, c)[i];
            && (f.kind == ErrorType.Spelling ==> f.severity == Warning)
            && (f.kind == ErrorType.Address ==> f.severity == Error)
            && (f.kind == ErrorType.BrokenLink ==> f.severity == Error)
            && (f.kind == ErrorType.Phone ==> f.severity == Warning)
            && (f.kind == ErrorType.Seo ==> exists j :: 0 <= j < |SeoIssues(p, site, c)|
                                                   && f.severity == SeoIssues(p, site, c)[j].severity)
  {
    var s, a, l, ph, se :=
      SpellingPart(p, prefs, c), AddressPart(p, prefs, c), LinkPart(p, prefs, c), PhonePart(p, prefs, c),
      SeoPart(p, site, prefs, c);
    var fs := PageErrors(p, site, prefs, c);
    assert fs == s + a + l + ph + se;
    if i >= |s| + |a| + |l| + |ph| {
      var j := i - (|s| + |a| + |l| + |ph|);
      assert fs[i] == se[j];
    }
  }

  /** Below the home page the robots.txt finding is never added. */
  lemma RobotsOnlyAtDepthZero(p: Crawler.PageRecord, site: string, prefs: Preferences, c: Checkers)
    requires p.depth != 0
    ensures SeoPart(p, site, prefs, c)
            == if Runs(prefs.checkSeo, HtmlContent(p)) then Rows(c.seo(HtmlContent(p).value, p.page.url), SeoRow)
               else []
  {
  }

  /** A page with neither text nor HTML, or with every checker off, gets no
      findings. */
  lemma NothingToCheck(p: Crawler.PageRecord, site: string, prefs: Preferences, c: Checkers)
    requires (TextContent(p).None? || TextContent(p) == Some([]))
             || (!Enabled(prefs.checkSpelling) && !Enabled(prefs.checkAddresses))
    requires (HtmlContent(p).None? || HtmlContent(p) == Some([]))
             || (!Enabled(prefs.checkLinks) && !Enabled(prefs.checkPhones) && !Enabled(prefs.checkSeo))
    ensures PageErrors(p, site, prefs, c) == []
  {
  }

  // ---------------------------------------------------------------------
  // Checking one page

  /** `for err in xs: page_errors.append(row(err))`. */
  method AppendRows<T>(acc: seq<Finding>, xs: seq<T>, row: T -> Finding) returns (r: seq<Finding>)
    ensures r == acc + Rows(xs, row)
  {
    r := acc;
    for i := 0 to |xs|
      invariant r == acc + Rows(xs[..i], row)
    {
      assert Rows(xs[..i + 1], row) == Rows(xs[..i], row) + [row(xs[i])];
      r := r + [row(xs[i])];
    }
    assert xs[..|xs|] == xs;
  }

  /** The checks of one page (lines 102-211): each checker that runs
      appends its findings' rows. */
  method CheckPage(p: Crawler.PageRecord, site: string, prefs: Preferences, c: Checkers)
    returns (pageErrors: seq<Finding>)
    ensures pageErrors == PageErrors(p, site, prefs, c)
  {
    pageErrors := [];
    var text := TextContent(p);
    var html := HtmlContent(p);
    if Runs(prefs.checkSpelling, text) {
      pageErrors := AppendRows(pageErrors, c.spelling(text.value, Whitelist(prefs)), SpellingRow);
    }
    assert pageErrors == SpellingPart(p, prefs, c);
    ghost var e1 := pageErrors;
    if Runs(prefs.checkAddresses, text) {
      pageErrors := AppendRows(pageErrors, c.addresses(text.value), AddressRow);
    }
    assert pageErrors == e1 + AddressPart(p, prefs, c);
    ghost var e2 := pageErrors;
    if Runs(prefs.checkLinks, html) {
      pageErrors := AppendRows(pageErrors, c.links(html.value, p.page.url), LinkRow);
    }
    assert pageErrors == e2 + LinkPart(p, prefs, c);
    ghost var e3 := pageErrors;
    if Runs(prefs.checkPhones, html) {
      pageErrors := AppendRows(pageErrors, c.phones(html.value), PhoneRow);
    }
    assert pageErrors == e3 + PhonePart(p, prefs, c);
    ghost var e4 := pageErrors;
    if Runs(prefs.checkSeo, html) {
      var seoErrors := c.seo(html.value, p.page.url);
      if p.depth == 0 {
        var robots := c.robots(site);
        if robots.Some? {
          seoErrors := seoErrors + [robots.value];
        }
      }
      assert seoErrors == SeoIssues(p, site, c);
      pageErrors := AppendRows(pageErrors, seoErrors, SeoRow);
    }
    assert pageErrors == e4 + SeoPart(p, site, prefs, c);
  }

  // ---------------------------------------------------------------------
  // The scan

  /** The stored row of a crawled page with its findings. */
  function RowOf(p: Crawler.PageRecord, errors: seq<Finding>): PageRow
  {
    PageRow(p.page.url, p.page.title, p.page.status, p.depth, errors)
  }

  /** The checks of the task as a function of the page. */
  function PageCheck(site: string, prefs: Preferences, c: Checkers): Crawler.PageRecord -> seq<Finding>
  {
    p => PageErrors(p, site, prefs, c)
  }

  /** The rows of the first `n` crawled pages, each with what `check` finds on it. */
  function StoredPages(pages: seq<Crawler.PageRecord>, check: Crawler.PageRecord -> seq<Finding>, n: nat)
    : (r: seq<PageRow>)
    requires n <= |pages|
    ensures |r| == n
  {
    if n == 0 then [] else StoredPages(pages, check, n - 1) + [RowOf(pages[n - 1], check(pages[n - 1]))]
  }

  /** `total_errors` after the first `n` pages. */
  function TotalErrors(pages: seq<Crawler.PageRecord>, check: Crawler.PageRecord -> seq<Finding>, n: nat): nat
    requires n <= |pages|
  {
    if n == 0 then 0 else TotalErrors(pages, check, n - 1) + |check(pages[n - 1])|
  }

  /** The number of stored findings. */
  function SavedErrors(rows: seq<PageRow>): nat
  {
    if rows == [] then 0 else SavedErrors(rows[..|rows| - 1]) + |rows[|rows| - 1].errors|
  }

  /** `errors_found` is the number of findings stored for the scan's pages. */
  lemma {:induction false} TotalIsSaved(pages: seq<Crawler.PageRecord>, check: Crawler.PageRecord -> seq<Finding>,
                                        n: nat)
    requires n <= |pages|
    ensures TotalErrors(pages, check, n) == SavedErrors(StoredPages(pages, check, n))
  {
    if n > 0 {
      TotalIsSaved(pages, check, n - 1);
      var rows := StoredPages(pages, check, n);
      assert rows[..|rows| - 1] == StoredPages(pages, check, n - 1);
    }
  }

  /** An exception raised by the checks of page `index` (a checker, or the
      database), with its `str(e)`. */
  datatype Fault = Fault(index: nat, message: string)

  /** What the task returns, or the exception it lets escape. */
  datatype TaskOutcome =
    | Done(status: string, pagesFound: nat, pagesProcessed: int, errorsFound: int)
    | Raised(message: string)

  class ScanSession {
    var status: ScanStatus
    var pagesFound: int
    var pagesProcessed: int
    var errorsFound: int
    var errorMessage: Option<string>
    var startedAt: Option<int>
    var completedAt: Option<int>
    /** The stored pages, each with its findings. */
    var pages: seq<PageRow>

    /** A new session as the API creates it: pending, with the column defaults. */
    constructor()
      ensures status == Pending && pagesFound == 0 && pagesProcessed == 0 && errorsFound == 0
      ensures errorMessage == None && startedAt == None && completedAt == None && pages == []
    {
      status := Pending;
      pagesFound := 0;
      pagesProcessed := 0;
      errorsFound := 0;
      errorMessage := None;
      startedAt := None;
      completedAt := None;
      pages := [];
    }
  }

  /** `str(ValueError(f"ScanSession {id} not found"))`. */
  function MissingSessionMessage(id: int): string
  {
    "ScanSession " + IntToString(id) + " not found"
  }

  /** The page loop (lines 84-232), with `check` standing for the checks
      of a page (`CheckPage`): each page's row is stored with its findings, `pages_processed` goes up by one and `errors_found` becomes
      the running total. When the checks of page `fault.index` raise, that
      page's row has been flushed without findings and the loop stops with
      the exception's message. */
  method ProcessPages(session: ScanSession, pagesData: seq<Crawler.PageRecord>,
                      check: Crawler.PageRecord -> seq<Finding>, fault: Option<Fault>)
    returns (raised: Option<string>)
    modifies session
    ensures session.status == old(session.status) && session.pagesFound == old(session.pagesFound)
    ensures session.errorMessage == old(session.errorMessage)
    ensures session.startedAt == old(session.startedAt) && session.completedAt == old(session.completedAt)
    ensures var n := if raised.None? || fault.None? then |pagesData| else fault.value.index;
            && n <= |pagesData|
            && session.pagesProcessed == old(session.pagesProcessed) + n
            && session.errorsFound
               == (if n == 0 then old(session.errorsFound) else TotalErrors(pagesData, check, n))
    ensures raised.None? <==> fault.None? || fault.value.index >= |pagesData|
    ensures raised.None? ==> session.pages == old(session.pages) + StoredPages(pagesData, check, |pagesData|)
    ensures raised.Some? ==>
              && raised.value == fault.value.message
              && session.pages == old(session.pages) + StoredPages(pagesData, check, fault.value.index)
                                  + [RowOf(pagesData[fault.value.index], [])]
  {
    var totalErrors := 0;
    for i := 0 to |pagesData|
      invariant session.status == old(session.status) && session.pagesFound == old(session.pagesFound)
      invariant session.errorMessage == old(session.errorMessage)
      invariant session.startedAt == old(session.startedAt) && session.completedAt == old(session.completedAt)
      invariant fault.Some? ==> i <= fault.value.index
      invariant totalErrors == TotalErrors(pagesData, check, i)
      invariant session.pagesProcessed == old(session.pagesProcessed) + i
      invariant session.errorsFound == if i == 0 then old(session.errorsFound) else totalErrors
      invariant session.pages == old(session.pages) + StoredPages(pagesData, check, i)
    {
      var page := pagesData[i];
      if fault.Some? && fault.value.index == i {
        session.pages := session.pages + [RowOf(page, [])];
        return Some(fault.value.message);
      }
      var pageErrors := check(page);
      session.pages := session.pages + [RowOf(page, pageErrors)];
      totalErrors := totalErrors + |pageErrors|;
      session.pagesProcessed := session.pagesProcessed + 1;
      session.errorsFound := totalErrors;
    }
    return None;
  }

  /** What a crawl of `siteUrl` under `prefs` may hand the task: at most the
      page budget, no two pages under the same `normalize_url` key, each page
      in the site's domain, within the depth budget and at depth 0 only for
      the site's URL, and each page what `fetch_page` made of the web's answer. */
  predicate CrawledFrom(siteUrl: string, prefs: Preferences, web: string -> Crawler.Response,
                        join: (string, string) -> string, pages: seq<Crawler.PageRecord>)
  {
    && |pages| <= Max(0, PageBudget(prefs))
    && DistinctKeys(pages)
    && forall i :: 0 <= i < |pages| ==> CrawledPage(siteUrl, prefs, web, join, pages[i])
  }

  /** No two pages share a `normalize_url` key. */
  predicate DistinctKeys(pages: seq<Crawler.PageRecord>)
  {
    forall i, j :: 0 <= i < j < |pages| ==> Urls.NormalizeUrl(pages[i].page.url) != Urls.NormalizeUrl(pages[j].page.url)
  }

  /** One page a crawl of `siteUrl` under `prefs` may record. */
  predicate CrawledPage(siteUrl: string, prefs: Preferences, web: string -> Crawler.Response,
                        join: (string, string) -> string, r: Crawler.PageRecord)
  {
    && 0 <= r.depth <= DepthBudget(prefs)
    && Urls.IsSameDomain(Urls.UrlParse(siteUrl).netloc, r.page.url)
    && (r.depth == 0 ==> r.page.url == RStripChar(siteUrl, '/'))
    && Crawler.FromWeb(r, web, join, Urls.IsValidUrl)
  }

  /** Lines 65-75: a crawler with the preferences' bounds, run over the site. */
  method CrawlSite(siteUrl: string, prefs: Preferences, web: string -> Crawler.Response,
                   join: (string, string) -> string, schedule: seq<nat>)
    returns (pagesData: seq<Crawler.PageRecord>)
    ensures CrawledFrom(siteUrl, prefs, web, join, pagesData)
  {
    var crawler := new Crawler.Crawler(siteUrl, Some(Setting(prefs.maxPages, Crawler.DefaultMaxPages)),
                                       Some(Setting(prefs.maxDepth, Crawler.DefaultMaxDepth)));
    pagesData := crawler.Crawl(web, join, schedule);
    assert Crawler.PagesWithin(pagesData, crawler.maxDepth, crawler.inDomain, crawler.baseUrl);
    forall i | 0 <= i < |pagesData|
      ensures CrawledPage(siteUrl, prefs, web, join, pagesData[i])
    {
      assert Crawler.PageWithin(pagesData[i], crawler.maxDepth, crawler.inDomain, crawler.baseUrl);
      assert Crawler.FromWeb(pagesData[i], web, join, crawler.isValid);
    }
  }

  /** `str(e)` of the `AttributeError` raised by `None.status = ...`. */
  const NoneStatusMessage := "'NoneType' object has no attribute 'status'"

  /** What the task as written lets escape when there is no session: the
      `ValueError` is caught by the task's own handler, whose first statement
      sets `scan_session.status` on `None` and raises an `AttributeError`
      instead. */
  function MissingSessionOutcomeAsWritten(id: int): TaskOutcome
  {
    Raised(NoneStatusMessage)
  }

  /** What the task is meant to let escape when there is no session: the
      `ValueError` naming it. */
  function MissingSessionOutcome(id: int): TaskOutcome
  {
    Raised(MissingSessionMessage(id))
  }

  /** The intended error tells the sessions apart: two ids give the same
      error only when they are the same id. */
  lemma MissingSessionOutcomeNamesSession(a: int, b: int)
    ensures MissingSessionOutcome(a) == MissingSessionOutcome(b) <==> a == b
  {
    if MissingSessionOutcome(a) == MissingSessionOutcome(b) {
      var x, y := IntToString(a), IntToString(b);
      var m, n := MissingSessionMessage(a), MissingSessionMessage(b);
      assert |m| == |n|;
      assert m[12..|m| - 10] == x && n[12..|n| - 10] == y;
      IntToStringInjective(a, b);
    }
  }

  /** The `ValueError` naming the missing session never reaches the caller:
      what escapes is the same for every id and is not that error. */
  lemma MissingSessionErrorMasked(id: int)
    ensures MissingSessionOutcomeAsWritten(id) != MissingSessionOutcome(id)
    ensures MissingSessionOutcomeAsWritten(id) == MissingSessionOutcomeAsWritten(id + 1)
  {
    assert MissingSessionMessage(id)[0] == 'S';
    assert NoneStatusMessage[0] == '\'';
  }

  /** Lines 77-248, from `pages_found` on: the pages checked and stored, and
      the session closed as completed or, when a page's checks raise, as
      failed with the exception's message. */
  method FinishScan(session: ScanSession, pagesData: seq<Crawler.PageRecord>, check: Crawler.PageRecord -> seq<Finding>,
                    fault: Option<Fault>, endTime: int)
    returns (outcome: TaskOutcome)
    modifies session
    ensures session.startedAt == old(session.startedAt) && session.completedAt == Some(endTime)
    ensures session.pagesFound == |pagesData|
    ensures fault.None? || fault.value.index >= |pagesData| ==>
              && session.status == Completed
              && session.pagesProcessed == old(session.pagesProcessed) + |pagesData|
              && session.errorsFound
                 == (if pagesData == [] then old(session.errorsFound) else TotalErrors(pagesData, check, |pagesData|))
              && session.pages == old(session.pages) + StoredPages(pagesData, check, |pagesData|)
              && session.errorMessage == old(session.errorMessage)
              && outcome == Done("completed", session.pagesFound, session.pagesProcessed, session.errorsFound)
    ensures fault.Some? && fault.value.index < |pagesData| ==>
              var n := fault.value.index;
              && session.status == Failed
              && session.errorMessage == Some(fault.value.message)
              && session.pagesProcessed == old(session.pagesProcessed) + n
              && session.errorsFound
                 == (if n == 0 then old(session.errorsFound) else TotalErrors(pagesData, check, n))
              && session.pages == old(session.pages) + StoredPages(pagesData, check, n)
                                  + [RowOf(pagesData[n], [])]
              && outcome == Raised(fault.value.message)
  {
    session.pagesFound := |pagesData|;
    var raised := ProcessPages(session, pagesData, check, fault);
    if raised.Some? {
      session.status := Failed;
      session.errorMessage := raised;
      session.completedAt := Some(endTime);
      return Raised(raised.value);
    }
    session.status := Completed;
    session.completedAt := Some(endTime);
    outcome := Done("completed", session.pagesFound, session.pagesProcessed, session.errorsFound);
  }

  /** `scan_website_task`. `session` is what the query found for `id`;
      `web`, `join` and `schedule` drive the crawl as in `Crawler.Crawl`;
      `fault`, when there is one, is raised by the checks of that page;
      `startTime` and `endTime` are what `datetime.utcnow()` returns. A scan
      ends completed, or failed with the exception's message; either way it
      records both times and the number of pages found. */
  method ScanWebsite(session: ScanSession?, id: int, siteUrl: string, prefs: Preferences, c: Checkers,
                     web: string -> Crawler.Response, join: (string, string) -> string, schedule: seq<nat>,
                     fault: Option<Fault>, startTime: int, endTime: int)
    returns (outcome: TaskOutcome, ghost crawled: seq<Crawler.PageRecord>)
    modifies session
    ensures session == null ==> outcome == MissingSessionOutcomeAsWritten(id)
    ensures session != null ==>
              && CrawledFrom(siteUrl, prefs, web, join, crawled)
              && session.startedAt == Some(startTime) && session.completedAt == Some(endTime)
              && session.pagesFound == |crawled|
    ensures session != null && (fault.None? || fault.value.index >= |crawled|) ==>
              && session.status == Completed
              && session.pagesProcessed == old(session.pagesProcessed) + |crawled|
              && session.errorsFound
                 == (if crawled == [] then old(session.errorsFound)
                     else TotalErrors(crawled, PageCheck(siteUrl, prefs, c), |crawled|))
              && session.pages == old(session.pages) + StoredPages(crawled, PageCheck(siteUrl, prefs, c), |crawled|)
              && session.errorMessage == old(session.errorMessage)
              && outcome == Done("completed", session.pagesFound, session.pagesProcessed, session.errorsFound)
    ensures session != null && fault.Some? && fault.value.index < |crawled| ==>
              var n := fault.value.index;
              && session.status == Failed
              && session.errorMessage == Some(fault.value.message)
              && session.pagesProcessed == old(session.pagesProcessed) + n
              && session.errorsFound
                 == (if n == 0 then old(session.errorsFound) else TotalErrors(crawled, PageCheck(siteUrl, prefs, c), n))
              && session.pages == old(session.pages) + StoredPages(crawled, PageCheck(siteUrl, prefs, c), n)
                                  + [RowOf(crawled[n], [])]
              && outcome == Raised(fault.value.message)
  {
    crawled := [];
    if session == null {
      return MissingSessionOutcomeAsWritten(id), [];
    }
    session.status := Running;
    session.startedAt := Some(startTime);

    var pagesData := CrawlSite(siteUrl, prefs, web, join, schedule);
    crawled := pagesData;
    assert session.pagesProcessed == old(session.pagesProcessed) && session.errorsFound == old(session.errorsFound);
    assert session.pages == old(session.pages) && session.errorMessage == old(session.errorMessage);
    outcome := FinishScan(session, pagesData, PageCheck(siteUrl, prefs, c), fault, endTime);
  }
}
