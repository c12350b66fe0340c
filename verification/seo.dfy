/** The SEO inspector of backend/app/services/seo_checker.py: the meta record
    read from a page, the per-page decision table, the favicon and robots.txt
    probes and the robots decision. */
module Seo {
  import opened Text
  import opened Urls
  import opened Html
  import opened Net
  import opened Errors

  /** What a finding of the inspector is about; the finding's `message` and
      `suggestion` texts are `Message(topic)` and `Suggestion(topic)`. */
  datatype Topic =
    | FaviconMissing
    | TitleMissing | TitleTooShort(length: nat) | TitleTooLong(length: nat)
    | DescriptionMissing | DescriptionTooShort(length: nat) | DescriptionTooLong(length: nat)
    | ViewportMissing | CharsetMissing
    | RobotsMissing | RobotsBlocking

  /** A finding as `check_page` and `check_robots_accessibility` return it:
      the dictionary `{'message', 'suggestion', 'severity'}`. Its `severity`
      string is always the value of an `ErrorSeverity` member
      (`SeverityValue(severity)`), so the member stands for it here. */
  datatype Issue = Issue(topic: Topic, severity: Severity)

  /** Python truthiness of an optional string: present and non-empty. */
  predicate Truthy(s: Option<string>)
  {
    s.Some? && s.value != []
  }

  // ---------------------------------------------------------------------
  // check_meta_tags

  datatype MetaTags = MetaTags(
    title: Option<string>,
    titleLength: nat,
    description: Option<string>,
    descriptionLength: nat,
    keywords: Option<string>,
    hasOgTags: bool,
    hasViewport: bool,
    hasCharset: bool)

  /** `title_tag.string.strip() if title_tag and title_tag.string else None`:
      an empty `.string` counts as no title, a blank one strips to `""`. */
  function MetaTitle(tag: TitleTag): (r: Option<string>)
    ensures r.Some? <==> tag.TitleTag? && Truthy(tag.str)
    ensures r.Some? ==> r.value == Strip(tag.str.value)
  {
    if tag.TitleTag? && Truthy(tag.str) then Some(Strip(tag.str.value)) else None
  }

  /** `len(s) if s else 0`. */
  function TruthyLength(s: Option<string>): (n: nat)
    ensures n == 0 <==> !Truthy(s)
    ensures Truthy(s) ==> n == |s.value|
  {
    if Truthy(s) then |s.value| else 0
  }

  /** `check_meta_tags`: the record `check_page` decides on. */
  function CheckMetaTags(doc: Document): (m: MetaTags)
    ensures m.title == MetaTitle(doc.title)
    ensures m.description == MetaContent(doc.description) && m.keywords == MetaContent(doc.keywords)
    ensures m.titleLength == 0 <==> !Truthy(m.title)
    ensures m.descriptionLength == 0 <==> !Truthy(m.description)
    ensures m.hasViewport == doc.hasViewport && m.hasCharset == doc.hasCharset && m.hasOgTags == doc.hasOgTags
  {
    var title := MetaTitle(doc.title);
    var description := MetaContent(doc.description);
    MetaTags(title, TruthyLength(title), description, TruthyLength(description),
             MetaContent(doc.keywords), doc.hasOgTags, doc.hasViewport, doc.hasCharset)
  }

  /** A `<title>` made only of white space is reported as missing. */
  lemma BlankTitleIsMissing(doc: Document)
    requires doc.title.TitleTag? && doc.title.str.Some? && doc.title.str.value != []
    requires forall k :: 0 <= k < |doc.title.str.value| ==> IsSpace(doc.title.str.value[k])
    ensures CheckMetaTags(doc).title == Some([])
    ensures CheckMetaTags(doc).titleLength == 0
  {
  }

  // ---------------------------------------------------------------------
  // Favicon

  datatype FaviconResult = FaviconResult(hasFavicon: bool, faviconUrl: Option<string>, how: Option<string>)

  /** `check_favicon`: the first icon `<link>`'s `href` (or `''`) joined to the page URL. */
  function CheckFavicon(doc: Document, baseUrl: string, join: (string, string) -> string): (r: FaviconResult)
    ensures r.hasFavicon == doc.hasIconLink
    ensures r.faviconUrl.Some? <==> r.hasFavicon
    ensures r.hasFavicon ==> r.faviconUrl.value == join(baseUrl, if doc.iconHref.Some? then doc.iconHref.value else "")
  {
    if doc.hasIconLink then
      FaviconResult(true, Some(join(baseUrl, if doc.iconHref.Some? then doc.iconHref.value else "")),
                    Some("HTML link tag"))
    else FaviconResult(false, None, None)
  }

  /** `f"{parsed.scheme}://{parsed.netloc}{file}"` over `urlparse(base_url)`. */
  function SiteFileUrl(baseUrl: string, file: string): string
  {
    var p := UrlParse(baseUrl);
    p.scheme + "://" + p.netloc + file
  }

  function FaviconUrl(baseUrl: string): string { SiteFileUrl(baseUrl, "/favicon.ico") }

  function RobotsUrl(baseUrl: string): string { SiteFileUrl(baseUrl, "/robots.txt") }

  /** The probed file lives on the page's own scheme and host: splitting its
      URL gives back the page's scheme and netloc, the file as path, and
      nothing else of the page's URL. */
  lemma SiteFileOnSameHost(baseUrl: string, file: string)
    requires UrlSplit(baseUrl).scheme != []
    requires file != [] && file[0] == '/' && '?' !in file && '#' !in file
    ensures var b := UrlSplit(baseUrl);
            UrlSplit(SiteFileUrl(baseUrl, file)) == SplitUrl(b.scheme, b.netloc, file, "", "")
  {
    SchemeIsLower(baseUrl);
    var b := UrlSplit(baseUrl);
    SplitAuthority(b.scheme, b.netloc, file);
  }

  /** The HEAD of `/favicon.ico` answered 200; any exception is false. */
  predicate FaviconFileExists(reply: Reply)
  {
    reply.Answered? && reply.status == 200
  }

  /** `check_favicon_file`: `head` answers the HEAD request for a URL. */
  predicate CheckFaviconFile(baseUrl: string, head: string -> Reply)
  {
    FaviconFileExists(head(FaviconUrl(baseUrl)))
  }

  // ---------------------------------------------------------------------
  // check_page

  /** `f'{prefix} ({n} символів)'`. */
  function LengthMessage(prefix: string, n: nat): string
  {
    prefix + " (" + NatToString(n) + " символів)"
  }

  /** The `message` text of each finding. */
  function Message(t: Topic): string
  {
    match t
    case FaviconMissing => "Відсутній favicon"
    case TitleMissing => "Відсутній тег <title>"
    case TitleTooShort(n) => LengthMessage("Занадто короткий title", n)
    case TitleTooLong(n) => LengthMessage("Занадто довгий title", n)
    case DescriptionMissing => "Відсутній meta description"
    case DescriptionTooShort(n) => LengthMessage("Занадто короткий meta description", n)
    case DescriptionTooLong(n) => LengthMessage("Занадто довгий meta description", n)
    case ViewportMissing => "Відсутній meta viewport (не оптимізовано для мобільних)"
    case CharsetMissing => "Відсутнє визначення кодування (charset)"
    case RobotsMissing => "Файл robots.txt не знайдено"
    case RobotsBlocking => "Сайт заблокований для всіх роботів (Disallow: /)"
  }

  /** The `suggestion` text of each finding. */
  function Suggestion(t: Topic): string
  {
    match t
    case FaviconMissing =>
      "Додайте <link rel=\"icon\" href=\"/favicon.ico\"> у <head> або розмістіть файл /favicon.ico"
    case TitleMissing => "Додайте <title>Назва сторінки</title> у <head>"
    case TitleTooShort(_) => "Рекомендована довжина: 30-60 символів"
    case TitleTooLong(_) => "Рекомендована довжина: 30-60 символів"
    case DescriptionMissing => "Додайте <meta name=\"description\" content=\"Опис сторінки\">"
    case DescriptionTooShort(_) => "Рекомендована довжина: 120-160 символів"
    case DescriptionTooLong(_) => "Рекомендована довжина: 120-160 символів"
    case ViewportMissing => "Додайте <meta name=\"viewport\" content=\"width=device-width, initial-scale=1.0\">"
    case CharsetMissing => "Додайте <meta charset=\"UTF-8\">"
    case RobotsMissing => "Створіть файл robots.txt для контролю індексації"
    case RobotsBlocking => "Перевірте robots.txt - можливо, сайт не буде індексуватися пошуковими системами"
  }

  /** `errors` followed by at most one more finding `x`: the shape every
      step of `check_page` has. */
  predicate AppendsAtMostOne(errors: seq<Issue>, r: seq<Issue>)
  {
    |errors| <= |r| <= |errors| + 1 && r[..|errors|] == errors
  }

  /** The favicon step of `check_page`. */
  function AddFavicon(errors: seq<Issue>, hasIconLink: bool, fileExists: bool): seq<Issue>
  {
    if !hasIconLink && !fileExists then errors + [Issue(FaviconMissing, Warning)] else errors
  }

  /** The title step. */
  function AddTitle(errors: seq<Issue>, m: MetaTags): seq<Issue>
  {
    if !Truthy(m.title) then errors + [Issue(TitleMissing, Error)]
    else if m.titleLength < 30 then errors + [Issue(TitleTooShort(m.titleLength), Warning)]
    else if m.titleLength > 60 then errors + [Issue(TitleTooLong(m.titleLength), Warning)]
    else errors
  }

  /** The description step. */
  function AddDescription(errors: seq<Issue>, m: MetaTags): seq<Issue>
  {
    if !Truthy(m.description) then errors + [Issue(DescriptionMissing, Warning)]
    else if m.descriptionLength < 50 then errors + [Issue(DescriptionTooShort(m.descriptionLength), Info)]
    else if m.descriptionLength > 160 then errors + [Issue(DescriptionTooLong(m.descriptionLength), Info)]
    else errors
  }

  /** The viewport step. */
  function AddViewport(errors: seq<Issue>, m: MetaTags): seq<Issue>
  {
    if !m.hasViewport then errors + [Issue(ViewportMissing, Warning)] else errors
  }

  /** The charset step. */
  function AddCharset(errors: seq<Issue>, m: MetaTags): seq<Issue>
  {
    if !m.hasCharset then errors + [Issue(CharsetMissing, Warning)] else errors
  }

  /** A favicon finding, a warning, is added only when the page has no icon
      link and the `/favicon.ico` probe did not answer 200. */
  lemma FaviconRule(errors: seq<Issue>, hasIconLink: bool, fileExists: bool)
    ensures var r := AddFavicon(errors, hasIconLink, fileExists);
            && AppendsAtMostOne(errors, r)
            && (|r| > |errors| <==> !hasIconLink && !fileExists)
            && (|r| > |errors| ==> r[|errors|].severity == Warning)
  {
  }

  /** At most one title finding: none for a title of 30 to 60 characters,
      an error for a missing (or blank) one, a warning for one too short or
      too long. */
  lemma TitleBand(errors: seq<Issue>, m: MetaTags)
    ensures var r := AddTitle(errors, m);
            && AppendsAtMostOne(errors, r)
            && (|r| == |errors| <==> Truthy(m.title) && 30 <= m.titleLength <= 60)
            && (|r| > |errors| ==> r[|errors|].severity == (if Truthy(m.title) then Warning else Error))
  {
  }

  /** At most one description finding: none for 50 to 160 characters, a
      warning for a missing description, an info for a length outside the band. */
  lemma DescriptionBand(errors: seq<Issue>, m: MetaTags)
    ensures var r := AddDescription(errors, m);
            && AppendsAtMostOne(errors, r)
            && (|r| == |errors| <==> Truthy(m.description) && 50 <= m.descriptionLength <= 160)
            && (|r| > |errors| ==> r[|errors|].severity == (if Truthy(m.description) then Info else Warning))
  {
  }

  /** A missing viewport adds exactly one warning, and so does a missing charset. */
  lemma ViewportAndCharset(errors: seq<Issue>, m: MetaTags)
    ensures var r := AddViewport(errors, m);
            && AppendsAtMostOne(errors, r)
            && (|r| > |errors| <==> !m.hasViewport)
            && (|r| > |errors| ==> r[|errors|].severity == Warning)
    ensures var r := AddCharset(errors, m);
            && AppendsAtMostOne(errors, r)
            && (|r| > |errors| <==> !m.hasCharset)
            && (|r| > |errors| ==> r[|errors|].severity == Warning)
  {
  }

  /** The findings of `check_page` for a page, given whether `/favicon.ico`
      answered 200: favicon, title, description, viewport, charset, in order. */
  function PageIssues(doc: Document, faviconFile: bool): seq<Issue>
  {
    var m := CheckMetaTags(doc);
    AddCharset(AddViewport(AddDescription(AddTitle(AddFavicon([], doc.hasIconLink, faviconFile), m), m), m), m)
  }

  /** No finding is critical. */
  predicate NoCritical(r: seq<Issue>)
  {
    forall i :: 0 <= i < |r| ==> r[i].severity != Critical
  }

  /** A step that appends a non-critical finding keeps `NoCritical`. */
  lemma NoCriticalStep(errors: seq<Issue>, r: seq<Issue>)
    requires NoCritical(errors) && AppendsAtMostOne(errors, r)
    requires |r| > |errors| ==> r[|errors|].severity != Critical
    ensures NoCritical(r)
  {
    forall i | 0 <= i < |r| ensures r[i].severity != Critical {
      if i < |errors| {
        assert r[i] == r[..|errors|][i];
      }
    }
  }

  /** `check_page` yields at most five findings, each an error, a warning or
      an info; a page is clean exactly when it has a favicon, a title of 30
      to 60 characters, a description of 50 to 160, a viewport and a charset. */
  lemma PageIssuesBounded(doc: Document, faviconFile: bool)
    ensures var r := PageIssues(doc, faviconFile);
            |r| <= 5 && NoCritical(r)
    ensures var m := CheckMetaTags(doc);
            PageIssues(doc, faviconFile) == [] <==>
              && (doc.hasIconLink || faviconFile)
              && Truthy(m.title) && 30 <= m.titleLength <= 60
              && Truthy(m.description) && 50 <= m.descriptionLength <= 160
              && doc.hasViewport && doc.hasCharset
  {
    var m := CheckMetaTags(doc);
    var e1 := AddFavicon([], doc.hasIconLink, faviconFile);
    var e2 := AddTitle(e1, m);
    var e3 := AddDescription(e2, m);
    var e4 := AddViewport(e3, m);
    var e5 := AddCharset(e4, m);
    FaviconRule([], doc.hasIconLink, faviconFile);
    TitleBand(e1, m);
    DescriptionBand(e2, m);
    ViewportAndCharset(e3, m);
    ViewportAndCharset(e4, m);
    NoCriticalStep([], e1);
    NoCriticalStep(e1, e2);
    NoCriticalStep(e2, e3);
    NoCriticalStep(e3, e4);
    NoCriticalStep(e4, e5);
  }

  /** `check_page`: each finding appended in turn; the `/favicon.ico` probe
      (`check_favicon_file`, a HEAD that `head` answers) is consulted only for
      a page without an icon link. */
  method CheckPage(doc: Document, baseUrl: string, join: (string, string) -> string, head: string -> Reply)
    returns (errors: seq<Issue>)
    ensures errors == PageIssues(doc, FaviconFileExists(head(FaviconUrl(baseUrl))))
  {
    errors := [];
    var favicon := CheckFavicon(doc, baseUrl, join);
    if !favicon.hasFavicon {
      var fileExists := CheckFaviconFile(baseUrl, head);
      if !fileExists {
        errors := errors + [Issue(FaviconMissing, Warning)];
      }
    }
    ghost var e1 := errors;
    assert e1 == AddFavicon([], doc.hasIconLink, FaviconFileExists(head(FaviconUrl(baseUrl))));
    var meta := CheckMetaTags(doc);
    if !Truthy(meta.title) {
      errors := errors + [Issue(TitleMissing, Error)];
    } else if meta.titleLength < 30 {
      errors := errors + [Issue(TitleTooShort(meta.titleLength), Warning)];
    } else if meta.titleLength > 60 {
      errors := errors + [Issue(TitleTooLong(meta.titleLength), Warning)];
    }
    assert errors == AddTitle(e1, meta);
    ghost var e2 := errors;
    if !Truthy(meta.description) {
      errors := errors + [Issue(DescriptionMissing, Warning)];
    } else if meta.descriptionLength < 50 {
      errors := errors + [Issue(DescriptionTooShort(meta.descriptionLength), Info)];
    } else if meta.descriptionLength > 160 {
      errors := errors + [Issue(DescriptionTooLong(meta.descriptionLength), Info)];
    }
    assert errors == AddDescription(e2, meta);
    if !meta.hasViewport {
      errors := errors + [Issue(ViewportMissing, Warning)];
    }
    if !meta.hasCharset {
      errors := errors + [Issue(CharsetMissing, Warning)];
    }
  }

  // ---------------------------------------------------------------------
  // robots.txt

  /** `check_robots_txt`'s dictionary: found (status 200) with its flags and
      its first 500 characters, or absent with the status or the exception text. */
  datatype RobotsReport =
    | RobotsFound(url: string, blocked: bool, hasSitemap: bool, content: string)
    | RobotsAbsent(url: string, status: Option<int>, error: Option<string>)

  /** The blocked test as written: both substrings anywhere in the file, so
      `Disallow: /admin` counts as `Disallow: /`. */
  predicate BlockedAsWritten(content: string)
  {
    Contains(content, "User-agent: *") && Contains(content, "Disallow: /")
  }

  /** The index of the first newline at or after `from`, or `|s|`. */
  function LineEnd(s: string, from: nat): (e: nat)
    requires from <= |s|
    ensures from <= e <= |s| && (e < |s| ==> s[e] == '\n')
    ensures forall t :: from <= t < e ==> s[t] != '\n'
    decreases |s| - from
  {
    if from == |s| || s[from] == '\n' then from else LineEnd(s, from + 1)
  }

  /** `s[from..].split('\n')`. */
  function LinesFrom(s: string, from: nat): (r: seq<string>)
    requires from <= |s|
    ensures |r| >= 1
    decreases |s| - from
  {
    var e := LineEnd(s, from);
    if e == |s| then [s[from..]] else [s[from..e]] + LinesFrom(s, e + 1)
  }

  /** `content.split('\n')`. */
  function Lines(s: string): (r: seq<string>)
    ensures |r| >= 1
  {
    LinesFrom(s, 0)
  }

  /** Some line of the file, stripped, is exactly `line`. */
  predicate HasLine(content: string, line: string)
  {
    exists k | 0 <= k < |Lines(content)| :: Strip(Lines(content)[k]) == line
  }

  /** The blocked test as meant: a `User-agent: *` line and a line that
      disallows the whole site, `Disallow: /` and nothing after it. */
  predicate Blocked(content: string)
  {
    HasLine(content, "User-agent: *") && HasLine(content, "Disallow: /")
  }

  /** `check_robots_txt`: the file fetched, its flags and its first 500
      characters on status 200, the status or the exception text otherwise. */
  function CheckRobotsTxt(baseUrl: string, get: string -> Reply): (r: RobotsReport)
    ensures r.url == RobotsUrl(baseUrl)
    ensures r.RobotsFound? <==> get(RobotsUrl(baseUrl)).Answered? && get(RobotsUrl(baseUrl)).status == 200
    ensures r.RobotsFound? ==> r.blocked == BlockedAsWritten(get(RobotsUrl(baseUrl)).text)
    ensures r.RobotsFound? ==> |r.content| <= 500 && r.content == Slice(get(RobotsUrl(baseUrl)).text, 0, 500)
    ensures r.RobotsAbsent? ==> (r.status.Some? <==> get(RobotsUrl(baseUrl)).Answered?)
  {
    var url := RobotsUrl(baseUrl);
    match get(url)
    case Answered(status, text) =>
      if status == 200 then RobotsFound(url, BlockedAsWritten(text), Contains(text, "Sitemap:"), Slice(text, 0, 500))
      else RobotsAbsent(url, Some(status), None)
    case Failed(_, message) => RobotsAbsent(url, None, Some(message))
  }

  /** `check_robots_accessibility` on a report. */
  function RobotsIssue(report: RobotsReport): (r: Option<Issue>)
    ensures r.None? <==> report.RobotsFound? && !report.blocked
    ensures r.Some? ==> r.value.severity == (if report.RobotsAbsent? then Info else Critical)
  {
    if !report.RobotsFound? then
      Some(Issue(RobotsMissing, Info))
    else if report.blocked then
      Some(Issue(RobotsBlocking, Critical))
    else None
  }

  /** `check_robots_accessibility(base_url)`: nothing to report only when the
      file is there and does not look blocking; blocking is critical. */
  function CheckRobotsAccessibility(baseUrl: string, get: string -> Reply): (r: Option<Issue>)
    ensures r.None? <==> get(RobotsUrl(baseUrl)).Answered? && get(RobotsUrl(baseUrl)).status == 200
                         && !BlockedAsWritten(get(RobotsUrl(baseUrl)).text)
    ensures r == Some(Issue(RobotsBlocking, Critical)) <==>
              get(RobotsUrl(baseUrl)).Answered? && get(RobotsUrl(baseUrl)).status == 200
              && BlockedAsWritten(get(RobotsUrl(baseUrl)).text)
  {
    RobotsIssue(CheckRobotsTxt(baseUrl, get))
  }

  // ---------------------------------------------------------------------
  // The blocked test as written over-matches

  /** Each line of `s` read from `from` on is a slice `s[i..j]`. */
  lemma {:induction false} LineSpan(s: string, from: nat, k: nat) returns (i: nat, j: nat)
    requires from <= |s| && k < |LinesFrom(s, from)|
    ensures i <= j <= |s| && LinesFrom(s, from)[k] == s[i..j]
    decreases |s| - from
  {
    var e := LineEnd(s, from);
    if e == |s| || k == 0 {
      i, j := from, e;
    } else {
      i, j := LineSpan(s, e + 1, k - 1);
    }
  }

  /** A slice of a slice of `s` occurs in `s`. */
  lemma SliceOfSliceOccurs(s: string, i: nat, j: nat, a: nat, b: nat)
    requires i <= j <= |s| && a <= b <= j - i
    ensures OccursAt(s, s[i..j][a..b], i + a)
  {
    var x, y := s[i..j][a..b], s[i + a..i + b];
    forall t | 0 <= t < |x| ensures x[t] == y[t] {
      assert x[t] == s[i..j][a + t];
    }
    assert x == y;
  }

  /** A line of the file, stripped, occurs in the file. */
  lemma HasLineContains(content: string, line: string)
    requires HasLine(content, line)
    ensures Contains(content, line)
  {
    var lines := Lines(content);
    var k :| 0 <= k < |lines| && Strip(lines[k]) == line;
    var i, j := LineSpan(content, 0, k);
    var a, b := StripSlice(lines[k]);
    SliceOfSliceOccurs(content, i, j, a, b);
    assert content[i..j][a..b] == line;
    assert 0 <= i + a <= |content| && OccursAt(content, line, i + a);
  }

  /** The corrected test only narrows the one as written. */
  lemma BlockedNarrowsAsWritten(content: string)
    requires Blocked(content)
    ensures BlockedAsWritten(content)
  {
    HasLineContains(content, "User-agent: *");
    HasLineContains(content, "Disallow: /");
  }

  /** A file that really closes the site to every robot is always reported
      as blocking. */
  lemma TrulyBlockingIsReported(baseUrl: string, get: string -> Reply)
    requires get(RobotsUrl(baseUrl)).Answered? && get(RobotsUrl(baseUrl)).status == 200
    requires Blocked(get(RobotsUrl(baseUrl)).text)
    ensures CheckRobotsAccessibility(baseUrl, get) == Some(Issue(RobotsBlocking, Critical))
  {
    BlockedNarrowsAsWritten(get(RobotsUrl(baseUrl)).text);
  }

  /** Two lines joined by a newline split back into those two lines. */
  lemma LinesOfTwo(a: string, b: string)
    requires '\n' !in a && '\n' !in b
    ensures Lines(a + "\n" + b) == [a, b]
  {
    var s := a + "\n" + b;
    assert s[|a|] == '\n';
    assert forall t :: 0 <= t < |a| ==> s[t] == a[t];
    assert LineEnd(s, 0) == |a|;
    assert forall t :: |a| + 1 <= t < |s| ==> s[t] == b[t - |a| - 1];
    assert LineEnd(s, |a| + 1) == |s|;
    assert LinesFrom(s, |a| + 1) == [b] by { assert s[|a| + 1..] == b; }
    assert s[0..|a|] == a;
  }

  /** A two-line file has no stripped line other than its two lines' own. */
  lemma NoOtherLine(a: string, b: string, line: string)
    requires '\n' !in a && '\n' !in b && Strip(a) != line && Strip(b) != line
    ensures !HasLine(a + "\n" + b, line)
  {
    LinesOfTwo(a, b);
    var lines := Lines(a + "\n" + b);
    forall k | 0 <= k < |lines| ensures Strip(lines[k]) != line {
      assert k == 0 || k == 1;
    }
  }

  /** Printable ASCII other than the space is not white space. */
  lemma PrintableNotSpace(c: char)
    requires '!' <= c <= '~'
    ensures !IsSpace(c)
  {
  }

  /** Both halves of a file joined by a newline occur in it, and so does a
      prefix of the second half. */
  lemma HalvesOccur(a: string, d: string, path: string)
    ensures var content := a + "\n" + (d + path);
            OccursAt(content, a, 0) && OccursAt(content, d, |a| + 1)
  {
    var b := d + path;
    var content := a + "\n" + b;
    assert content[..|a|] == a;
    assert content[|a| + 1..] == b;
    assert b[..|d|] == d;
  }

  /** A `User-agent` line followed by a `Disallow` line whose path extends
      `d`: both texts occur in the file, but no line of it is `d`. */
  lemma ExtendedDisallow(a: string, d: string, path: string)
    requires a != [] && d != [] && path != []
    requires '\n' !in a && '\n' !in d && '\n' !in path
    requires !IsSpace(a[0]) && !IsSpace(a[|a| - 1]) && !IsSpace(d[0]) && !IsSpace(path[|path| - 1])
    requires |a| != |d|
    ensures var content := a + "\n" + (d + path);
            Contains(content, a) && Contains(content, d) && !HasLine(content, d)
  {
    HalvesOccur(a, d, path);
    var b := d + path;
    assert '\n' !in b by {
      forall t | 0 <= t < |b| ensures b[t] != '\n' {
        if t < |d| { assert b[t] == d[t]; } else { assert b[t] == path[t - |d|]; }
      }
    }
    assert b[0] == d[0] && b[|b| - 1] == path[|path| - 1];
    StripTrimmed(a);
    StripTrimmed(b);
    NoOtherLine(a, b, d);
  }

  /** A file that keeps all robots out of some sub-path only, such as
      `Disallow: /admin`, is reported as closing the whole site to them. */
  lemma BlockedOverMatches(path: string)
    requires path != [] && '\n' !in path && '!' <= path[|path| - 1] <= '~'
    ensures var content := "User-agent: *" + "\n" + ("Disallow: /" + path);
            BlockedAsWritten(content) && !Blocked(content)
  {
    var a, d := "User-agent: *", "Disallow: /";
    assert |a| == 13 && |d| == 11;
    PrintableNotSpace(a[0]);
    PrintableNotSpace(a[|a| - 1]);
    PrintableNotSpace(d[0]);
    PrintableNotSpace(path[|path| - 1]);
    ExtendedDisallow(a, d, path);
  }
}
