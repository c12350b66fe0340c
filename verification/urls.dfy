/** URL splitting as Python's `urllib.parse.urlsplit` / `urlparse` do it, and
    the crawler's pure URL helpers built on them: `normalize_url`,
    `is_same_domain` and `is_valid_url` (backend/app/services/crawler.py). */
module Urls {
  import opened Text

  /** The five fields of `urlsplit`. */
  datatype SplitUrl = SplitUrl(scheme: string, netloc: string, path: string, query: string, fragment: string)

  /** The six fields of `urlparse`: `urlsplit` plus `;params` cut off the last path segment. */
  datatype ParsedUrl = ParsedUrl(scheme: string, netloc: string, path: string, params: string,
                                 query: string, fragment: string)

  predicate IsSchemeChar(c: char)
  {
    IsAsciiAlpha(c) || IsAsciiDigit(c) || c == '+' || c == '-' || c == '.'
  }

  function AsciiLower(s: string): (r: string)
    ensures |r| == |s|
    ensures forall i :: 0 <= i < |s| ==> r[i] == (if 'A' <= s[i] <= 'Z' then (s[i] as int + 32) as char else s[i])
  {
    if s == [] then [] else [if 'A' <= s[0] <= 'Z' then (s[0] as int + 32) as char else s[0]] + AsciiLower(s[1..])
  }

  /** The index of the first `c` in `s`, or `|s|` when there is none. */
  function IndexOf(s: string, c: char): (k: nat)
    ensures k <= |s|
    ensures k < |s| ==> s[k] == c
    ensures forall j :: 0 <= j < k ==> s[j] != c
  {
    if s == [] then 0 else if s[0] == c then 0 else 1 + IndexOf(s[1..], c)
  }

  /** The index of the first character of `s` that is in `cs`, or `|s|`. */
  function IndexOfAny(s: string, cs: set<char>): (k: nat)
    ensures k <= |s|
    ensures k < |s| ==> s[k] in cs
    ensures forall j :: 0 <= j < k ==> s[j] !in cs
  {
    if s == [] then 0 else if s[0] in cs then 0 else 1 + IndexOfAny(s[1..], cs)
  }

  /** The index of the last `c` in `s`, or `|s|` when there is none. */
  function LastIndexOf(s: string, c: char): (k: nat)
    ensures k <= |s|
    ensures k < |s| ==> s[k] == c && forall j :: k < j < |s| ==> s[j] != c
    ensures k == |s| ==> c !in s
  {
    if s == [] then 0
    else if s[|s| - 1] == c then |s| - 1
    else var k := LastIndexOf(s[..|s| - 1], c); if k == |s| - 1 then |s| else k
  }

  /** `url[:i]` is a scheme when `i = url.find(':') > 0`, `url[0]` is an
      ASCII letter and every character before `i` is a scheme character. */
  predicate HasScheme(url: string)
  {
    var i := IndexOf(url, ':');
    0 < i < |url| && IsAsciiAlpha(url[0]) && forall k :: 0 <= k < i ==> IsSchemeChar(url[k])
  }

  /** `url[:i].lower()` and `url[i+1:]` when `url[:i]` is a scheme, else `""` and `url`. */
  function SplitScheme(url: string): (r: (string, string))
  {
    var i := IndexOf(url, ':');
    if HasScheme(url) then (AsciiLower(url[..i]), url[i + 1..]) else ("", url)
  }

  /** `_splitnetloc(rest, 2)` when `rest` starts with `//`: the netloc runs to
      the first `/`, `?` or `#`. */
  function SplitNetloc(rest: string): (r: (string, string))
    ensures '?' !in r.0 && '#' !in r.0 && '/' !in r.0
    ensures r.0 + r.1 == if |rest| >= 2 && rest[..2] == "//" then rest[2..] else rest
    ensures !(|rest| >= 2 && rest[..2] == "//") ==> r.0 == []
  {
    if |rest| >= 2 && rest[..2] == "//" then
      var d := 2 + IndexOfAny(rest[2..], {'/', '?', '#'});
      assert forall k :: 0 <= k < d - 2 ==> rest[2..d][k] == rest[2..][k];
      assert rest[2..d] + rest[d..] == rest[2..];
      (rest[2..d], rest[d..])
    else ("", rest)
  }

  /** `s.split(c, 1)` when `c in s`, else `(s, "")`. */
  function SplitAt(s: string, c: char): (r: (string, string))
    ensures c !in r.0
    ensures c !in s ==> r == (s, "")
    ensures |r.0| <= |s| && r.0 == s[..|r.0|]
  {
    var k := IndexOf(s, c);
    if k < |s| then (s[..k], s[k + 1..])
    else assert s[..k] == s; (s, "")
  }

  /** `urlsplit(url)` with `allow_fragments=True`: scheme (lower-cased), then a
      `//netloc` running to the first `/`, `?` or `#`, then `#fragment`, then `?query`. */
  function UrlSplit(url: string): (u: SplitUrl)
    ensures '?' !in u.netloc && '#' !in u.netloc && '/' !in u.netloc
    ensures '?' !in u.path
  {
    var (scheme, rest) := SplitScheme(url);
    var (netloc, afterNetloc) := SplitNetloc(rest);
    var (beforeFragment, fragment) := SplitAt(afterNetloc, '#');
    var (path, query) := SplitAt(beforeFragment, '?');
    SplitUrl(scheme, netloc, path, query, fragment)
  }

  lemma PathHasNoFragment(url: string)
    ensures '#' !in UrlSplit(url).path
  {
    var (scheme, rest) := SplitScheme(url);
    var (netloc, afterNetloc) := SplitNetloc(rest);
    var (beforeFragment, fragment) := SplitAt(afterNetloc, '#');
    var path := SplitAt(beforeFragment, '?').0;
    NoCharInSlice(beforeFragment, '#', 0, |path|);
  }

  /** Schemes for which `urlparse` splits off `;params` (`urllib.parse.uses_params`). */
  const UsesParams: set<string> := {"", "ftp", "hdl", "prospero", "http", "imap", "https", "shttp",
                                    "rtsp", "rtsps", "rtspu", "sip", "sips", "mms", "sftp", "tel"}

  /** `_splitparams`: the `;` searched for is the first one after the last `/`
      (or the first one at all when the path has no `/`). */
  function SplitParams(path: string): (r: (string, string))
    requires ';' in path
    ensures |r.0| <= |path| && r.0 == path[..|r.0|]
  {
    var slash := LastIndexOf(path, '/');
    if slash < |path| then
      var i := slash + IndexOf(path[slash..], ';');
      if i < |path| then (path[..i], path[i + 1..]) else (path, "")
    else
      var i := IndexOf(path, ';');
      (path[..i], path[i + 1..])
  }

  /** `urlparse(url)`: `urlsplit`'s parts, with the path's last segment cut
      at its first `;` for a scheme that uses params. */
  function UrlParse(url: string): (p: ParsedUrl)
    ensures var s := UrlSplit(url);
            p.scheme == s.scheme && p.netloc == s.netloc && p.query == s.query && p.fragment == s.fragment
    ensures |p.path| <= |UrlSplit(url).path| && p.path == UrlSplit(url).path[..|p.path|]
    ensures ';' !in UrlSplit(url).path ==> p.path == UrlSplit(url).path && p.params == []
  {
    var s := UrlSplit(url);
    if s.scheme in UsesParams && ';' in s.path then
      var (path, params) := SplitParams(s.path);
      ParsedUrl(s.scheme, s.netloc, path, params, s.query, s.fragment)
    else
      ParsedUrl(s.scheme, s.netloc, s.path, "", s.query, s.fragment)
  }

  /** `f"{scheme}://{rest}".rstrip('/')`, the string both normalisations build. */
  function KeyOf(scheme: string, rest: string): (r: string)
    ensures r == [] || r[|r| - 1] != '/'
  {
    RStripChar(scheme + "://" + rest, '/')
  }

  /** `normalize_url` as written: `f"{scheme}://{netloc}{path}".rstrip('/')`
      over `urlparse`, whose `path` has lost any `;params`. */
  function NormalizeUrl(url: string): (r: string)
    ensures r == [] || r[|r| - 1] != '/'
    ensures '?' !in r && '#' !in r
  {
    var p := UrlParse(url);
    var s := UrlSplit(url);
    SplitPartsExclude(url);
    NoCharInSlice(s.path, '?', 0, |p.path|);
    NoCharInSlice(s.path, '#', 0, |p.path|);
    NoCharInKey(p.scheme, p.netloc, p.path, '?');
    NoCharInKey(p.scheme, p.netloc, p.path, '#');
    KeyOf(p.scheme, p.netloc + p.path)
  }

  /** The dedup key the crawler is meant to use: `normalize_url` over
      `urlsplit`, so a `;params` segment stays part of the path. */
  function NormalizeKey(url: string): (r: string)
    ensures r == [] || r[|r| - 1] != '/'
    ensures '?' !in r && '#' !in r
  {
    var s := UrlSplit(url);
    SplitPartsExclude(url);
    NoCharInKey(s.scheme, s.netloc, s.path, '?');
    NoCharInKey(s.scheme, s.netloc, s.path, '#');
    KeyOf(s.scheme, s.netloc + s.path)
  }

  /** Neither `?` nor `#` is in the scheme, netloc or path `urlsplit` returns. */
  lemma SplitPartsExclude(url: string)
    ensures var s := UrlSplit(url);
            '?' !in s.scheme && '#' !in s.scheme && '#' !in s.path
  {
    SchemeExcludes(url, '?');
    SchemeExcludes(url, '#');
    PathHasNoFragment(url);
  }

  /** `is_same_domain`: the URL's netloc equals the crawl's domain. */
  predicate IsSameDomain(domain: string, url: string)
  {
    UrlParse(url).netloc == domain
  }

  /** The 18 extensions `is_valid_url` refuses (crawler.py, lines 39-41). */
  const SkipExtensions: seq<string> := [".pdf", ".jpg", ".jpeg", ".png", ".gif", ".svg",
                                        ".zip", ".tar", ".gz", ".doc", ".docx", ".xls",
                                        ".xlsx", ".ppt", ".pptx", ".mp3", ".mp4", ".avi"]

  /** `is_valid_url`: scheme http or https, and a lower-cased path that ends in
      none of the skipped extensions. */
  predicate IsValidUrl(url: string)
  {
    var p := UrlParse(url);
    && (p.scheme == "http" || p.scheme == "https")
    && !(exists k | 0 <= k < |SkipExtensions| :: EndsWith(LowerStr(p.path), SkipExtensions[k]))
  }

  // ---------------------------------------------------------------------
  // Proofs about splitting and normalisation

  /** A scheme as `urlsplit` returns it: non-empty, starts with a letter,
      only scheme characters, already lower case. */
  predicate IsLowerScheme(sc: string)
  {
    && sc != []
    && 'a' <= sc[0] <= 'z'
    && forall k :: 0 <= k < |sc| ==> IsSchemeChar(sc[k]) && !('A' <= sc[k] <= 'Z')
  }

  /** The scheme `urlsplit` returns is empty or a lower-case scheme. */
  lemma SplitSchemeIsLower(url: string)
    ensures SplitScheme(url).0 == [] || IsLowerScheme(SplitScheme(url).0)
  {
    if HasScheme(url) {
      var i := IndexOf(url, ':');
      var sc := AsciiLower(url[..i]);
      assert sc == SplitScheme(url).0;
      forall k | 0 <= k < |sc| ensures IsSchemeChar(sc[k]) && !('A' <= sc[k] <= 'Z') {
        assert IsSchemeChar(url[k]);
      }
    }
  }

  lemma SchemeIsLower(url: string)
    ensures UrlSplit(url).scheme == [] || IsLowerScheme(UrlSplit(url).scheme)
  {
    SplitSchemeIsLower(url);
  }

  /** No character outside the scheme alphabet is in the split scheme. */
  lemma SchemeExcludes(url: string, c: char)
    requires !IsSchemeChar(c)
    ensures c !in UrlSplit(url).scheme
  {
    SchemeIsLower(url);
  }

  lemma NoCharInSlice(s: string, c: char, i: nat, j: nat)
    requires i <= j <= |s| && c !in s
    ensures c !in s[i..j]
  {
    assert forall k :: 0 <= k < j - i ==> s[i..j][k] == s[i + k];
  }

  /** A character other than `:` and `/` that is in none of the parts is not
      in `scheme://netloc+path`, nor in its `rstrip`. */
  lemma NoCharInKey(sc: string, netloc: string, path: string, c: char)
    requires c !in sc && c !in netloc && c !in path && c != ':' && c != '/'
    ensures c !in KeyOf(sc, netloc + path)
  {
    var full := sc + "://" + (netloc + path);
    assert c !in "://";
    assert c !in netloc + path;
    NoCharInSlice(full, c, 0, |KeyOf(sc, netloc + path)|);
  }

  lemma IndexOfPrefix(a: string, b: string, c: char)
    requires c !in a
    ensures IndexOf(a + [c] + b, c) == |a|
  {
    var s := a + [c] + b;
    assert s[|a|] == c;
    assert forall j :: 0 <= j < |a| ==> s[j] == a[j];
  }

  /** Splitting off the scheme of `sc + ":" + r` for a lower-case scheme `sc`. */
  lemma SplitSchemePrefix(sc: string, r: string)
    requires IsLowerScheme(sc)
    ensures SplitScheme(sc + ":" + r) == (sc, r)
  {
    var url := sc + ":" + r;
    assert ':' !in sc by {
      assert forall k :: 0 <= k < |sc| ==> sc[k] != ':' by {
        forall k | 0 <= k < |sc| ensures sc[k] != ':' { assert IsSchemeChar(sc[k]); }
      }
    }
    IndexOfPrefix(sc, r, ':');
    var i := IndexOf(url, ':');
    assert url[..i] == sc;
    assert forall k :: 0 <= k < i ==> url[k] == sc[k];
    assert HasScheme(url);
    assert AsciiLower(sc) == sc;
    assert url[i + 1..] == r;
  }

  /** Splitting `sc + ":" + r` for a lower-case scheme `sc` and an `r` with no
      query or fragment gives back `sc`, and netloc and path together are `r`
      without its leading `//`. */
  lemma SplitSchemed(sc: string, r: string)
    requires IsLowerScheme(sc)
    requires '?' !in r && '#' !in r
    ensures var u := UrlSplit(sc + ":" + r);
            && u.scheme == sc
            && u.netloc + u.path == (if |r| >= 2 && r[..2] == "//" then r[2..] else r)
  {
    SplitSchemePrefix(sc, r);
    var (netloc, afterNetloc) := SplitNetloc(r);
    if |r| >= 2 && r[..2] == "//" {
      NoCharInSlice(r, '#', 2, |r|);
      NoCharInSlice(r, '?', 2, |r|);
      assert netloc + afterNetloc == r[2..];
      NoCharInSlice(r[2..], '#', |netloc|, |r[2..]|);
      NoCharInSlice(r[2..], '?', |netloc|, |r[2..]|);
      assert afterNetloc == r[2..][|netloc|..];
    } else {
      assert afterNetloc == r;
    }
  }

  /** `rstrip` of a concatenation: the right part is stripped first, and only
      when it is all slashes does stripping reach into the left part. */
  lemma {:induction false} RStripConcat(a: string, b: string, c: char)
    ensures RStripChar(a + b, c) == if RStripChar(b, c) == [] then RStripChar(a, c) else a + RStripChar(b, c)
    decreases |b|
  {
    if b == [] {
      assert a + b == a;
    } else if b[|b| - 1] != c {
    } else {
      assert (a + b)[..|a + b| - 1] == a + b[..|b| - 1];
      RStripConcat(a, b[..|b| - 1], c);
    }
  }

  /** `(sc + "://").rstrip('/')` is `sc + ":"`. */
  lemma RStripSchemeSeparator(sc: string)
    ensures RStripChar(sc + "://", '/') == sc + ":"
  {
    var a := sc + "://";
    assert a[|a| - 1] == '/' && a[..|a| - 1] == sc + ":/";
    var b := sc + ":/";
    assert b[|b| - 1] == '/' && b[..|b| - 1] == sc + ":";
    var c := sc + ":";
    assert c[|c| - 1] == ':';
  }

  /** The shape of a key: `scheme:` when the rest strips to nothing, else
      `scheme://` followed by the stripped rest. */
  lemma KeyShape(sc: string, x: string)
    ensures KeyOf(sc, x) == if RStripChar(x, '/') == [] then sc + ":" else sc + "://" + RStripChar(x, '/')
  {
    assert sc + "://" + x == (sc + "://") + x;
    RStripConcat(sc + "://", x, '/');
    RStripSchemeSeparator(sc);
  }

  /** A string with no trailing `/` is its own `rstrip('/')`. */
  lemma RStripNoSlash(y: string)
    requires y != [] && y[|y| - 1] != '/'
    ensures RStripChar(y, '/') == y
  {
  }

  /** The key of a URL with a scheme, re-split: its netloc and path join back to
      the stripped rest. */
  lemma KeyOfKey(sc: string, y: string)
    requires IsLowerScheme(sc)
    requires '?' !in y && '#' !in y
    ensures y == [] ==> NormalizeKey(sc + ":") == sc + ":"
    ensures y != [] && y[|y| - 1] != '/' ==> NormalizeKey(sc + "://" + y) == sc + "://" + y
  {
    if y == [] {
      assert sc + ":" == sc + ":" + "";
      SplitSchemed(sc, "");
      var u := UrlSplit(sc + ":");
      KeyShape(sc, u.netloc + u.path);
    } else if y[|y| - 1] != '/' {
      assert sc + "://" + y == sc + ":" + ("//" + y);
      assert ("//" + y)[..2] == "//" && ("//" + y)[2..] == y;
      SplitSchemed(sc, "//" + y);
      var u := UrlSplit(sc + "://" + y);
      KeyShape(sc, y);
      RStripNoSlash(y);
    }
  }

  /** The normalised key is idempotent for every URL that has a scheme, as every
      URL the crawler sees does (the base URL and http(s) links). */
  lemma NormalizeKeyIdempotent(url: string)
    requires UrlSplit(url).scheme != []
    ensures NormalizeKey(NormalizeKey(url)) == NormalizeKey(url)
  {
    var s := UrlSplit(url);
    SchemeIsLower(url);
    PathHasNoFragment(url);
    var x := s.netloc + s.path;
    var y := RStripChar(x, '/');
    KeyShape(s.scheme, x);
    assert '?' !in x && '#' !in x;
    NoCharInSlice(x, '?', 0, |y|);
    NoCharInSlice(x, '#', 0, |y|);
    KeyOfKey(s.scheme, y);
  }

  /** A character absent from the URL is absent from its netloc and path. */
  lemma SplitKeepsCharsOut(url: string, c: char)
    requires c !in url
    ensures c !in UrlSplit(url).netloc && c !in UrlSplit(url).path
  {
    var i := IndexOf(url, ':');
    var (scheme, rest) := SplitScheme(url);
    if HasScheme(url) { NoCharInSlice(url, c, i + 1, |url|); } else { assert rest == url; }
    var (netloc, afterNetloc) := SplitNetloc(rest);
    if |rest| >= 2 && rest[..2] == "//" {
      NoCharInSlice(rest, c, 2, |rest|);
      NoCharInSlice(rest[2..], c, 0, |netloc|);
      NoCharInSlice(rest[2..], c, |netloc|, |rest[2..]|);
      assert netloc == rest[2..][..|netloc|];
      assert afterNetloc == rest[2..][|netloc|..];
    }
    var (beforeFragment, fragment) := SplitAt(afterNetloc, '#');
    NoCharInSlice(afterNetloc, c, 0, |beforeFragment|);
    var path := SplitAt(beforeFragment, '?').0;
    NoCharInSlice(beforeFragment, c, 0, |path|);
  }

  /** Without a `;` the as-written normalisation and the key agree. */
  lemma NormalizeUrlIsKeyWithoutSemicolon(url: string)
    requires ';' !in url
    ensures NormalizeUrl(url) == NormalizeKey(url)
  {
    SplitKeepsCharsOut(url, ';');
  }

  /** A URL with a scheme and no `;` normalises idempotently, as written. */
  lemma NormalizeUrlIdempotent(url: string)
    requires UrlSplit(url).scheme != [] && ';' !in url
    ensures NormalizeUrl(NormalizeUrl(url)) == NormalizeUrl(url)
  {
    NormalizeUrlIsKeyWithoutSemicolon(url);
    var s := UrlSplit(url);
    SchemeExcludes(url, ';');
    SplitKeepsCharsOut(url, ';');
    NoCharInKey(s.scheme, s.netloc, s.path, ';');
    NormalizeUrlIsKeyWithoutSemicolon(NormalizeKey(url));
    NormalizeKeyIdempotent(url);
  }

  /** `urlsplit` of `sc://netloc/path` with a lower-case scheme, a netloc
      free of `/?#` and a path that starts with `/` and has no `?` or `#`. */
  lemma SplitAuthority(sc: string, netloc: string, path: string)
    requires IsLowerScheme(sc)
    requires '/' !in netloc && '?' !in netloc && '#' !in netloc
    requires path != [] && path[0] == '/' && '?' !in path && '#' !in path
    ensures UrlSplit(sc + "://" + netloc + path) == SplitUrl(sc, netloc, path, "", "")
  {
    var r := "//" + netloc + path;
    assert sc + "://" + netloc + path == sc + ":" + r;
    SplitSchemePrefix(sc, r);
    assert r[..2] == "//" && r[2..] == netloc + path;
    var d := IndexOfAny(netloc + path, {'/', '?', '#'});
    assert (netloc + path)[|netloc|] == '/';
    assert forall k :: 0 <= k < |netloc| ==> (netloc + path)[k] == netloc[k];
    assert d == |netloc|;
    assert SplitNetloc(r) == (netloc, path);
  }

  lemma LastIndexOfEnd(p: string, c: char)
    ensures LastIndexOf(p + [c], c) == |p|
  {
    assert (p + [c])[|p|] == c;
  }

  lemma LastIndexOfOnly(q: string, c: char)
    requires c !in q
    ensures LastIndexOf([c] + q, c) == 0
  {
    var s := [c] + q;
    assert s[0] == c;
    assert forall j :: 1 <= j < |s| ==> s[j] == q[j - 1];
  }

  /** `urlparse` of `sc://n` + `path` when the scheme takes params: the
      fields of `urlsplit` with `_splitparams` applied to the path. */
  lemma ParseAuthority(sc: string, n: string, path: string)
    requires IsLowerScheme(sc) && sc in UsesParams
    requires '/' !in n && '?' !in n && '#' !in n
    requires path != [] && path[0] == '/' && '?' !in path && '#' !in path && ';' in path
    ensures UrlParse(sc + "://" + n + path) == ParsedUrl(sc, n, SplitParams(path).0, SplitParams(path).1, "", "")
  {
    var url := sc + "://" + n + path;
    SplitAuthority(sc, n, path);
    var u := UrlSplit(url);
    assert u.scheme == sc && u.path == path;
    var (p, params) := SplitParams(path);
    assert UrlParse(url) == ParsedUrl(u.scheme, u.netloc, p, params, u.query, u.fragment);
  }

  /** `_splitparams("/a;b/")`: the last segment is empty, so nothing is cut. */
  lemma SplitParamsTrailing(a: string, b: string)
    requires '/' !in b
    ensures var path := "/" + a + ";" + b + "/";
            ';' in path && SplitParams(path) == (path, "")
  {
    var path := "/" + a + ";" + b + "/";
    assert path[1 + |a|] == ';';
    LastIndexOfEnd("/" + a + ";" + b, '/');
    assert path[|path| - 1..] == "/";
  }

  lemma LastSlashIsFirst(a: string, b: string)
    requires '/' !in a && '/' !in b
    ensures LastIndexOf("/" + a + ";" + b, '/') == 0
  {
    var rest := a + ";" + b;
    assert "/" + a + ";" + b == ['/'] + rest;
    assert '/' !in rest;
    LastIndexOfOnly(rest, '/');
  }

  lemma FirstSemicolon(a: string, b: string)
    requires ';' !in a
    ensures IndexOf("/" + a + ";" + b, ';') == 1 + |a|
  {
    assert ';' !in "/" + a;
    assert "/" + a + ";" + b == ("/" + a) + [';'] + b;
    IndexOfPrefix("/" + a, b, ';');
  }

  /** `_splitparams("/a;b")` with no `/` or `;` in `a` and no `/` in `b` cuts off `b`. */
  lemma SplitParamsSegment(a: string, b: string)
    requires '/' !in a && ';' !in a && '/' !in b
    ensures var path := "/" + a + ";" + b;
            ';' in path && SplitParams(path) == ("/" + a, b)
  {
    var path := "/" + a + ";" + b;
    assert path[1 + |a|] == ';';
    LastSlashIsFirst(a, b);
    FirstSemicolon(a, b);
    assert path[0..] == path;
    var i := 0 + IndexOf(path[0..], ';');
    assert i == 1 + |a| < |path|;
    assert path[..i] == "/" + a && path[i + 1..] == b;
  }

  /** `normalize_url` of `sc://n` + `path` when the scheme takes params. */
  lemma NormalizeAuthority(sc: string, n: string, path: string)
    requires IsLowerScheme(sc) && sc in UsesParams
    requires '/' !in n && '?' !in n && '#' !in n
    requires path != [] && path[0] == '/' && '?' !in path && '#' !in path && ';' in path
    ensures NormalizeUrl(sc + "://" + n + path) == KeyOf(sc, n + SplitParams(path).0)
  {
    ParseAuthority(sc, n, path);
  }

  /** `y + "/"` strips back to `y` when `y` does not end in `/`. */
  lemma RStripOneSlash(y: string)
    requires y != [] && y[|y| - 1] != '/'
    ensures RStripChar(y + "/", '/') == y
  {
    var x := y + "/";
    assert x[|x| - 1] == '/' && x[..|x| - 1] == y;
  }

  /** `sc://n/a;b/` normalises to `sc://n/a;b`. */
  lemma NormalizeTrailingParams(sc: string, n: string, a: string, b: string)
    requires IsLowerScheme(sc) && sc in UsesParams
    requires '/' !in n && '?' !in n && '#' !in n
    requires '/' !in a && '?' !in a && '#' !in a && '/' !in b && '?' !in b && '#' !in b
    ensures NormalizeUrl(sc + "://" + n + ("/" + a + ";" + b + "/")) == sc + "://" + (n + ("/" + a + ";" + b))
  {
    var y := n + ("/" + a + ";" + b);
    var path := "/" + a + ";" + b + "/";
    assert '?' !in path && '#' !in path;
    assert n + path == y + "/";
    if b == [] {
      assert y[|y| - 1] == ';';
    } else {
      assert y[|y| - 1] == b[|b| - 1];
    }
    RStripOneSlash(y);
    KeyShape(sc, y + "/");
    SplitParamsTrailing(a, b);
    NormalizeAuthority(sc, n, path);
  }

  /** `sc://n/a;b` normalises to `sc://n/a`: the params are dropped. */
  lemma NormalizeDropsParams(sc: string, n: string, a: string, b: string)
    requires IsLowerScheme(sc) && sc in UsesParams
    requires '/' !in n && '?' !in n && '#' !in n
    requires a != [] && '/' !in a && ';' !in a && '?' !in a && '#' !in a && '/' !in b && '?' !in b && '#' !in b
    ensures NormalizeUrl(sc + "://" + n + ("/" + a + ";" + b)) == sc + "://" + (n + ("/" + a))
  {
    var path := "/" + a + ";" + b;
    assert '?' !in path && '#' !in path;
    var z := n + ("/" + a);
    assert z[|z| - 1] == a[|a| - 1];
    RStripNoSlash(z);
    KeyShape(sc, z);
    SplitParamsSegment(a, b);
    NormalizeAuthority(sc, n, path);
  }

  /** As written, `normalize_url` is not idempotent on a URL whose last path
      segment carries `;params` followed by a trailing slash: "http://h/a;b/"
      normalises to "http://h/a;b", which normalises to "http://h/a". */
  lemma NormalizeUrlNotIdempotent(sc: string, n: string, a: string, b: string)
    requires IsLowerScheme(sc) && sc in UsesParams
    requires '/' !in n && '?' !in n && '#' !in n
    requires a != [] && '/' !in a && ';' !in a && '?' !in a && '#' !in a && '/' !in b && '?' !in b && '#' !in b
    ensures var url := sc + "://" + n + ("/" + a + ";" + b + "/");
            && NormalizeUrl(url) == sc + "://" + n + "/" + a + ";" + b
            && NormalizeUrl(NormalizeUrl(url)) == sc + "://" + n + "/" + a
            && NormalizeUrl(NormalizeUrl(url)) != NormalizeUrl(url)
  {
    var once := sc + "://" + n + "/" + a + ";" + b;
    var twice := sc + "://" + n + "/" + a;
    assert |twice| < |once|;
    assert sc + "://" + (n + ("/" + a + ";" + b)) == once;
    assert sc + "://" + n + ("/" + a + ";" + b) == once;
    assert sc + "://" + (n + ("/" + a)) == twice;
    NormalizeTrailingParams(sc, n, a, b);
    NormalizeDropsParams(sc, n, a, b);
  }

  /** The netloc of `//netloc` + `tail` ends where `tail` starts with `/`. */
  lemma SplitNetlocOf(netloc: string, tail: string)
    requires '/' !in netloc && '?' !in netloc && '#' !in netloc
    requires tail != [] && tail[0] == '/'
    ensures SplitNetloc("//" + netloc + tail) == (netloc, tail)
  {
    var r := "//" + netloc + tail;
    var rest := netloc + tail;
    assert r[..2] == "//" && r[2..] == rest;
    assert rest[|netloc|] == '/';
    assert forall k :: 0 <= k < |netloc| ==> rest[k] == netloc[k];
    assert IndexOfAny(rest, {'/', '?', '#'}) == |netloc|;
  }

  /** `(a + c + b).split(c, 1)` when `a` has no `c`. */
  lemma SplitAtFirst(a: string, b: string, c: char)
    requires c !in a
    ensures SplitAt(a + [c] + b, c) == (a, b)
  {
    var s := a + [c] + b;
    IndexOfPrefix(a, b, c);
    assert s[..|a|] == a;
    assert s[|a| + 1..] == b;
  }

  /** `urlsplit` of `sc://netloc/path#frag`: the fragment is split off
      whatever it holds. */
  lemma SplitAuthorityFragment(sc: string, netloc: string, path: string, frag: string)
    requires IsLowerScheme(sc)
    requires '/' !in netloc && '?' !in netloc && '#' !in netloc
    requires path != [] && path[0] == '/' && '?' !in path && '#' !in path
    ensures UrlSplit(sc + "://" + netloc + path + "#" + frag) == SplitUrl(sc, netloc, path, "", frag)
  {
    var tail := path + "#" + frag;
    var r := "//" + netloc + tail;
    assert sc + "://" + netloc + path + "#" + frag == sc + ":" + r;
    SplitSchemePrefix(sc, r);
    SplitNetlocOf(netloc, tail);
    assert tail == path + ['#'] + frag;
    SplitAtFirst(path, frag, '#');
  }

  /** The key of `sc`, netloc `n` and path `p`, with or without one
      trailing slash on `p`, when `p` itself does not end in `/`. */
  lemma KeyOfPath(sc: string, n: string, p: string)
    requires p != [] && p[|p| - 1] != '/'
    ensures KeyOf(sc, n + p) == sc + "://" + n + p
    ensures KeyOf(sc, n + (p + "/")) == sc + "://" + n + p
  {
    var y := n + p;
    assert y[|y| - 1] == p[|p| - 1];
    RStripNoSlash(y);
    KeyShape(sc, y);
    assert sc + "://" + y == sc + "://" + n + p;
    assert n + (p + "/") == y + "/";
    RStripOneSlash(y);
    KeyShape(sc, y + "/");
  }

  /** A fragment does not change the key: `sc://n/p#f` is `sc://n/p`. */
  lemma FragmentSharesKey(sc: string, n: string, p: string, frag: string)
    requires IsLowerScheme(sc)
    requires '/' !in n && '?' !in n && '#' !in n
    requires p != [] && p[0] == '/' && p[|p| - 1] != '/' && '?' !in p && '#' !in p
    ensures NormalizeKey(sc + "://" + n + p + "#" + frag) == sc + "://" + n + p
  {
    SplitAuthorityFragment(sc, n, p, frag);
    KeyOfPath(sc, n, p);
  }

  /** Neither does a trailing slash: `sc://n/p/` is `sc://n/p`, which is its own key. */
  lemma SlashSharesKey(sc: string, n: string, p: string)
    requires IsLowerScheme(sc)
    requires '/' !in n && '?' !in n && '#' !in n
    requires p != [] && p[0] == '/' && p[|p| - 1] != '/' && '?' !in p && '#' !in p
    ensures NormalizeKey(sc + "://" + n + (p + "/")) == sc + "://" + n + p
    ensures NormalizeKey(sc + "://" + n + p) == sc + "://" + n + p
  {
    assert (p + "/")[0] == '/';
    SplitAuthority(sc, n, p + "/");
    SplitAuthority(sc, n, p);
    KeyOfPath(sc, n, p);
  }
}
