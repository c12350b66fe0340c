/** backend/app/services/link_checker.py: probing the links of a page with a
    per-instance cache, validating Ukrainian phone numbers, and reporting
    invalid `tel:` links and phone numbers written as plain text. */
module LinkChecker {
  import opened Text
  import opened Html
  import opened Net

  // ---------------------------------------------------------------------
  // Phone validation

  /** A character the class `[\s\-\(\)]` matches. */
  predicate IsPhoneSeparator(c: char)
  {
    IsSpace(c) || c == '-' || c == '(' || c == ')'
  }

  /** `re.sub(r'[\s\-\(\)]', '', phone)`: every other character, in order. */
  function CleanPhone(phone: string): (r: string)
    ensures |r| <= |phone|
    ensures forall i :: 0 <= i < |r| ==> !IsPhoneSeparator(r[i])
  {
    if phone == [] then []
    else (if IsPhoneSeparator(phone[0]) then [] else [phone[0]]) + CleanPhone(phone[1..])
  }

  /** Cleaning keeps the characters of each part, part by part. */
  lemma {:induction false} CleanPhoneAppend(a: string, b: string)
    ensures CleanPhone(a + b) == CleanPhone(a) + CleanPhone(b)
    decreases |a|
  {
    if a != [] {
      assert (a + b)[1..] == a[1..] + b;
      CleanPhoneAppend(a[1..], b);
    } else {
      assert a + b == b;
    }
  }

  /** A number with no separator in it is left as it is. */
  lemma {:induction false} CleanPhoneKeeps(s: string)
    requires forall i :: 0 <= i < |s| ==> !IsPhoneSeparator(s[i])
    ensures CleanPhone(s) == s
    decreases |s|
  {
    if s != [] {
      CleanPhoneKeeps(s[1..]);
    }
  }

  /** So cleaning twice is cleaning once. */
  lemma CleanPhoneIdempotent(s: string)
    ensures CleanPhone(CleanPhone(s)) == CleanPhone(s)
  {
    CleanPhoneKeeps(CleanPhone(s));
  }

  /** The three accepted shapes, in the order they are tried. */
  datatype PhoneFormat = International | MissingPlus | Local

  const Formats: seq<PhoneFormat> := [International, MissingPlus, Local]

  /** `^\+380\d{9}$`, `^380\d{9}$` and `^0\d{9}$` over a cleaned number,
      which has no newline for `$` to stop before. */
  predicate Matches(f: PhoneFormat, c: string)
  {
    match f
    case International => |c| == 13 && c[..4] == "+380" && AllDigits(c[4..])
    case MissingPlus => |c| == 12 && c[..3] == "380" && AllDigits(c[3..])
    case Local => |c| == 10 && c[0] == '0' && AllDigits(c[1..])
  }

  predicate ValidShape(c: string)
  {
    Matches(International, c) || Matches(MissingPlus, c) || Matches(Local, c)
  }

  /** A cleaned number has at most one shape, so trying them in order picks
      the only one that fits. */
  lemma ShapesExclusive(c: string, f: PhoneFormat, g: PhoneFormat)
    requires Matches(f, c) && Matches(g, c)
    ensures f == g
  {
  }

  /** The `format` text of each shape. */
  function FormatMessage(f: PhoneFormat): string
  {
    match f
    case International => "Правильний формат: +380XXXXXXXXX"
    case MissingPlus => "Правильний формат, але краще з +: +380XXXXXXXXX"
    case Local => "Локальний формат, додайте код країни: +380XXXXXXXXX"
  }

  /** The `error` text of a number of no accepted shape. */
  const InvalidPhoneMessage := "Неправильний формат українського номеру телефону"

  /** `validate_ukrainian_phone`'s dictionary: valid with the shape found, or
      invalid (with `format` None and `InvalidPhoneMessage` as its error);
      both carry the cleaned number. */
  datatype PhoneCheck = ValidPhone(format: PhoneFormat, cleaned: string) | InvalidPhone(cleaned: string)

  /** `validate_ukrainian_phone`: clean, then try the shapes in order. */
  method ValidatePhone(phone: string) returns (r: PhoneCheck)
    ensures r.cleaned == CleanPhone(phone)
    ensures r.ValidPhone? <==> ValidShape(CleanPhone(phone))
    ensures r.ValidPhone? ==> Matches(r.format, r.cleaned)
  {
    var cleaned := CleanPhone(phone);
    for k := 0 to |Formats|
      invariant forall j :: 0 <= j < k ==> !Matches(Formats[j], cleaned)
    {
      if Matches(Formats[k], cleaned) {
        return ValidPhone(Formats[k], cleaned);
      }
    }
    assert !Matches(Formats[0], cleaned) && !Matches(Formats[1], cleaned) && !Matches(Formats[2], cleaned);
    return InvalidPhone(cleaned);
  }

  // ---------------------------------------------------------------------
  // Link probing

  /** `check_link`'s dictionary. */
  datatype LinkResult = LinkResult(url: string, statusCode: int, isBroken: bool, error: Option<string>)

  /** What one HEAD request (redirects followed) makes of `url`. */
  function ProbeResult(url: string, reply: Reply): (r: LinkResult)
    ensures r.url == url
    ensures r.isBroken <==> reply.Failed? || reply.status >= 400
    ensures reply.Answered? ==> r.statusCode == reply.status && r.error == None
    ensures reply.Failed? ==> r.error.Some? && r.statusCode == (if reply.kind == TimeoutFailure then 408 else 0)
  {
    match reply
    case Answered(status, _) => LinkResult(url, status, status >= 400, None)
    case Failed(TimeoutFailure, _) => LinkResult(url, 408, true, Some("Request timeout"))
    case Failed(ConnectFailure, _) => LinkResult(url, 0, true, Some("Connection failed"))
    case Failed(OtherFailure, message) => LinkResult(url, 0, true, Some(message))
  }

  /** The hrefs `check_all_links` passes over. */
  predicate Skipped(href: string)
  {
    StartsWith(href, "#") || StartsWith(href, "javascript:") || StartsWith(href, "mailto:")
  }

  /** The absolute URLs of the anchors that are not passed over. */
  function Targets(anchors: seq<Anchor>, baseUrl: string, join: (string, string) -> string): set<string>
  {
    if anchors == [] then {}
    else
      var last := anchors[|anchors| - 1];
      Targets(anchors[..|anchors| - 1], baseUrl, join)
        + (if Skipped(last.href) then {} else {join(baseUrl, last.href)})
  }

  /** A finding of `check_all_links`. */
  datatype BrokenLink = BrokenLink(linkUrl: string, linkText: string, statusCode: int, error: Option<string>)

  /** Its `message`. */
  function BrokenLinkMessage(b: BrokenLink): string
  {
    "Битое посилання: " + b.linkUrl + " (HTTP " + IntToString(b.statusCode) + ")"
  }

  /** The findings for `anchors`, each link's result read from `cache`. */
  function BrokenLinks(anchors: seq<Anchor>, baseUrl: string, join: (string, string) -> string,
                       cache: map<string, LinkResult>): (r: seq<BrokenLink>)
    requires Targets(anchors, baseUrl, join) <= cache.Keys
  {
    if anchors == [] then []
    else
      var last := anchors[|anchors| - 1];
      var url := join(baseUrl, last.href);
      BrokenLinks(anchors[..|anchors| - 1], baseUrl, join, cache)
        + (if !Skipped(last.href) && cache[url].isBroken
           then [BrokenLink(url, last.text, cache[url].statusCode, cache[url].error)]
           else [])
  }

  /** `cache'` keeps every entry of `cache`. */
  ghost predicate Extends(cache: map<string, LinkResult>, cache': map<string, LinkResult>)
  {
    forall u :: u in cache ==> u in cache' && cache'[u] == cache[u]
  }

  /** The findings read from a cache do not change when the cache grows. */
  lemma {:induction false} BrokenLinksStable(anchors: seq<Anchor>, baseUrl: string,
      join: (string, string) -> string, cache: map<string, LinkResult>, cache': map<string, LinkResult>)
    requires Targets(anchors, baseUrl, join) <= cache.Keys && Extends(cache, cache')
    ensures Targets(anchors, baseUrl, join) <= cache'.Keys
    ensures BrokenLinks(anchors, baseUrl, join, cache') == BrokenLinks(anchors, baseUrl, join, cache)
  {
    if anchors != [] {
      BrokenLinksStable(anchors[..|anchors| - 1], baseUrl, join, cache, cache');
    }
  }

  /** The findings of two runs of anchors are those of each run in turn: one
      finding per anchor, so an href repeated on the page is reported as
      often as it appears. */
  lemma {:induction false} BrokenLinksAppend(a: seq<Anchor>, b: seq<Anchor>, baseUrl: string,
      join: (string, string) -> string, cache: map<string, LinkResult>)
    requires Targets(a + b, baseUrl, join) <= cache.Keys
    ensures Targets(a + b, baseUrl, join) == Targets(a, baseUrl, join) + Targets(b, baseUrl, join)
    ensures BrokenLinks(a + b, baseUrl, join, cache)
         == BrokenLinks(a, baseUrl, join, cache) + BrokenLinks(b, baseUrl, join, cache)
    decreases |b|
  {
    if b == [] {
      assert a + b == a;
    } else {
      var b' := b[..|b| - 1];
      assert (a + b)[..|a + b| - 1] == a + b';
      assert (a + b)[|a + b| - 1] == b[|b| - 1];
      BrokenLinksAppend(a, b', baseUrl, join, cache);
    }
  }

  /** One anchor gives one finding exactly when it is followed and its link
      is broken. */
  lemma BrokenLinksSingle(x: Anchor, baseUrl: string, join: (string, string) -> string,
      cache: map<string, LinkResult>)
    requires Targets([x], baseUrl, join) <= cache.Keys
    ensures var url := join(baseUrl, x.href);
            BrokenLinks([x], baseUrl, join, cache)
              == if !Skipped(x.href) && cache[url].isBroken
                 then [BrokenLink(url, x.text, cache[url].statusCode, cache[url].error)]
                 else []
  {
    assert [x][..0] == [];
  }

  /** Every finding names a broken link with its cached status and error. */
  lemma {:induction false} BrokenLinksSound(anchors: seq<Anchor>, baseUrl: string,
      join: (string, string) -> string, cache: map<string, LinkResult>)
    requires Targets(anchors, baseUrl, join) <= cache.Keys
    ensures var r := BrokenLinks(anchors, baseUrl, join, cache);
            |r| <= |anchors|
            && forall k :: 0 <= k < |r| ==>
                 r[k].linkUrl in Targets(anchors, baseUrl, join)
                 && cache[r[k].linkUrl].isBroken
                 && r[k].statusCode == cache[r[k].linkUrl].statusCode
                 && r[k].error == cache[r[k].linkUrl].error
  {
    if anchors != [] {
      BrokenLinksSound(anchors[..|anchors| - 1], baseUrl, join, cache);
    }
  }

  /** `LinkCheckerService`: its `checked_links` cache. The request timeout is
      part of the network and not modelled. */
  class LinkCheckerService {
    /** `checked_links`: the result of every URL probed so far. */
    var checked: map<string, LinkResult>
    /** Every URL a HEAD request went to, in order. */
    ghost var probed: seq<string>

    /** Each entry is filed under its own URL, and the cache holds exactly the
        URLs probed, each probed once. */
    ghost predicate Valid()
      reads this
    {
      && (forall u :: u in checked ==> checked[u].url == u)
      && (forall i, j :: 0 <= i < j < |probed| ==> probed[i] != probed[j])
      && (forall u :: u in checked <==> u in probed)
    }

    constructor()
      ensures Valid() && checked == map[] && probed == []
    {
      checked := map[];
      probed := [];
    }

    /** `check_link`: the cached result when there is one; otherwise one HEAD
        request, whose result is cached. `net(url)` is what the request would
        come back with. */
    method CheckLink(url: string, net: string -> Reply) returns (r: LinkResult)
      requires Valid()
      modifies this
      ensures Valid() && r.url == url
      ensures url in old(checked) ==> r == old(checked)[url] && checked == old(checked) && probed == old(probed)
      ensures url !in old(checked) ==>
                r == ProbeResult(url, net(url)) && checked == old(checked)[url := r]
                && probed == old(probed) + [url]
    {
      if url in checked {
        return checked[url];
      }
      r := ProbeResult(url, net(url));
      checked := checked[url := r];
      probed := probed + [url];
    }

    /** `check_all_links` over the page's anchors: one finding per followed
        anchor whose link is broken; each new URL is probed once and keeps the
        result `net` gave it. */
    method CheckAllLinks(anchors: seq<Anchor>, baseUrl: string, join: (string, string) -> string,
                         net: string -> Reply) returns (errors: seq<BrokenLink>)
      requires Valid()
      modifies this
      ensures Valid() && Extends(old(checked), checked)
      ensures checked.Keys == old(checked).Keys + Targets(anchors, baseUrl, join)
      ensures forall u :: u in checked && u !in old(checked) ==> checked[u] == ProbeResult(u, net(u))
      ensures errors == BrokenLinks(anchors, baseUrl, join, checked)
    {
      errors := [];
      var i := 0;
      while i < |anchors|
        invariant 0 <= i <= |anchors|
        invariant Valid() && Extends(old(checked), checked)
        invariant checked.Keys == old(checked).Keys + Targets(anchors[..i], baseUrl, join)
        invariant forall u :: u in checked && u !in old(checked) ==> checked[u] == ProbeResult(u, net(u))
        invariant errors == BrokenLinks(anchors[..i], baseUrl, join, checked)
      {
        var link := anchors[i];
        assert anchors[..i + 1][..i] == anchors[..i] && anchors[..i + 1][i] == link;
        if !Skipped(link.href) {
          var url := join(baseUrl, link.href);
          ghost var before := checked;
          var result := CheckLink(url, net);
          BrokenLinksStable(anchors[..i], baseUrl, join, before, checked);
          if result.isBroken {
            errors := errors + [BrokenLink(url, link.text, result.statusCode, result.error)];
          }
        }
        i := i + 1;
      }
      assert anchors[..i] == anchors;
    }
  }

  // ---------------------------------------------------------------------
  // Phone numbers on the page

  /** An entry of `extract_phone_numbers`. */
  datatype TelLink = TelLink(href: string, number: string, linkText: string)

  /** The entry of a `tel:` anchor: its href, the number
      `href.replace('tel:', '').strip()` and its text. */
  function TelEntry(a: Anchor): TelLink
  {
    TelLink(a.href, Strip(ReplaceAll(a.href, "tel:", "")), a.text)
  }

  /** The anchors whose href starts with `tel:`, in page order, as entries. */
  function TelLinks(anchors: seq<Anchor>): (r: seq<TelLink>)
    ensures |r| <= |anchors|
  {
    if anchors == [] then []
    else
      var last := anchors[|anchors| - 1];
      TelLinks(anchors[..|anchors| - 1]) + (if StartsWith(last.href, "tel:") then [TelEntry(last)] else [])
  }

  /** The entries of two runs of anchors are those of the first run followed
      by those of the second: the order of the page is kept. */
  lemma {:induction false} TelLinksAppend(a: seq<Anchor>, b: seq<Anchor>)
    ensures TelLinks(a + b) == TelLinks(a) + TelLinks(b)
    decreases |b|
  {
    if b == [] {
      assert a + b == a;
    } else {
      var init := b[..|b| - 1];
      assert (a + b)[..|a + b| - 1] == a + init;
      assert (a + b)[|a + b| - 1] == b[|b| - 1];
      TelLinksAppend(a, init);
    }
  }

  /** One anchor yields its entry exactly when its href starts with `tel:`. */
  lemma TelLinksSingle(x: Anchor)
    ensures TelLinks([x]) == if StartsWith(x.href, "tel:") then [TelEntry(x)] else []
  {
    assert [x][..0] == [];
  }

  /** Every `tel:` anchor of the page yields its entry. */
  lemma TelAnchorsAllListed(anchors: seq<Anchor>)
    ensures forall j :: 0 <= j < |anchors| && StartsWith(anchors[j].href, "tel:") ==> TelEntry(anchors[j]) in TelLinks(anchors)
  {
    forall j | 0 <= j < |anchors| && StartsWith(anchors[j].href, "tel:")
      ensures TelEntry(anchors[j]) in TelLinks(anchors)
    {
      assert anchors == anchors[..j] + ([anchors[j]] + anchors[j + 1..]);
      TelLinksAppend(anchors[..j], [anchors[j]] + anchors[j + 1..]);
      TelLinksAppend([anchors[j]], anchors[j + 1..]);
      TelLinksSingle(anchors[j]);
      assert TelLinks(anchors)[|TelLinks(anchors[..j])|] == TelEntry(anchors[j]);
    }
  }

  /** Every entry comes from a `tel:` anchor, with that anchor's text. */
  lemma {:induction false} TelLinksFromTelAnchors(anchors: seq<Anchor>)
    ensures forall k :: 0 <= k < |TelLinks(anchors)| ==>
              StartsWith(TelLinks(anchors)[k].href, "tel:")
              && Anchor(TelLinks(anchors)[k].href, TelLinks(anchors)[k].linkText) in anchors
  {
    if anchors != [] {
      var prefix := anchors[..|anchors| - 1];
      TelLinksFromTelAnchors(prefix);
      forall k | 0 <= k < |TelLinks(prefix)|
        ensures Anchor(TelLinks(prefix)[k].href, TelLinks(prefix)[k].linkText) in anchors
      {
        var a := Anchor(TelLinks(prefix)[k].href, TelLinks(prefix)[k].linkText);
        var j :| 0 <= j < |prefix| && prefix[j] == a;
        assert anchors[j] == a;
      }
      assert anchors[|anchors| - 1] in anchors;
    }
  }

  /** `extract_phone_numbers`. */
  method ExtractPhoneNumbers(anchors: seq<Anchor>) returns (phones: seq<TelLink>)
    ensures phones == TelLinks(anchors)
  {
    phones := [];
    for i := 0 to |anchors|
      invariant phones == TelLinks(anchors[..i])
    {
      var link := anchors[i];
      assert anchors[..i + 1][..i] == anchors[..i] && anchors[..i + 1][i] == link;
      if StartsWith(link.href, "tel:") {
        phones := phones + [TelEntry(link)];
      }
    }
    assert anchors[..|anchors|] == anchors;
  }

  /** A finding of `check_phone_numbers`: a `tel:` link whose number has no
      accepted shape, or a phone written as text that no `tel:` link covers. */
  datatype PhoneIssue =
    | InvalidTelLink(number: string, linkText: string, href: string)
    | NotClickable(phoneText: string, context: string)

  function PhoneIssueMessage(p: PhoneIssue): string
  {
    match p
    case InvalidTelLink(_, _, _) => InvalidPhoneMessage
    case NotClickable(t, _) => "Номер телефону не є клікабельним: " + t
  }

  function PhoneIssueSuggestion(p: PhoneIssue): string
  {
    match p
    case InvalidTelLink(_, _, _) => "+380XXXXXXXXX"
    case NotClickable(t, _) => "Зробіть посилання: <a href=\"tel:" + t + "\">" + t + "</a>"
  }

  /** One finding per `tel:` link whose number is invalid, in order. */
  function TelLinkIssues(phones: seq<TelLink>): seq<PhoneIssue>
  {
    if phones == [] then []
    else
      var p := phones[|phones| - 1];
      TelLinkIssues(phones[..|phones| - 1])
        + (if ValidShape(CleanPhone(p.number)) then [] else [InvalidTelLink(p.number, p.linkText, p.href)])
  }

  /** Each finding is a `tel:` link of the page whose cleaned number has no
      accepted shape; there are none when every number is valid. */
  lemma TelLinkIssuesInvalid(phones: seq<TelLink>)
    ensures var r := TelLinkIssues(phones);
            |r| <= |phones|
            && (forall k :: 0 <= k < |r| ==>
                  r[k].InvalidTelLink? && !ValidShape(CleanPhone(r[k].number))
                  && TelLink(r[k].href, r[k].number, r[k].linkText) in phones)
            && (r == [] <==> forall k :: 0 <= k < |phones| ==> ValidShape(CleanPhone(phones[k].number)))
  {
    TelLinkIssuesSound(phones);
    TelLinkIssuesNone(phones);
  }

  /** The last `tel:` link adds its finding, if any, after those of the others. */
  lemma TelLinkIssuesLast(phones: seq<TelLink>)
    requires phones != []
    ensures var p := phones[|phones| - 1];
            TelLinkIssues(phones)
            == TelLinkIssues(phones[..|phones| - 1])
               + (if ValidShape(CleanPhone(p.number)) then [] else [InvalidTelLink(p.number, p.linkText, p.href)])
  {
  }

  lemma {:induction false} TelLinkIssuesSound(phones: seq<TelLink>)
    ensures var r := TelLinkIssues(phones);
            |r| <= |phones|
            && forall k :: 0 <= k < |r| ==>
                 r[k].InvalidTelLink? && !ValidShape(CleanPhone(r[k].number))
                 && TelLink(r[k].href, r[k].number, r[k].linkText) in phones
  {
    if phones != [] {
      var n := |phones| - 1;
      var prefix := phones[..n];
      var p := phones[n];
      var extra := if ValidShape(CleanPhone(p.number)) then [] else [InvalidTelLink(p.number, p.linkText, p.href)];
      TelLinkIssuesSound(prefix);
      TelLinkIssuesLast(phones);
      var r0 := TelLinkIssues(prefix);
      var r := TelLinkIssues(phones);
      assert r == r0 + extra;
      forall k | 0 <= k < |r|
        ensures r[k].InvalidTelLink? && !ValidShape(CleanPhone(r[k].number))
        ensures TelLink(r[k].href, r[k].number, r[k].linkText) in phones
      {
        if k < |r0| {
          assert r[k] == r0[k];
          var t := TelLink(r[k].href, r[k].number, r[k].linkText);
          var j :| 0 <= j < |prefix| && prefix[j] == t;
          assert phones[j] == t;
        } else {
          assert r[k] == extra[0];
          assert TelLink(r[k].href, r[k].number, r[k].linkText) == phones[n];
        }
      }
    }
  }

  lemma {:induction false} TelLinkIssuesNone(phones: seq<TelLink>)
    ensures TelLinkIssues(phones) == [] <==> forall k :: 0 <= k < |phones| ==> ValidShape(CleanPhone(phones[k].number))
  {
    if phones != [] {
      var n := |phones| - 1;
      var prefix := phones[..n];
      TelLinkIssuesNone(prefix);
      TelLinkIssuesLast(phones);
      if TelLinkIssues(phones) == [] {
        forall k | 0 <= k < |phones|
          ensures ValidShape(CleanPhone(phones[k].number))
        {
          if k < n {
            assert phones[k] == prefix[k];
          }
        }
      } else if TelLinkIssues(prefix) != [] {
        var k :| 0 <= k < |prefix| && !ValidShape(CleanPhone(prefix[k].number));
        assert phones[k] == prefix[k];
      } else {
        assert !ValidShape(CleanPhone(phones[n].number));
      }
    }
  }

  /** The findings of two runs of `tel:` links are those of each run in turn. */
  lemma {:induction false} TelLinkIssuesAppend(a: seq<TelLink>, b: seq<TelLink>)
    ensures TelLinkIssues(a + b) == TelLinkIssues(a) + TelLinkIssues(b)
    decreases |b|
  {
    if b == [] {
      assert a + b == a;
    } else {
      var init := b[..|b| - 1];
      assert (a + b)[..|a + b| - 1] == a + init;
      assert (a + b)[|a + b| - 1] == b[|b| - 1];
      TelLinkIssuesAppend(a, init);
    }
  }

  /** One `tel:` link gives its own finding exactly when its number is invalid. */
  lemma TelLinkIssuesSingle(p: TelLink)
    ensures TelLinkIssues([p]) == if ValidShape(CleanPhone(p.number)) then [] else [InvalidTelLink(p.number, p.linkText, p.href)]
  {
    assert [p][..0] == [];
  }

  /** Every `tel:` link with an invalid number is reported. */
  lemma TelLinkIssuesComplete(phones: seq<TelLink>)
    ensures forall j :: 0 <= j < |phones| && !ValidShape(CleanPhone(phones[j].number)) ==>
              InvalidTelLink(phones[j].number, phones[j].linkText, phones[j].href) in TelLinkIssues(phones)
  {
    forall j | 0 <= j < |phones| && !ValidShape(CleanPhone(phones[j].number))
      ensures InvalidTelLink(phones[j].number, phones[j].linkText, phones[j].href) in TelLinkIssues(phones)
    {
      var pre, post := phones[..j], phones[j + 1..];
      var e := InvalidTelLink(phones[j].number, phones[j].linkText, phones[j].href);
      SplitAround(phones, j);
      TelLinkIssuesAppend(pre, [phones[j]] + post);
      TelLinkIssuesAppend([phones[j]], post);
      TelLinkIssuesSingle(phones[j]);
      assert TelLinkIssues(phones) == TelLinkIssues(pre) + ([e] + TelLinkIssues(post));
      assert TelLinkIssues(phones)[|TelLinkIssues(pre)|] == e;
    }
  }

  /** `any(p['link_text'] in t or t in p['link_text'] for p in phones)`. */
  predicate Clickable(phones: seq<TelLink>, t: string)
  {
    exists k :: 0 <= k < |phones| && (Contains(t, phones[k].linkText) || Contains(phones[k].linkText, t))
  }

  /** The finding a single match gives: none when a `tel:` link covers it. */
  function PlainTextIssue(text: string, m: Span, phones: seq<TelLink>): seq<PhoneIssue>
    requires m.start <= m.end <= |text|
  {
    var t := text[m.start..m.end];
    if Clickable(phones, t) then [] else [NotClickable(t, Window(text, m.start, m.end, 50))]
  }

  /** One finding per match that no `tel:` link covers, with 50 characters of
      context either side. */
  function PlainTextIssues(text: string, spans: seq<Span>, phones: seq<TelLink>): seq<PhoneIssue>
    requires SpansWithin(spans, text)
  {
    if spans == [] then []
    else
      PlainTextIssues(text, spans[..|spans| - 1], phones) + PlainTextIssue(text, spans[|spans| - 1], phones)
  }

  /** Each plain-text finding is an uncovered match whose context holds it
      and is at most 100 characters longer. */
  lemma {:induction false} PlainTextIssuesShape(text: string, spans: seq<Span>, phones: seq<TelLink>)
    requires SpansWithin(spans, text)
    ensures var r := PlainTextIssues(text, spans, phones);
            |r| <= |spans|
            && forall k :: 0 <= k < |r| ==>
                 r[k].NotClickable? && !Clickable(phones, r[k].phoneText)
                 && Contains(r[k].context, r[k].phoneText)
                 && |r[k].context| <= |r[k].phoneText| + 100
  {
    if spans != [] {
      var m := spans[|spans| - 1];
      PlainTextIssuesShape(text, spans[..|spans| - 1], phones);
      WindowContainsMatch(text, m.start, m.end, 50);
      var w := Window(text, m.start, m.end, 50);
      var off := m.start - Max(0, m.start - 50);
      assert OccursAt(w, text[m.start..m.end], off);
    }
  }

  /** The findings of two runs of matches are those of each run in turn, one
      per uncovered match. */
  lemma {:induction false} PlainTextIssuesAppend(text: string, a: seq<Span>, b: seq<Span>, phones: seq<TelLink>)
    requires SpansWithin(a, text) && SpansWithin(b, text)
    ensures SpansWithin(a + b, text)
    ensures PlainTextIssues(text, a + b, phones) == PlainTextIssues(text, a, phones) + PlainTextIssues(text, b, phones)
    decreases |b|
  {
    if b == [] {
      assert a + b == a;
    } else {
      var init := b[..|b| - 1];
      assert (a + b)[..|a + b| - 1] == a + init;
      assert (a + b)[|a + b| - 1] == b[|b| - 1];
      PlainTextIssuesAppend(text, a, init, phones);
    }
  }

  /** One match gives a finding, with its 50-character context, exactly when
      no `tel:` link covers its text. */
  lemma PlainTextIssuesSingle(text: string, m: Span, phones: seq<TelLink>)
    requires m.start <= m.end <= |text|
    ensures SpansWithin([m], text)
    ensures PlainTextIssues(text, [m], phones) == PlainTextIssue(text, m, phones)
    ensures Clickable(phones, text[m.start..m.end]) <==> PlainTextIssue(text, m, phones) == []
  {
    assert [m][..0] == [];
  }

  /** Every match that no `tel:` link covers is reported, with its context. */
  lemma PlainTextIssuesComplete(text: string, spans: seq<Span>, phones: seq<TelLink>)
    requires SpansWithin(spans, text)
    ensures forall k :: 0 <= k < |spans| && !Clickable(phones, text[spans[k].start..spans[k].end]) ==>
              NotClickable(text[spans[k].start..spans[k].end], Window(text, spans[k].start, spans[k].end, 50))
                in PlainTextIssues(text, spans, phones)
  {
    forall k | 0 <= k < |spans| && !Clickable(phones, text[spans[k].start..spans[k].end])
      ensures NotClickable(text[spans[k].start..spans[k].end], Window(text, spans[k].start, spans[k].end, 50))
                in PlainTextIssues(text, spans, phones)
    {
      var m, pre, post := spans[k], spans[..k], spans[k + 1..];
      var e := NotClickable(text[m.start..m.end], Window(text, m.start, m.end, 50));
      SplitAround(spans, k);
      PlainTextIssuesSingle(text, m, phones);
      PlainTextIssuesAppend(text, [m], post, phones);
      PlainTextIssuesAppend(text, pre, [m] + post, phones);
      assert PlainTextIssues(text, spans, phones)
          == PlainTextIssues(text, pre, phones) + ([e] + PlainTextIssues(text, post, phones));
      assert PlainTextIssues(text, spans, phones)[|PlainTextIssues(text, pre, phones)|] == e;
    }
  }

  /** The empty string is in every string, so a `tel:` link with no text
      covers every phone written as text. */
  lemma {:induction false} EmptyLinkTextSuppresses(text: string, spans: seq<Span>, phones: seq<TelLink>, j: nat)
    requires SpansWithin(spans, text) && j < |phones| && phones[j].linkText == []
    ensures PlainTextIssues(text, spans, phones) == []
  {
    if spans != [] {
      var m := spans[|spans| - 1];
      var t := text[m.start..m.end];
      assert OccursAt(t, [], 0);
      assert Clickable(phones, t);
      EmptyLinkTextSuppresses(text, spans[..|spans| - 1], phones, j);
    }
  }

  /** `check_phone_numbers` over the page's anchors and its `get_text()`:
      `spans` are the matches of the three phone patterns, pattern by
      pattern, as `re.finditer` gives them. */
  method CheckPhoneNumbers(anchors: seq<Anchor>, text: string, spans: seq<Span>)
    returns (errors: seq<PhoneIssue>)
    requires SpansWithin(spans, text)
    ensures errors == TelLinkIssues(TelLinks(anchors)) + PlainTextIssues(text, spans, TelLinks(anchors))
  {
    errors := [];
    var phones := ExtractPhoneNumbers(anchors);
    for i := 0 to |phones|
      invariant errors == TelLinkIssues(phones[..i])
    {
      var p := phones[i];
      assert phones[..i + 1][..i] == phones[..i] && phones[..i + 1][i] == p;
      var validation := ValidatePhone(p.number);
      if !validation.ValidPhone? {
        errors := errors + [InvalidTelLink(p.number, p.linkText, p.href)];
      }
    }
    assert phones[..|phones|] == phones;
    ghost var telIssues := errors;
    for i := 0 to |spans|
      invariant errors == telIssues + PlainTextIssues(text, spans[..i], phones)
    {
      var m := spans[i];
      assert spans[..i + 1][..i] == spans[..i] && spans[..i + 1][i] == m;
      var phoneText := text[m.start..m.end];
      var isClickable := Clickable(phones, phoneText);
      if !isClickable {
        var context := Window(text, m.start, m.end, 50);
        errors := errors + [NotClickable(phoneText, context)];
      }
    }
    assert spans[..|spans|] == spans;
  }
}
