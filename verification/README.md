# Ukrainian site checker — a Dafny model of its scanning core

The site checker crawls a website, runs a set of checkers on every page it
reaches, stores the pages with their findings, and renders a report with
statistics. This project models that pipeline and proves properties of it.

The pipeline has these parts:

- **URL handling and crawl** (`urls.dfy`, `crawler.dfy`, after
  `backend/app/services/crawler.py`).
  - `urlsplit`/`urlparse` are written out as Python 3.12 splits URLs.
  - `normalize_url`, over `urlparse`, is the dedup key the crawler uses. A
    page fetch becomes a `Fetched` record.
  - The recursive, `asyncio.gather`-driven crawl is a worklist. Each
    `crawl_recursive` call is cut at its `await`: an `Admit` step runs the
    code before `fetch_page`, an `Expand` step the code after it. A
    scheduler sequence picks which ready step runs next.
  - The `CrawlerService` object is the `Crawler` class. Its `visited` and
    `pages` fields are updated in place.
- **Spelling** (`spelling.dfy`, `spell_checker.py`).
  - Text cleaning, cutting into 20000-character chunks, and the whitelist
    filter are modelled.
  - The offset of each finding is modelled, and so is `SpellChecker`, whose
    `__enter__` may degrade it. LanguageTool itself is an `Engine` function.
- **Addresses** (`address.dfy`, `address_validator.py`).
  - The canonical patterns are given as matchers, together with the issues
    reported for a non-canonical address and the message listing them.
  - So are the seven `re.sub` rewrites of `suggest_correction`.
- **Links and phones** (`link_checker.py`, in `link_checker.dfy`).
  - Phone cleaning and its three accepted shapes are modelled.
  - So are the HEAD-probe result and the per-service link cache.
  - The `tel:` link checks and the plain-text phone checks are modelled too.
- **SEO** (`seo.dfy`, `seo_checker.py`): the meta record, the ordered
  per-page findings with their severities, the favicon and robots.txt
  probes, and the robots "blocked" test.
- **Shared models.**
  - `errors.dfy` (`models/error.py`): the stored finding kinds and
    severities.
  - `html.dfy`: what the checkers read from a parsed page.
  - `net.dfy`: what a request comes back with.
  - `text.dfy`: the Python string operations the code relies on.
- **Scan task** (`scan.dfy`, `tasks/scan_website.py`).
  - Crawl bounds come from the preferences.
  - Checkers are gated per page, with the mapping of each checker's output
    to stored findings. That mapping includes the SEO severity map and the
    once-per-crawl-root robots finding.
  - The page loop updates the `ScanSession` object's counters and stored
    pages.
  - A scan ends completed or failed.
- **Report** (`report.dfy`, `report_generator.py`): the display-name
  tables, the statistics computed by `_calculate_stats`, and the selection
  of pages that have findings.

Network access, the HTML parser, regular-expression search and the grammar
engine are parameters of the model (functions from their input to what
they return). The clock is a parameter too. Everything that decides what
is stored or reported is modelled.

The operations model the code as written, including the five defects listed
under "## Findings". Beside each as-written definition sits the corrected
one, with the intended property proved about it:

- the dedup key: `NormalizeKey` beside `NormalizeUrl`;
- the page fetch: `Fetch`, with its title guarded, beside `FetchAsWritten`;
- the spelling offsets: `CheckedChunks` and `CheckedText` beside
  `CheckedChunksAsWritten` and `CheckedTextAsWritten`;
- the robots test: the line-based `Blocked` beside `BlockedAsWritten`;
- the missing-session outcome: `MissingSessionOutcome` beside
  `MissingSessionOutcomeAsWritten`.

Plain-text phone numbers are matched against `tel:` link texts by substring
containment in both directions, as written. An empty link text therefore
silences every plain-text finding (`EmptyLinkTextSuppresses`).

## Model

| member | source | states |
|---|---|---|
| Text.RStripChar | backend/app/services/crawler.py:13 | `s.rstrip(c)` is a prefix of `s`, does not end in `c`, and only `c` characters were removed |
| Text.Strip | backend/app/services/address_validator.py:36 | `strip()` leaves no white space at either end and never lengthens (what it keeps: Text.StripRemovesOnlySpace) |
| Text.StripIdempotent | backend/app/services/address_validator.py:36 | stripping twice is stripping once |
| Text.StripRemovesOnlySpace | backend/app/services/address_validator.py:36 | `strip()` keeps the middle of `s` in place, as a slice, and everything it removes at either end is white space |
| Text.LowerStr | backend/app/services/spell_checker.py:70 | `lower()` lowers the Latin and Cyrillic capitals and keeps every other character |
| Text.Slice | backend/app/services/seo_checker.py:83 | Python slicing clamps: the slice `s[i:j]` when in range, empty when `j <= i` |
| Text.Window | backend/app/services/spell_checker.py:82-84 | the context window is the clamped slice around the match and at most `2 * radius` longer than it |
| Text.WindowContainsMatch | backend/app/services/address_validator.py:51-53 | the context window holds the matched text itself |
| Text.JoinContains | backend/app/services/address_validator.py:102 | every part of `sep.join(parts)` occurs in the joined string |
| Text.IntToString | backend/app/tasks/scan_website.py:53 | `str(n)` is never empty |
| Text.IntToStringInjective | backend/app/tasks/scan_website.py:53 | two integers print the same only when they are equal |
| Urls.SplitNetloc | backend/app/services/crawler.py:14 | the netloc runs from `//` to the first `/`, `?` or `#` and holds none of them; netloc and rest give back the input |
| Urls.UrlSplit | backend/app/services/crawler.py:22 | the netloc holds no `/`, `?`, `#`; the path holds no `?` |
| Urls.UrlParse | backend/app/services/crawler.py:22 | `urlparse` keeps `urlsplit`'s scheme, netloc, query and fragment; its path is a prefix of `urlsplit`'s, the same path when there is no `;` |
| Urls.NormalizeUrl | backend/app/services/crawler.py:20-24 | the key `normalize_url` returns has no trailing `/`, no `?` and no `#` |
| Urls.PathHasNoFragment | backend/app/services/crawler.py:21-23 | the path never holds `#`, so normalisation drops the fragment |
| Urls.SchemeIsLower | backend/app/services/crawler.py:22 | the scheme is empty or a lower-case scheme starting with a letter |
| Urls.SchemeExcludes | backend/app/services/crawler.py:22 | a character outside the scheme alphabet is never in the scheme |
| Urls.SplitKeepsCharsOut | backend/app/services/crawler.py:22 | a character absent from the URL is absent from its netloc and path |
| Urls.SplitPartsExclude | backend/app/services/crawler.py:22-23 | the scheme holds neither `?` nor `#`, and the path holds no `#` |
| Urls.KeyOf | backend/app/services/crawler.py:23-24 | `f"{scheme}://{rest}".rstrip('/')` never ends in `/` |
| Urls.KeyShape | backend/app/services/crawler.py:23-24 | the key is `scheme:` when the rest strips to nothing, else `scheme://` plus the stripped rest |
| Urls.NoCharInKey | backend/app/services/crawler.py:23-24 | a character other than `:` and `/` absent from the parts is absent from the key |
| Urls.NormalizeKey | backend/app/services/crawler.py:20-24 | the dedup key has no trailing `/`, no `?` and no `#` |
| Urls.KeyOfKey | backend/app/services/crawler.py:20-24 | a key `sc://y`, with `y` free of `?` and `#` and not ending in `/`, normalises to itself; so does `sc:` |
| Urls.NormalizeKeyIdempotent | backend/app/services/crawler.py:20-24 | normalising a normalised URL changes nothing (every URL with a scheme) |
| Urls.FragmentSharesKey | backend/app/services/crawler.py:20-24 | `sc://n/p#frag` has the key `sc://n/p`: the fragment is dropped |
| Urls.SlashSharesKey | backend/app/services/crawler.py:20-24 | `sc://n/p/` and `sc://n/p` both have the key `sc://n/p` |
| Urls.SplitAuthorityFragment | backend/app/services/crawler.py:22 | `urlsplit` of `sc://n/p#f` is scheme `sc`, netloc `n`, path `p`, fragment `f` |
| Urls.SplitAuthority | backend/app/services/crawler.py:22 | `urlsplit` of `sc://n/p` is scheme `sc`, netloc `n`, path `p`, no query or fragment |
| Urls.ParseAuthority | backend/app/services/crawler.py:22 | `urlparse` of `sc://n/p` with a `;` in `p` cuts the params off the last segment |
| Urls.SplitParamsTrailing | backend/app/services/crawler.py:22 | `_splitparams` of `/a;b/` cuts nothing: the last segment is empty |
| Urls.SplitParamsSegment | backend/app/services/crawler.py:22 | `_splitparams` of `/a;b` cuts `b` off |
| Urls.NormalizeUrlIsKeyWithoutSemicolon | backend/app/services/crawler.py:20-24 | without a `;` the as-written normalisation equals the key |
| Urls.NormalizeUrlIdempotent | backend/app/services/crawler.py:20-24 | as written, normalisation is idempotent on URLs with a scheme and no `;` |
| Urls.NormalizeAuthority | backend/app/services/crawler.py:20-24 | as written, `sc://n/p` normalises to the key of the path with its params cut |
| Urls.NormalizeTrailingParams | backend/app/services/crawler.py:20-24 | as written, `sc://n/a;b/` normalises to `sc://n/a;b` |
| Urls.NormalizeDropsParams | backend/app/services/crawler.py:20-24 | as written, `sc://n/a;b` normalises to `sc://n/a` |
| Urls.NormalizeUrlNotIdempotent | backend/app/services/crawler.py:20-24 | as written, normalising `sc://n/a;b/` twice differs from normalising it once |
| Html.TitleText | backend/app/services/crawler.py:85-86 | a title exists exactly when there is a `<title>` with a string, and it is that string stripped |
| Html.MetaContent | backend/app/services/crawler.py:88-92 | the meta value is kept exactly when it is present and non-empty |
| Errors.TypeFromValue | backend/app/models/error.py:8-13 | the member found from a value has that value |
| Errors.SeverityFromValue | backend/app/models/error.py:16-20 | the member found from a value has that value |
| Errors.TypeValueRoundTrip | backend/app/models/error.py:8-13 | every error type is found again from its value |
| Errors.SeverityValueRoundTrip | backend/app/models/error.py:16-20 | every severity is found again from its value |
| Crawler.OrDefault | backend/app/services/crawler.py:15-16 | `value or default`: `None` and `0` give the default, anything else itself |
| Crawler.ValidLinks | backend/app/services/crawler.py:76-81 | there are no more links than anchors |
| Crawler.ValidLinksExactly | backend/app/services/crawler.py:76-81 | a URL is kept exactly when it is the join of some anchor's href and `is_valid_url` accepts it |
| Crawler.CollectLinks | backend/app/services/crawler.py:76-81 | the loop over the anchors collects exactly the valid joined links, in order |
| Crawler.FetchAsWritten | backend/app/services/crawler.py:47-121 | the record keeps the requested URL |
| Crawler.Fetch | backend/app/services/crawler.py:47-121 | the record keeps the requested URL |
| Crawler.FailedFetchHasNoLinks | backend/app/services/crawler.py:56-121 | links and markup only for a 200; a timeout gives 408 "Request timeout", another failure status 0 with its message |
| Crawler.FetchedLinksAreValid | backend/app/services/crawler.py:76-86 | a fetched page's links are exactly its valid joined anchors, in both the guarded and the as-written fetch (none when the title has no string) |
| Crawler.EmptyTitleLosesPage | backend/app/services/crawler.py:85-86 | as written, a 200 page with a string-less `<title>` is recorded as status 0 with the `AttributeError` text; the guarded fetch keeps it and its links |
| Crawler.FetchAgreesElsewhere | backend/app/services/crawler.py:47-121 | the as-written and guarded fetch agree on every other response |
| Crawler.FetchPage | backend/app/services/crawler.py:47-121 | `fetch_page` returns the record `FetchAsWritten` describes, a string-less `<title>` included |
| Crawler.AdmitAll | backend/app/services/crawler.py:152-156 | one pending call per link, at the given depth, in order |
| Crawler.Take | backend/app/services/crawler.py:153 | `links[:20]`: the first `min(20, len)` links |
| Crawler.PageKeysCoverPages | backend/app/services/crawler.py:132-147 | the key of every recorded page is in the visited set |
| Crawler.DistinctPageKeys | backend/app/services/crawler.py:132-141 | when there are as many keys as pages, no two pages share a key |
| Crawler.MaxDepth | backend/app/services/crawler.py:171 | 0 for no pages, else the greatest depth, which some page has |
| Crawler.Crawler.constructor | backend/app/services/crawler.py:12-18 | base URL without trailing `/`, domain from `urlparse`, bounds `or` their defaults, key `normalize_url`, validity `is_valid_url`, domain test `is_same_domain`, empty visited set and pages |
| Crawler.Crawler.AdmitStep | backend/app/services/crawler.py:123-144 | an admissible URL (depth, budget, not visited, same domain) adds its key and schedules its fetch; anything else changes nothing |
| Crawler.Crawler.ExpandStep | backend/app/services/crawler.py:144-159 | appends the fetched page with its depth and schedules up to 20 links, only below the depth bound and while the budget lasts |
| Crawler.Crawler.RunAdmit | backend/app/services/crawler.py:123-141 | an admit step keeps the worklist invariant and makes progress |
| Crawler.Crawler.RunExpand | backend/app/services/crawler.py:143-159 | an expand step records what `fetch_page`, as written, makes of the web's answer for its URL, and keeps the invariant |
| Crawler.Crawler.RunStep | backend/app/services/crawler.py:123-159 | any step keeps the invariant: the visited set is the recorded and in-flight keys, within `max_pages` |
| Crawler.Crawler.Crawl | backend/app/services/crawler.py:161-164 | the crawl keeps the pages it had and adds only pages `fetch_page` made of the web's answers; it returns its pages, never more than `max_pages`, with distinct `normalize_url` keys, each within the depth bound and on the site's domain |
| Crawler.Crawler.Stats | backend/app/services/crawler.py:166-172 | total pages and unique URLs agree and stay within the budget; the maximum depth reached is within the depth bound |
| Spelling.Collapse | backend/app/services/spell_checker.py:34 | `re.sub(r'\s+', ' ', s)` is empty exactly when `s` is and starts with a space exactly when `s` does (word separation: Spelling.CollapseSeparates) |
| Spelling.CollapseSingleSpaced | backend/app/services/spell_checker.py:34 | after collapsing, every white space is a single plain space |
| Spelling.CollapseKeepsVisible | backend/app/services/spell_checker.py:34 | collapsing keeps every visible character in order |
| Spelling.CollapseFixes | backend/app/services/spell_checker.py:34 | a single-spaced text collapses to itself |
| Spelling.CollapseAppend | backend/app/services/spell_checker.py:34 | no white-space run crosses a visible character, so a text ending visible collapses apart from what follows |
| Spelling.CollapseSeparates | backend/app/services/spell_checker.py:34 | a white-space run between a visible end and a visible start becomes exactly one space, so words stay apart |
| Spelling.CleanText | backend/app/services/spell_checker.py:31-37 | the cleaned text is stripped and single-spaced (word separation: Spelling.CleanSeparates) |
| Spelling.CleanKeepsVisible | backend/app/services/spell_checker.py:31-37 | cleaning drops only white space |
| Spelling.StripSingleSpaced | backend/app/services/spell_checker.py:31-37 | stripping a single-spaced text leaves it single-spaced, so the cleaned text has no double space |
| Spelling.CleanSeparates | backend/app/services/spell_checker.py:31-37 | two texts meeting at visible characters with white space between clean to their cleaned forms joined by one space |
| Spelling.CleanIdempotent | backend/app/services/spell_checker.py:31-37 | cleaning twice is cleaning once |
| Spelling.SplitEvery | backend/app/services/spell_checker.py:62 | every piece is non-empty and at most `n` long |
| Spelling.SplitEveryConcat | backend/app/services/spell_checker.py:62 | the pieces put together are the text |
| Spelling.ChunksCover | backend/app/services/spell_checker.py:59-64 | every chunk fits in 20000 characters; a fitting text is one chunk; the chunks put together are the text |
| Spelling.StartIsPrefixLength | backend/app/services/spell_checker.py:101 | a chunk's start offset is the total length of the chunks before it |
| Spelling.ChunkInPlace | backend/app/services/spell_checker.py:59-64 | chunk `k` sits in the text at its start offset |
| Spelling.LowerAll | backend/app/services/spell_checker.py:70 | the lower-cased whitelist, word by word |
| Spelling.WhitelistedIff | backend/app/services/spell_checker.py:77-79 | a match is skipped exactly when some whitelist word equals its context, ignoring the case of Latin and Cyrillic letters |
| Spelling.ContextOf | backend/app/services/spell_checker.py:81-84 | the context holds the matched text and is at most 100 characters longer than it |
| Spelling.SuggestionNamesFirstThree | backend/app/services/spell_checker.py:89 | with replacements there is a suggestion, and it names each of the first three |
| Spelling.MatchErrorsNext | backend/app/services/spell_checker.py:76-95 | one more match adds its finding unless whitelisted |
| Spelling.MatchErrorsExact | backend/app/services/spell_checker.py:76-95 | every non-whitelisted match gives its finding and every finding comes from one |
| Spelling.MatchIsReported | backend/app/services/spell_checker.py:76-95 | a non-whitelisted match is reported with the chunk's start added to its offset |
| Spelling.CheckedChunksKeep | backend/app/services/spell_checker.py:72-101 | later chunks only add findings |
| Spelling.OffsetsPointIntoText | backend/app/services/spell_checker.py:66-101 | every finding's offset and length select in the cleaned text what the match selects in its chunk |
| Spelling.AsWrittenOffsetSkipsRaisedChunk | backend/app/services/spell_checker.py:97-101 | as written, a chunk whose check raises does not advance the offset, so the next chunk's findings point at the wrong place |
| Spelling.MatchFindings | backend/app/services/spell_checker.py:76-95 | the inner loop returns one finding per non-whitelisted match, in order |
| Spelling.ChunkFindings | backend/app/services/spell_checker.py:72-101 | the outer loop returns the findings of every chunk with offsets counted as written: a raising chunk contributes none and does not advance the offset |
| Spelling.CheckedText | backend/app/services/spell_checker.py:53-57 | a cleaned text under three characters is not checked |
| Spelling.AsWrittenStart | backend/app/services/spell_checker.py:97-101 | as written, the offset at a chunk never exceeds the chunk's true start |
| Spelling.CheckedTextAsWritten | backend/app/services/spell_checker.py:53-57 | as written, a cleaned text under three characters is not checked either |
| Spelling.AsWrittenAgreesWithoutRaise | backend/app/services/spell_checker.py:72-101 | until a chunk's check raises, the as-written offsets are the true starts and the findings are the corrected ones |
| Spelling.AsWrittenTextAgreesWithoutRaise | backend/app/services/spell_checker.py:39-103 | when no chunk's check raises, `check_text` as written reports exactly the corrected findings |
| Spelling.SpellChecker.constructor | backend/app/services/spell_checker.py:10-12 | enabled as configured, with no engine |
| Spelling.SpellChecker.Enter | backend/app/services/spell_checker.py:14-25 | when enabled, the engine starts or the checker disables itself; when disabled nothing changes |
| Spelling.SpellChecker.CheckText | backend/app/services/spell_checker.py:39-103 | with an engine, the findings are `CheckedTextAsWritten` of the input; without one, none |
| Spelling.DegradedCheckerFindsNothing | backend/app/services/spell_checker.py:50-51 | a checker whose engine failed to start finds nothing |
| Address.CorrectFormatIgnoresPadding | backend/app/services/address_validator.py:34-37 | white space around an address does not change `is_correct_format` |
| Address.FullMatchOfPieces | backend/app/services/address_validator.py:37 | text made of one fitting piece per element, each repeat followed by text that does not continue it, fully matches the pattern |
| Address.FullMatchPieces | backend/app/services/address_validator.py:37 | text that fully matches a pattern is one fitting piece per element |
| Address.LayoutMatches | backend/app/services/address_validator.py:9-20 | `м.␣City,␣<kind>␣Street,␣N[,␣кв.␣M]`, each ␣ white space, fully matches its pattern |
| Address.LayoutPatternIsCanonical | backend/app/services/address_validator.py:9-20 | the layout patterns are among `CORRECT_PATTERNS` |
| Address.CanonicalIsLayoutPattern | backend/app/services/address_validator.py:9-20 | every pattern of `CORRECT_PATTERNS` is a layout pattern, with a flat only on `вул.` |
| Address.LayoutIsCorrect | backend/app/services/address_validator.py:9-37 | every address written in a canonical layout is in correct format |
| Address.LayoutOfPieces | backend/app/services/address_validator.py:9-20 | the pieces matching a layout pattern are a layout's city, street, number, flat and gaps |
| Address.CorrectFormatIsLayout | backend/app/services/address_validator.py:9-37 | every address in correct format is, stripped, a canonical layout with a proper city and street name, a number and white-space gaps |
| Address.FoundAll | backend/app/services/address_validator.py:39-61 | one entry per detection match, in order |
| Address.FoundAllShape | backend/app/services/address_validator.py:50-57 | each entry is its match at its start, inside a context that holds it and is at most 200 characters longer |
| Address.FindAddresses | backend/app/services/address_validator.py:39-61 | the loop returns the entries for the matches |
| Address.IssuesExact | backend/app/services/address_validator.py:77-93 | each of the four issues is listed exactly when its check fires, and at most once |
| Address.MessageNamesIssues | backend/app/services/address_validator.py:102 | the message spells out every listed issue |
| Address.ReportedExact | backend/app/services/address_validator.py:69-106 | exactly the addresses not in correct format are reported |
| Address.ReportedNext | backend/app/services/address_validator.py:72-104 | one more address adds its error unless it is in correct format |
| Address.ValidateText | backend/app/services/address_validator.py:63-106 | the loop returns an error for each found address not in correct format, in order |
| Address.WordThenSpaces | backend/app/services/address_validator.py:115-119 | `word\s+` matched case-insensitively stays within the text |
| Address.MatchAt | backend/app/services/address_validator.py:114-126 | a rewrite match covers at least one character and stays within the text |
| Address.SubFrom | backend/app/services/address_validator.py:114-126 | `re.sub` from a position is empty only at the end of the text |
| Address.SubUnchanged | backend/app/services/address_validator.py:114-126 | a rule that matches nowhere changes nothing |
| Address.Suggestion | backend/app/services/address_validator.py:128 | a suggestion is never the address itself |
| Address.SuggestCorrection | backend/app/services/address_validator.py:108-128 | there is no suggestion exactly when the seven rewrites change nothing |
| Address.AbbrevSpaceFixes | backend/app/services/address_validator.py:122 | after the spacing rewrite no `[мвп].` is directly followed by a capital |
| Address.AbbrevSpaceFrom | backend/app/services/address_validator.py:122 | the same for the rewrite from any position |
| LinkChecker.CleanPhone | backend/app/services/link_checker.py:137 | the cleaned number has no separator and is no longer than the input |
| LinkChecker.CleanPhoneAppend | backend/app/services/link_checker.py:137 | cleaning works part by part |
| LinkChecker.CleanPhoneKeeps | backend/app/services/link_checker.py:137 | a number without separators is left as it is |
| LinkChecker.CleanPhoneIdempotent | backend/app/services/link_checker.py:137 | cleaning twice is cleaning once |
| LinkChecker.ShapesExclusive | backend/app/services/link_checker.py:140-152 | a cleaned number has at most one accepted shape |
| LinkChecker.ValidatePhone | backend/app/services/link_checker.py:127-159 | valid exactly when the cleaned number has an accepted shape, reported with that shape |
| LinkChecker.ProbeResult | backend/app/services/link_checker.py:26-58 | broken exactly on a failure or a status of 400 or more; a timeout is 408, another failure 0 |
| LinkChecker.BrokenLinksStable | backend/app/services/link_checker.py:75-99 | the findings read from the cache do not change when the cache grows |
| LinkChecker.BrokenLinksAppend | backend/app/services/link_checker.py:75-99 | the findings of two runs of anchors are those of each run in turn |
| LinkChecker.BrokenLinksSingle | backend/app/services/link_checker.py:78-99 | one anchor gives a finding exactly when it is not skipped and its link is broken |
| LinkChecker.BrokenLinksSound | backend/app/services/link_checker.py:88-99 | every finding names a broken link with its cached status and error |
| LinkChecker.LinkCheckerService.constructor | backend/app/services/link_checker.py:12-14 | an empty cache |
| LinkChecker.LinkCheckerService.CheckLink | backend/app/services/link_checker.py:16-62 | a cached URL is answered from the cache; otherwise one HEAD request, its result cached under the URL |
| LinkChecker.LinkCheckerService.CheckAllLinks | backend/app/services/link_checker.py:64-101 | the cache gains exactly the page's followed URLs, each probed once, and the findings are the broken ones |
| LinkChecker.TelLinks | backend/app/services/link_checker.py:110-123 | no more entries than anchors |
| LinkChecker.TelLinksFromTelAnchors | backend/app/services/link_checker.py:110-123 | every entry comes from a `tel:` anchor with that anchor's text |
| LinkChecker.TelLinksAppend | backend/app/services/link_checker.py:110-123 | the entries of two runs of anchors are those of the first followed by those of the second |
| LinkChecker.TelLinksSingle | backend/app/services/link_checker.py:112-121 | one anchor yields its href, its number with `tel:` removed and stripped, and its text exactly when its href starts with `tel:` |
| LinkChecker.TelAnchorsAllListed | backend/app/services/link_checker.py:110-123 | every `tel:` anchor of the page yields its entry |
| LinkChecker.ExtractPhoneNumbers | backend/app/services/link_checker.py:103-125 | the loop returns the `tel:` entries |
| LinkChecker.TelLinkIssuesInvalid | backend/app/services/link_checker.py:170-181 | each finding is a `tel:` link whose cleaned number has no accepted shape; none exactly when all are valid |
| LinkChecker.TelLinkIssuesAppend | backend/app/services/link_checker.py:170-181 | the findings of two runs of `tel:` links are those of each run in turn |
| LinkChecker.TelLinkIssuesSingle | backend/app/services/link_checker.py:170-181 | one `tel:` link gives its own finding exactly when its cleaned number has no accepted shape |
| LinkChecker.TelLinkIssuesComplete | backend/app/services/link_checker.py:170-181 | every `tel:` link with an invalid number is reported |
| LinkChecker.PlainTextIssuesShape | backend/app/services/link_checker.py:194-215 | each plain-text finding is a number no `tel:` link covers, inside a context that holds it and is at most 100 characters longer |
| LinkChecker.PlainTextIssuesAppend | backend/app/services/link_checker.py:194-215 | the findings of two runs of matches are those of each run in turn |
| LinkChecker.PlainTextIssuesSingle | backend/app/services/link_checker.py:199-215 | one match gives a finding, with its 50-character context, exactly when no `tel:` link covers its text |
| LinkChecker.PlainTextIssuesComplete | backend/app/services/link_checker.py:194-215 | every match that no `tel:` link covers is reported with its context |
| LinkChecker.EmptyLinkTextSuppresses | backend/app/services/link_checker.py:199-203 | a `tel:` link with empty text makes every plain-text number count as clickable |
| LinkChecker.CheckPhoneNumbers | backend/app/services/link_checker.py:161-217 | the findings are the invalid `tel:` links followed by the unclickable plain-text numbers |
| Seo.MetaTitle | backend/app/services/seo_checker.py:111-112 | a title exists exactly when `<title>` has a non-empty string, and it is that string stripped |
| Seo.TruthyLength | backend/app/services/seo_checker.py:135-137 | the length is 0 exactly for a missing or empty value |
| Seo.CheckMetaTags | backend/app/services/seo_checker.py:98-142 | the record holds the title, description, keywords and flags of the page, with lengths 0 exactly when absent |
| Seo.BlankTitleIsMissing | backend/app/services/seo_checker.py:111-112 | a `<title>` of white space only is recorded as an empty title, length 0 |
| Seo.CheckFavicon | backend/app/services/seo_checker.py:14-40 | a favicon is found exactly when an icon `<link>` exists, with its href joined to the page URL |
| Seo.SiteFileOnSameHost | backend/app/services/seo_checker.py:44-45 | the probed file URL has the page's scheme and host and the file as its path |
| Seo.FaviconRule | backend/app/services/seo_checker.py:150-160 | a favicon warning is added exactly when there is neither an icon link nor `/favicon.ico` |
| Seo.TitleBand | backend/app/services/seo_checker.py:165-182 | no title finding for 30 to 60 characters; an error when missing, a warning when out of band |
| Seo.DescriptionBand | backend/app/services/seo_checker.py:184-201 | no description finding for 50 to 160 characters; a warning when missing, info when out of band |
| Seo.ViewportAndCharset | backend/app/services/seo_checker.py:203-215 | a missing viewport adds one warning, and so does a missing charset |
| Seo.PageIssuesBounded | backend/app/services/seo_checker.py:144-217 | at most five findings, none critical; none at all exactly for a page that passes every check |
| Seo.CheckPage | backend/app/services/seo_checker.py:144-217 | the method returns the findings in the order the checks run, with the favicon file probed by a HEAD of the site's `/favicon.ico` |
| Seo.CheckRobotsTxt | backend/app/services/seo_checker.py:54-96 | found exactly on a 200, blocked exactly when both substrings occur, with the first 500 characters; otherwise absent, with a status when the server answered |
| Seo.RobotsIssue | backend/app/services/seo_checker.py:219-237 | no finding exactly for a present, unblocked file; info when absent, critical when blocked |
| Seo.CheckRobotsAccessibility | backend/app/services/seo_checker.py:219-237 | no finding exactly when the file answers 200 and the substring test does not fire; a critical block exactly when it does |
| Seo.TrulyBlockingIsReported | backend/app/services/seo_checker.py:219-237 | a file with a `User-agent: *` line and a `Disallow: /` line is always reported as a critical block |
| Seo.BlockedNarrowsAsWritten | backend/app/services/seo_checker.py:73 | the line-based test only flags files the substring test flags |
| Seo.BlockedOverMatches | backend/app/services/seo_checker.py:73 | as written, `User-agent: *` with `Disallow: /<path>` counts as blocked although the line-based test does not |
| Scan.Setting | backend/app/tasks/scan_website.py:67-68 | `preferences.get(key, default)` |
| Scan.PageBudget | backend/app/tasks/scan_website.py:65-69 | the page bound is the preference, or 100 when it is absent or 0 |
| Scan.DepthBudget | backend/app/tasks/scan_website.py:65-69 | the depth bound is the preference, or 5 when it is absent or 0 |
| Scan.SpellingRow | backend/app/tasks/scan_website.py:113-122 | a spelling finding is a warning with the checker's message and suggestion |
| Scan.AddressRow | backend/app/tasks/scan_website.py:129-138 | an address finding is an error with the checker's message and suggestion |
| Scan.LinkRow | backend/app/tasks/scan_website.py:150-159 | a broken-link finding is an error carrying the link URL and status |
| Scan.PhoneRow | backend/app/tasks/scan_website.py:166-175 | a phone finding is a warning; it has a context exactly when the number is not clickable |
| Scan.SeoSeverity | backend/app/tasks/scan_website.py:198-207 | a known severity value maps to its member; a missing or unknown one to warning |
| Scan.SeoRow | backend/app/tasks/scan_website.py:197-211 | an SEO finding keeps the severity the SEO checker gave it |
| Scan.PageErrorsByKind | backend/app/tasks/scan_website.py:102-211 | a page gets, of each kind, exactly as many findings as that kind's checker returned when it ran, plus the robots finding at depth 0 |
| Scan.SpellingPartCount | backend/app/tasks/scan_website.py:104-122 | the spelling part holds only spelling findings, as many as the checker returned |
| Scan.AddressPartCount | backend/app/tasks/scan_website.py:124-138 | the same for addresses |
| Scan.LinkPartCount | backend/app/tasks/scan_website.py:140-159 | the same for broken links |
| Scan.PhonePartCount | backend/app/tasks/scan_website.py:161-175 | the same for phones |
| Scan.SeoPartCount | backend/app/tasks/scan_website.py:177-211 | the same for SEO, the robots finding included |
| Scan.PageErrorSeverity | backend/app/tasks/scan_website.py:113-211 | spelling and phone findings are warnings, address and link findings errors, SEO findings keep a severity the SEO checker gave |
| Scan.RobotsOnlyAtDepthZero | backend/app/tasks/scan_website.py:187-193 | below depth 0 the SEO part is the page's own SEO findings only |
| Scan.NothingToCheck | backend/app/tasks/scan_website.py:105-178 | a page with no text and no markup, or with the relevant checkers off, gets no findings |
| Scan.CheckPage | backend/app/tasks/scan_website.py:101-211 | the page's findings in the order the checkers run |
| Scan.TotalIsSaved | backend/app/tasks/scan_website.py:213-221 | `errors_found` equals the number of findings stored with the pages |
| Scan.ScanSession.constructor | backend/app/models/scan_session.py:21-33 | a new session is pending, with zero counters, no message or times and no pages |
| Scan.ProcessPages | backend/app/tasks/scan_website.py:82-232 | each page is stored with its findings and the counters follow; a fault stops the loop after storing that page without findings |
| Scan.CrawlSite | backend/app/tasks/scan_website.py:64-75 | the crawl returns at most the page budget, with distinct `normalize_url` keys, each page in the site's domain, within the depth budget, at depth 0 only for the site's URL, and what `fetch_page` made of the web's answer |
| Scan.MissingSessionOutcomeNamesSession | backend/app/tasks/scan_website.py:51-53 | the intended `ValueError` tells sessions apart: two ids give the same error only when equal |
| Scan.MissingSessionErrorMasked | backend/app/tasks/scan_website.py:246-251 | as written, the missing-session error never escapes: the same `AttributeError` text escapes for every id |
| Scan.FinishScan | backend/app/tasks/scan_website.py:77-248 | after the crawl, the session records the pages found and the end time, then completes with the counters, or fails with the message after the faulting page |
| Scan.ScanWebsite | backend/app/tasks/scan_website.py:38-253 | with no session, the `AttributeError` of the handler escapes; otherwise the scan records both times and the crawl's pages, then completes with the counters, or fails with the message after the faulting page |
| Report.TypeNamesCoverTypes | backend/app/services/report_generator.py:243-249 | the type names are keyed by exactly the five type values |
| Report.SeverityNamesCoverSeverities | backend/app/services/report_generator.py:251-256 | the severity names are keyed by exactly the four severity values |
| Report.StatusText | backend/app/services/report_generator.py:282 | the display name of a known status, otherwise the status itself |
| Report.StatusTextNamesEveryStatus | backend/app/services/report_generator.py:258-263 | every session status has a display name different from its raw value |
| Report.StatusNamesKeyedByStatuses | backend/app/services/report_generator.py:258-263 | every key of the status names is a status value |
| Report.Bump | backend/app/services/report_generator.py:307-309 | `d[k] = d.get(k, 0) + 1` adds one for `k` and changes no other key |
| Report.AllErrorsAreSaved | backend/app/services/report_generator.py:301-302 | the findings the report walks are as many as the scan stored |
| Report.TalliesGrow | backend/app/services/report_generator.py:301-309 | counting one more finding keeps both tallies exact |
| Report.TalliesDetermineSeverities | backend/app/services/report_generator.py:294-311 | the tally is determined by the findings |
| Report.SeverityCountsSum | backend/app/services/report_generator.py:307 | the severity counts add up to the number of findings |
| Report.KindCountsSum | backend/app/services/report_generator.py:309 | the type counts add up to the number of findings |
| Report.CountFindings | backend/app/services/report_generator.py:301-309 | counting one page's findings on top of the counts so far gives the exact critical count and tallies of all findings seen |
| Report.CalculateStats | backend/app/services/report_generator.py:294-311 | per severity and per type, the count of findings, a key present exactly when positive; `critical` is the critical count |
| Report.ReportAgreesWithCounter | backend/app/services/report_generator.py:294-311 | for a completed scan's pages, the severity counts add up to the task's `errors_found` |
| Report.PagesWithErrors | backend/app/services/report_generator.py:271 | exactly the pages that have findings |
| Report.PagesWithErrorsKeepAllErrors | backend/app/services/report_generator.py:271 | leaving out pages without findings loses no finding and keeps their order |
| Report.PagesWithErrorsIdempotent | backend/app/services/report_generator.py:271 | selecting again selects the same pages |
| Report.GenerateHtmlReport | backend/app/services/report_generator.py:265-286 | the template gets the exact tallies, the pages with findings, the name tables and the status's display name |

## Left out

- The HTML parser (BeautifulSoup) is a parameter.
  - A page arrives as a `Document`: its title tag, anchors, meta values and
    text extractions.
  - Script and style removal and `get_text` are therefore not modelled.
- Regular-expression search is a parameter where the code only iterates
  over matches.
  - This covers the address detection patterns and the plain-text phone
    patterns. Both arrive as match spans.
  - The canonical address patterns, the issue checks, the phone shapes and
    the seven rewrites are modelled in full.
  - Regex `\d` is taken as ASCII digits. `re.IGNORECASE` is modelled
    through `Lower` on the Latin and Cyrillic letters the patterns use.
- Text.LowerStr: case folding covers the Latin and Cyrillic capitals only.
  Python's `str.lower()` lowers every cased Unicode letter and can lengthen
  a string (`İ` becomes two characters). Here other letters are kept, and
  the length is always kept.
- Spelling.WhitelistedIff: the whitelist test ignores case for Latin and
  Cyrillic letters only, because it rests on `Text.LowerStr`. A whitelist
  word `Ä` does not suppress a match whose context is `ä`, where Python's
  `lower()` would.
- `urljoin` is a parameter (`join`). The `urlsplit` cache and the stripping
  of C0 controls and white space by `urlsplit` are not modelled. Nor is
  the removal of every tab, CR and LF anywhere in the URL that `urlsplit`
  does first, so `http://h/a\nb` keeps its line feed in the key here.
  Nor is IPv6 bracket validation.
- Network requests are parameters mapping a URL to a reply: page GETs, link
  HEADs, the favicon HEAD (`head` in Seo.CheckPage) and the robots.txt GET.
  Timeouts, redirects and connection reuse are not modelled.
- LanguageTool is a parameter (`Engine`), and so is whether it starts.
  `print` calls and `__exit__` (closing the engine) are not modelled.
- `SpellCheckerService.check_page` is not a separate member. It only
  forwards to `check_text`, which `SpellChecker.CheckText` models.
- Scan.ScanWebsite: the task is modelled against checker functions
  (`Checkers`), not by calling the checker models. This keeps each proof
  small. The link between them is the checkers' own models above.
- Scan.ProcessPages: the page checks are an abstract `check` function. The
  scan passes `PageCheck`, which is `Scan.CheckPage`'s specification.
- Scan.ScanWebsite: the Celery `on_failure` hook and `update_state` are not
  modelled, and neither are the database session and its commits.
  - A fault is a parameter: the index of the page whose checks raise, and
    the message.
  - Timestamps are integers given as parameters.
- Preferences hold only booleans, integers and lists. Other JSON values
  would change Python truthiness and are not modelled.
- The asyncio scheduling of `crawl_recursive` is a scheduler sequence that
  picks the next step. Steps run atomically between `await` points, as the
  single-threaded event loop does. `return_exceptions=True` has no
  counterpart, because no step raises.
- The Jinja template, the HTML it renders, `generate_pdf_report`
  (WeasyPrint) and the `now` timestamp are not modelled. `ReportData` is
  what the template receives.
- The PDF and HTML API endpoints and the other CRUD routes are not part of
  this model.
- Crawler.Crawler.Crawl: the result is stated as bounded, duplicate-free,
  within depth and fetched from the web. It does not state that every
  reachable page is reached: which pages are reached depends on the
  schedule and on the budget cut-off.

## Findings

| source | as written | input that shows it | evidently intended | confidence | as-written member | corrected member |
|---|---|---|---|---|---|---|
| backend/app/services/crawler.py:20-24 | `normalize_url` uses `urlparse`, which cuts `;params` off the last path segment, so normalising is not idempotent and distinct pages share a key | `http://h/a;b/` normalises to `http://h/a;b`, which normalises to `http://h/a` | a key that drops only the fragment, query and trailing slash (as with `urlsplit`), idempotent | not executed | Urls.NormalizeUrlNotIdempotent | Urls.NormalizeKeyIdempotent |
| backend/app/services/crawler.py:85-86 | `title_tag.string.strip()` raises when `<title>` has no single string; the page is recorded with status 0 and no links | a 200 page whose body has `<title></title>` | the same guard as `seo_checker.py` line 112: no title, page kept | not executed | Crawler.EmptyTitleLosesPage | Crawler.Fetch |
| backend/app/services/seo_checker.py:73 | the "blocked for all robots" test looks for the two substrings anywhere in the file | `User-agent: *` then `Disallow: /admin` is reported as a critical block | a `User-agent: *` line and a `Disallow: /` line | not executed | Seo.BlockedOverMatches | Seo.BlockedNarrowsAsWritten |
| backend/app/services/spell_checker.py:97-101 | `continue` in the `except` skips `offset += len(chunk)`, so findings after a failed chunk point too early | a 40000-character text whose first chunk's check raises: a match at the start of the second chunk is reported at offset 0 | every chunk advances the offset | not executed | Spelling.AsWrittenOffsetSkipsRaisedChunk | Spelling.OffsetsPointIntoText |
| backend/app/tasks/scan_website.py:51-53 | the `ValueError` for a missing session is caught at line 246, where `scan_session.status` on `None` raises `AttributeError` instead | any id with no session | the `ValueError` naming the session reaches the caller | not executed | Scan.MissingSessionErrorMasked | Scan.MissingSessionOutcomeNamesSession |
