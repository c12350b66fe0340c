/** backend/app/services/spell_checker.py: cleaning a page's text, cutting it
    into chunks the grammar engine accepts, and turning the engine's matches
    into findings with offsets into the cleaned text. The engine itself
    (LanguageTool) is an oracle: a function from a chunk to its matches, or to
    the exception its check raised. */
module Spelling {
  import opened Text

  // ---------------------------------------------------------------------
  // Cleaning

  /** White space at `i` and at `i + 1`. */
  predicate DoubleSpaceAt(s: string, i: nat)
  {
    i + 1 < |s| && IsSpace(s[i]) && IsSpace(s[i + 1])
  }

  /** Every white-space character is a plain space and no two are adjacent. */
  predicate SingleSpaced(s: string)
  {
    (forall i :: 0 <= i < |s| && IsSpace(s[i]) ==> s[i] == ' ')
    && forall i :: 0 <= i < |s| ==> !DoubleSpaceAt(s, i)
  }

  /** `re.sub(r'\s+', ' ', s)`: each run of white space becomes one space. */
  function Collapse(s: string): (r: string)
    ensures s == [] <==> r == []
    ensures s != [] ==> (IsSpace(r[0]) <==> IsSpace(s[0]))
    ensures s != [] && IsSpace(s[0]) ==> r[0] == ' '
    decreases |s|
  {
    if s == [] then []
    else if IsSpace(s[0]) then [' '] + Collapse(LStripSpace(s[1..]))
    else [s[0]] + Collapse(s[1..])
  }

  /** Putting a character in front of a single-spaced string keeps it so when
      the character is a plain space followed by no white space, or not white
      space at all. */
  lemma ConsSingleSpaced(c: char, t: string)
    requires SingleSpaced(t)
    requires IsSpace(c) ==> c == ' ' && (t == [] || !IsSpace(t[0]))
    ensures SingleSpaced([c] + t)
  {
    var r := [c] + t;
    forall i | 0 <= i < |r|
      ensures !DoubleSpaceAt(r, i) && (IsSpace(r[i]) ==> r[i] == ' ')
    {
      if i > 0 {
        assert r[i] == t[i - 1];
        assert !DoubleSpaceAt(t, i - 1);
      }
    }
  }

  /** Collapsing leaves every white-space run a single plain space. */
  lemma {:induction false} CollapseSingleSpaced(s: string)
    ensures SingleSpaced(Collapse(s))
    decreases |s|
  {
    if s != [] {
      if IsSpace(s[0]) {
        CollapseSingleSpaced(LStripSpace(s[1..]));
        ConsSingleSpaced(' ', Collapse(LStripSpace(s[1..])));
      } else {
        CollapseSingleSpaced(s[1..]);
        ConsSingleSpaced(s[0], Collapse(s[1..]));
      }
    }
  }

  /** The characters of `s` that are not white space, in order. */
  function Visible(s: string): string
  {
    if s == [] then [] else (if IsSpace(s[0]) then [] else [s[0]]) + Visible(s[1..])
  }

  lemma {:induction false} VisibleAppend(a: string, b: string)
    ensures Visible(a + b) == Visible(a) + Visible(b)
  {
    if a != [] {
      assert (a + b)[0] == a[0] && (a + b)[1..] == a[1..] + b;
      VisibleAppend(a[1..], b);
      var head := if IsSpace(a[0]) then [] else [a[0]];
      assert Visible(a + b) == head + (Visible(a[1..]) + Visible(b));
      assert Visible(a) == head + Visible(a[1..]);
      assert head + (Visible(a[1..]) + Visible(b)) == (head + Visible(a[1..])) + Visible(b);
    } else {
      assert a + b == b;
    }
  }

  /** A run of white space has nothing visible. */
  lemma {:induction false} VisibleOfSpaces(s: string)
    requires forall i :: 0 <= i < |s| ==> IsSpace(s[i])
    ensures Visible(s) == []
  {
    if s != [] {
      VisibleOfSpaces(s[1..]);
    }
  }

  /** Stripping leading white space keeps every visible character. */
  lemma VisibleLStrip(s: string)
    ensures Visible(LStripSpace(s)) == Visible(s)
  {
    var r := LStripSpace(s);
    var cut := s[..|s| - |r|];
    assert s == cut + r;
    LStripAllSpace(s);
    VisibleOfSpaces(cut);
    VisibleAppend(cut, r);
  }

  lemma VisibleRStrip(s: string)
    ensures Visible(RStripSpace(s)) == Visible(s)
  {
    var r := RStripSpace(s);
    var cut := s[|r|..];
    assert s == r + cut;
    RStripAllSpace(s);
    VisibleOfSpaces(cut);
    VisibleAppend(r, cut);
  }

  /** Collapsing keeps every visible character, in order. */
  lemma {:induction false} CollapseKeepsVisible(s: string)
    ensures Visible(Collapse(s)) == Visible(s)
    decreases |s|
  {
    if s != [] {
      var r := Collapse(s);
      if IsSpace(s[0]) {
        var rest := LStripSpace(s[1..]);
        CollapseKeepsVisible(rest);
        VisibleLStrip(s[1..]);
        assert r == [' '] + Collapse(rest);
        assert r[1..] == Collapse(rest);
      } else {
        CollapseKeepsVisible(s[1..]);
        assert r[1..] == Collapse(s[1..]);
      }
    }
  }

  /** Collapsing a string that ends with a visible character ends with that
      character. */
  lemma {:induction false} CollapseLast(s: string)
    requires s != [] && !IsSpace(s[|s| - 1])
    ensures Collapse(s) != [] && Collapse(s)[|Collapse(s)| - 1] == s[|s| - 1]
    decreases |s|
  {
    if IsSpace(s[0]) {
      assert s[1..] + [] == s[1..];
      LStripAppend(s[1..], []);
      CollapseLast(LStripSpace(s[1..]));
    } else if |s| > 1 {
      CollapseLast(s[1..]);
    }
  }

  /** No white-space run crosses the end of `a` when `a` ends with a visible
      character, so the two halves collapse apart. */
  lemma {:induction false} CollapseAppend(a: string, b: string)
    requires a == [] || !IsSpace(a[|a| - 1])
    ensures Collapse(a + b) == Collapse(a) + Collapse(b)
    decreases |a|
  {
    if a == [] {
      assert a + b == b;
    } else if IsSpace(a[0]) {
      LStripAppend(a[1..], b);
      CollapseAppend(LStripSpace(a[1..]), b);
      HeadTail(a);
      CollapseAppendSpace(a[0], a[1..], b);
    } else {
      CollapseAppend(a[1..], b);
      HeadTail(a);
      CollapseAppendVisible(a[0], a[1..], b);
    }
  }

  /** One step of `Collapse` on a leading white-space character. */
  lemma CollapseSpaceHead(c: char, t: string)
    requires IsSpace(c)
    ensures Collapse([c] + t) == [' '] + Collapse(LStripSpace(t))
  {
    assert ([c] + t)[1..] == t;
  }

  /** The step of `CollapseAppend` on a leading white-space character: the
      run it starts ends inside `a`. */
  lemma CollapseAppendSpace(c: char, t: string, b: string)
    requires IsSpace(c)
    requires LStripSpace(t + b) == LStripSpace(t) + b
    requires Collapse(LStripSpace(t) + b) == Collapse(LStripSpace(t)) + Collapse(b)
    ensures Collapse([c] + t + b) == Collapse([c] + t) + Collapse(b)
  {
    var x, y := Collapse(LStripSpace(t)), Collapse(b);
    CollapseSpaceHead(c, t + b);
    CollapseSpaceHead(c, t);
    AppendAssoc([c], t, b);
    AppendAssoc([' '], x, y);
  }

  /** The step of `CollapseAppend` on a leading visible character. */
  lemma CollapseAppendVisible(c: char, t: string, b: string)
    requires !IsSpace(c)
    requires Collapse(t + b) == Collapse(t) + Collapse(b)
    ensures Collapse([c] + t + b) == Collapse([c] + t) + Collapse(b)
  {
    var x, y := Collapse(t), Collapse(b);
    CollapseCons(c, t + b);
    CollapseCons(c, t);
    AppendAssoc([c], t, b);
    AppendAssoc([c], x, y);
  }

  /** Collapsing keeps words apart: a white-space run between a visible end
      and a visible start becomes exactly one space. */
  lemma CollapseSeparates(a: string, w: string, b: string)
    requires a == [] || !IsSpace(a[|a| - 1])
    requires w != [] && forall i :: 0 <= i < |w| ==> IsSpace(w[i])
    requires b == [] || !IsSpace(b[0])
    ensures Collapse(a + w + b) == Collapse(a) + " " + Collapse(b)
  {
    AppendAssoc(a, w, b);
    CollapseAppend(a, w + b);
    HeadTail(w);
    AppendAssoc([w[0]], w[1..], b);
    CollapseSpaceHead(w[0], w[1..] + b);
    LStripSpaces(w[1..], b);
    AppendAssoc(Collapse(a), " ", Collapse(b));
  }

  /** A single-spaced string collapses to itself. */
  lemma {:induction false} CollapseFixes(s: string)
    requires SingleSpaced(s)
    ensures Collapse(s) == s
    decreases |s|
  {
    if s != [] {
      var tail := s[1..];
      assert SingleSpaced(tail) by {
        SliceSingleSpaced(s, 1, |s|);
        assert s[1..|s|] == tail;
      }
      assert IsSpace(s[0]) ==> s[0] == ' ' && (tail == [] || !IsSpace(tail[0])) by {
        assert !DoubleSpaceAt(s, 0);
      }
      CollapseFixes(tail);
      assert s == [s[0]] + tail;
      CollapseCons(s[0], tail);
    }
  }

  /** One step of `Collapse` on a string whose head is visible, or a plain
      space followed by no white space. */
  lemma CollapseCons(c: char, tail: string)
    requires IsSpace(c) ==> c == ' ' && (tail == [] || !IsSpace(tail[0]))
    ensures Collapse([c] + tail) == [c] + Collapse(tail)
  {
    var s := [c] + tail;
    assert s[1..] == tail;
    if IsSpace(c) {
      assert LStripSpace(tail) == tail;
    }
  }

  /** A slice of a single-spaced string is single-spaced. */
  lemma SliceSingleSpaced(s: string, i: nat, j: nat)
    requires i <= j <= |s| && SingleSpaced(s)
    ensures SingleSpaced(s[i..j])
  {
    var t := s[i..j];
    forall k | 0 <= k < |t|
      ensures !DoubleSpaceAt(t, k)
    {
      assert !DoubleSpaceAt(s, i + k);
    }
  }

  /** `clean_text`: white-space runs collapsed to one space, then stripped. */
  function CleanText(s: string): (r: string)
    ensures r == [] || (!IsSpace(r[0]) && !IsSpace(r[|r| - 1]))
    ensures SingleSpaced(r)
  {
    CollapseSingleSpaced(s);
    StripSingleSpaced(Collapse(s));
    Strip(Collapse(s))
  }

  /** Stripping cuts a slice out, so it keeps a text single-spaced. */
  lemma StripSingleSpaced(c: string)
    requires SingleSpaced(c)
    ensures SingleSpaced(Strip(c))
  {
    var l := LStripSpace(c);
    SliceSingleSpaced(c, |c| - |l|, |c|);
    assert c[|c| - |l|..|c|] == l;
    SliceSingleSpaced(l, 0, |RStripSpace(l)|);
  }

  /** Cleaning drops white space only: the visible text is kept, in order. */
  lemma CleanKeepsVisible(s: string)
    ensures Visible(CleanText(s)) == Visible(s)
  {
    var c := Collapse(s);
    CollapseKeepsVisible(s);
    VisibleLStrip(c);
    VisibleRStrip(LStripSpace(c));
  }

  /** Cleaning keeps words apart: two texts with visible characters where
      they meet, separated by white space, clean to their cleaned forms
      joined by one space. */
  lemma CleanSeparates(a: string, w: string, b: string)
    requires a != [] && !IsSpace(a[|a| - 1])
    requires w != [] && forall i :: 0 <= i < |w| ==> IsSpace(w[i])
    requires b != [] && !IsSpace(b[0])
    ensures CleanText(a + w + b) == CleanText(a) + " " + CleanText(b)
  {
    var ca, cb := Collapse(a), Collapse(b);
    CollapseSeparates(a, w, b);
    CollapseLast(a);
    AppendAssoc(ca, " ", cb);
    LStripAppend(ca, " " + cb);
    var la := LStripSpace(ca);
    AppendAssoc(la, " ", cb);
    RStripAppend(la + " ", cb);
    AppendAssoc(la, " ", RStripSpace(cb));
    assert LStripSpace(cb) == cb;
    assert RStripSpace(la) == la;
  }

  /** Cleaning twice is cleaning once. */
  lemma CleanIdempotent(s: string)
    ensures CleanText(CleanText(s)) == CleanText(s)
  {
    var t := CleanText(s);
    CollapseFixes(t);
    if t != [] {
      StripTrimmed(t);
    }
  }

  // ---------------------------------------------------------------------
  // Chunks

  /** The longest text sent to the engine in one call. */
  const MaxLength: nat := 20000

  /** `[s[i:i+n] for i in range(0, len(s), n)]`. */
  function SplitEvery(s: string, n: nat): (r: seq<string>)
    requires n > 0
    ensures forall k :: 0 <= k < |r| ==> 0 < |r[k]| <= n
    decreases |s|
  {
    if s == [] then [] else if |s| <= n then [s] else [s[..n]] + SplitEvery(s[n..], n)
  }

  /** The pieces put back together are the text. */
  lemma {:induction false} SplitEveryConcat(s: string, n: nat)
    requires n > 0
    ensures Concat(SplitEvery(s, n)) == s
    decreases |s|
  {
    if |s| > n {
      var r := SplitEvery(s, n);
      SplitEveryConcat(s[n..], n);
      assert r[1..] == SplitEvery(s[n..], n);
      assert s == s[..n] + s[n..];
    } else if s != [] {
      assert Concat([s][1..]) == [];
    }
  }

  /** The chunks `check_text` sends: the whole text when it fits, otherwise
      consecutive slices of `MaxLength` characters. */
  function ChunksOf(t: string): seq<string>
  {
    if |t| > MaxLength then SplitEvery(t, MaxLength) else [t]
  }

  /** Every chunk fits, a text that fits is one chunk, and the chunks put
      back together are the text. */
  lemma ChunksCover(t: string)
    ensures forall k :: 0 <= k < |ChunksOf(t)| ==> |ChunksOf(t)[k]| <= MaxLength
    ensures |t| <= MaxLength ==> ChunksOf(t) == [t]
    ensures Concat(ChunksOf(t)) == t
  {
    if |t| > MaxLength {
      SplitEveryConcat(t, MaxLength);
    } else {
      assert Concat([t][1..]) == [];
    }
  }

  /** Where chunk `k` starts: the lengths of the chunks before it. */
  function Start(chunks: seq<string>, k: nat): nat
    requires k <= |chunks|
  {
    if k == 0 then 0 else Start(chunks, k - 1) + |chunks[k - 1]|
  }

  lemma {:induction false} StartIsPrefixLength(chunks: seq<string>, k: nat)
    requires k <= |chunks|
    ensures Start(chunks, k) == |Concat(chunks[..k])|
  {
    if k > 0 {
      StartIsPrefixLength(chunks, k - 1);
      assert chunks[..k] == chunks[..k - 1] + [chunks[k - 1]];
      ConcatSnoc(chunks[..k - 1], chunks[k - 1]);
    }
  }

  /** Chunk `k` sits in the text right after the chunks before it. */
  lemma {:induction false} ChunkInPlace(chunks: seq<string>, k: nat)
    requires k < |chunks|
    ensures var start := |Concat(chunks[..k])|;
            start + |chunks[k]| <= |Concat(chunks)|
            && Concat(chunks)[start..start + |chunks[k]|] == chunks[k]
    decreases k
  {
    var all := Concat(chunks);
    if k == 0 {
      assert all == chunks[0] + Concat(chunks[1..]);
    } else {
      var tail := chunks[1..];
      ChunkInPlace(tail, k - 1);
      assert chunks[..k] == [chunks[0]] + tail[..k - 1];
      assert Concat(chunks[..k]) == chunks[0] + Concat(tail[..k - 1]);
      assert all == chunks[0] + Concat(tail);
      var start := |Concat(tail[..k - 1])|;
      assert all[|chunks[0]| + start..|chunks[0]| + start + |chunks[k]|]
          == Concat(tail)[start..start + |chunks[k]|];
    }
  }

  // ---------------------------------------------------------------------
  // The engine

  /** One match the engine reports: where it is in the chunk, how long, and
      what it says. */
  datatype EngineMatch = EngineMatch(
    offset: nat,
    errorLength: nat,
    message: string,
    replacements: seq<string>,
    context: string,
    ruleId: string,
    category: string)

  /** What checking one chunk gives: its matches, or the exception the check raised. */
  datatype Outcome = Raised | Matches(matches: seq<EngineMatch>)

  type Engine = string -> Outcome

  /** One finding of `check_text`. */
  datatype SpellError = SpellError(
    message: string,
    context: string,
    suggestion: Option<string>,
    offset: nat,
    length: nat,
    ruleId: string,
    category: string)

  /** `[w.lower() for w in whitelist]`. */
  function LowerAll(words: seq<string>): (r: seq<string>)
    ensures |r| == |words| && forall k :: 0 <= k < |r| ==> r[k] == LowerStr(words[k])
  {
    seq(|words|, k requires 0 <= k < |words| => LowerStr(words[k]))
  }

  /** A match is ignored when its context, lower-cased, is a whitelisted word. */
  predicate Whitelisted(m: EngineMatch, whitelist: seq<string>)
  {
    LowerStr(m.context) in LowerAll(whitelist)
  }

  /** Whitelisting compares without regard to case, in both directions. */
  lemma WhitelistedIff(m: EngineMatch, whitelist: seq<string>)
    ensures Whitelisted(m, whitelist) <==> exists w :: w in whitelist && LowerStr(w) == LowerStr(m.context)
  {
    if Whitelisted(m, whitelist) {
      var k :| 0 <= k < |whitelist| && LowerAll(whitelist)[k] == LowerStr(m.context);
      assert whitelist[k] in whitelist;
    }
    if exists w :: w in whitelist && LowerStr(w) == LowerStr(m.context) {
      var w :| w in whitelist && LowerStr(w) == LowerStr(m.context);
      var k :| 0 <= k < |whitelist| && whitelist[k] == w;
      assert LowerAll(whitelist)[k] == LowerStr(m.context);
    }
  }

  /** `chunk[max(0, off - 50):min(len(chunk), off + errorLength + 50)]`. */
  function ContextOf(chunk: string, m: EngineMatch): (r: string)
    ensures m.offset + m.errorLength <= |chunk| ==>
              Contains(r, chunk[m.offset..m.offset + m.errorLength]) && |r| <= m.errorLength + 100
  {
    if m.offset + m.errorLength <= |chunk| then
      WindowContainsMatch(chunk, m.offset, m.offset + m.errorLength, 50);
      var w := Window(chunk, m.offset, m.offset + m.errorLength, 50);
      var k := m.offset - Max(0, m.offset - 50);
      assert OccursAt(w, chunk[m.offset..m.offset + m.errorLength], k);
      w
    else
      Slice(chunk, Max(0, m.offset - 50), Min(|chunk|, m.offset + m.errorLength + 50))
  }

  /** `', '.join(replacements[:3])`, or nothing when there are none. */
  function SuggestionOf(replacements: seq<string>): Option<string>
  {
    if replacements == [] then None else Some(Join(", ", replacements[..Min(3, |replacements|)]))
  }

  /** There is a suggestion exactly when there are replacements, and it
      names each of the first three. */
  lemma SuggestionNamesFirstThree(replacements: seq<string>, k: nat)
    requires k < Min(3, |replacements|)
    ensures SuggestionOf(replacements).Some?
    ensures Contains(SuggestionOf(replacements).value, replacements[k])
  {
    var firsts := replacements[..Min(3, |replacements|)];
    var i := JoinContains(", ", firsts, k);
    assert OccursAt(Join(", ", firsts), replacements[k], i);
  }

  /** The finding for a match in a chunk that starts at `base` in the text. */
  function ErrorOf(chunk: string, m: EngineMatch, base: nat): SpellError
  {
    SpellError(m.message, ContextOf(chunk, m), SuggestionOf(m.replacements), base + m.offset,
               m.errorLength, m.ruleId, m.category)
  }

  /** The findings for the first `j` matches of a chunk: one per match that
      is not whitelisted, in order. */
  function MatchErrors(chunk: string, ms: seq<EngineMatch>, whitelist: seq<string>, base: nat, j: nat): seq<SpellError>
    requires j <= |ms|
  {
    FilterMap(ms, m => Whitelisted(m, whitelist), m => ErrorOf(chunk, m, base), j)
  }

  lemma MatchErrorsNext(chunk: string, ms: seq<EngineMatch>, whitelist: seq<string>, base: nat, j: nat)
    requires j < |ms|
    ensures MatchErrors(chunk, ms, whitelist, base, j + 1)
            == MatchErrors(chunk, ms, whitelist, base, j)
               + (if Whitelisted(ms[j], whitelist) then [] else [ErrorOf(chunk, ms[j], base)])
  {
  }

  /** Every match that is not whitelisted gives its finding, and every
      finding comes from such a match. */
  lemma MatchErrorsExact(chunk: string, ms: seq<EngineMatch>, whitelist: seq<string>, base: nat)
    ensures forall i :: 0 <= i < |ms| && !Whitelisted(ms[i], whitelist) ==>
              ErrorOf(chunk, ms[i], base) in MatchErrors(chunk, ms, whitelist, base, |ms|)
    ensures forall e :: e in MatchErrors(chunk, ms, whitelist, base, |ms|) ==>
              exists i :: 0 <= i < |ms| && !Whitelisted(ms[i], whitelist) && e == ErrorOf(chunk, ms[i], base)
  {
    FilterMapExact(ms, m => Whitelisted(m, whitelist), m => ErrorOf(chunk, m, base), |ms|);
  }

  /** The findings of one chunk: none when its check raised. */
  function ChunkErrors(chunk: string, outcome: Outcome, whitelist: seq<string>, base: nat): seq<SpellError>
  {
    match outcome
    case Raised => []
    case Matches(ms) => MatchErrors(chunk, ms, whitelist, base, |ms|)
  }

  /** The findings of the first `k` chunks, each chunk's offsets counted from
      where the chunk starts in the text. */
  function CheckedChunks(chunks: seq<string>, engine: Engine, whitelist: seq<string>, k: nat): seq<SpellError>
    requires k <= |chunks|
  {
    if k == 0 then []
    else
      CheckedChunks(chunks, engine, whitelist, k - 1)
      + ChunkErrors(chunks[k - 1], engine(chunks[k - 1]), whitelist, Start(chunks, k - 1))
  }

  /** What `check_text` is meant to find in `text` with a working engine:
      every chunk, raised or not, advances the offset. */
  function CheckedText(text: string, whitelist: seq<string>, engine: Engine): (r: seq<SpellError>)
    ensures |CleanText(text)| < 3 ==> r == []
  {
    var t := CleanText(text);
    if |t| < 3 then [] else CheckedChunks(ChunksOf(t), engine, whitelist, |ChunksOf(t)|)
  }

  /** Finding `e` selects in `t` the text match `m` selects in `chunk`. */
  predicate PointsAt(t: string, e: SpellError, chunk: string, m: EngineMatch)
  {
    e.offset + e.length <= |t| && m.offset + m.errorLength <= |chunk|
    && t[e.offset..e.offset + e.length] == chunk[m.offset..m.offset + m.errorLength]
  }

  /** Each finding points at the flagged text in the cleaned text: the match
      `j` of chunk `k`, when it lies inside its chunk and is not whitelisted,
      is reported, and its offset and length select in the cleaned text what
      the match selects in the chunk. */
  lemma {:induction false} OffsetsPointIntoText(text: string, whitelist: seq<string>, engine: Engine, k: nat, j: nat)
    requires var t := CleanText(text); |t| >= 3 && k < |ChunksOf(t)|
    requires var chunk := ChunksOf(CleanText(text))[k];
             engine(chunk).Matches? && j < |engine(chunk).matches|
             && engine(chunk).matches[j].offset + engine(chunk).matches[j].errorLength <= |chunk|
             && !Whitelisted(engine(chunk).matches[j], whitelist)
    ensures var t := CleanText(text);
            var chunks := ChunksOf(t);
            var m := engine(chunks[k]).matches[j];
            var e := ErrorOf(chunks[k], m, Start(chunks, k));
            e in CheckedText(text, whitelist, engine) && PointsAt(t, e, chunks[k], m)
  {
    CheckedTextOfChunks(text, whitelist, engine);
    ChunkMatchInText(CleanText(text), whitelist, engine, k, j);
  }

  lemma CheckedTextOfChunks(text: string, whitelist: seq<string>, engine: Engine)
    requires |CleanText(text)| >= 3
    ensures var chunks := ChunksOf(CleanText(text));
            CheckedText(text, whitelist, engine) == CheckedChunks(chunks, engine, whitelist, |chunks|)
  {
  }

  /** `OffsetsPointIntoText` for the findings of the chunks of any text `t`. */
  lemma ChunkMatchInText(t: string, whitelist: seq<string>, engine: Engine, k: nat, j: nat)
    requires k < |ChunksOf(t)|
    requires var chunk := ChunksOf(t)[k];
             engine(chunk).Matches? && j < |engine(chunk).matches|
             && engine(chunk).matches[j].offset + engine(chunk).matches[j].errorLength <= |chunk|
             && !Whitelisted(engine(chunk).matches[j], whitelist)
    ensures var chunks := ChunksOf(t);
            var m := engine(chunks[k]).matches[j];
            var e := ErrorOf(chunks[k], m, Start(chunks, k));
            e in CheckedChunks(chunks, engine, whitelist, |chunks|) && PointsAt(t, e, chunks[k], m)
  {
    var chunks := ChunksOf(t);
    var m := engine(chunks[k]).matches[j];
    var e := ErrorOf(chunks[k], m, Start(chunks, k));
    MatchIsReported(chunks, engine, whitelist, k, j);
    MatchInText(t, k, m.offset, m.errorLength);
    assert e.offset == Start(chunks, k) + m.offset && e.length == m.errorLength;
  }

  lemma SliceOfSlice(t: string, a: nat, b: nat, o: nat, len: nat)
    requires a <= b <= |t| && o + len <= b - a
    ensures t[a + o..a + o + len] == t[a..b][o..o + len]
  {
    var u := t[a..b];
    var v := u[o..o + len];
    var w := t[a + o..a + o + len];
    assert forall i :: 0 <= i < len ==> v[i] == w[i];
  }

  /** A match that is not whitelisted is reported. */
  lemma MatchIsReported(chunks: seq<string>, engine: Engine, whitelist: seq<string>, k: nat, j: nat)
    requires k < |chunks|
    requires engine(chunks[k]).Matches? && j < |engine(chunks[k]).matches|
    requires !Whitelisted(engine(chunks[k]).matches[j], whitelist)
    ensures ErrorOf(chunks[k], engine(chunks[k]).matches[j], Start(chunks, k))
            in CheckedChunks(chunks, engine, whitelist, |chunks|)
  {
    var ms := engine(chunks[k]).matches;
    var base := Start(chunks, k);
    var e := ErrorOf(chunks[k], ms[j], base);
    var own := MatchErrors(chunks[k], ms, whitelist, base, |ms|);
    MatchErrorsExact(chunks[k], ms, whitelist, base);
    assert e in own;
    ChunkErrorIsChecked(chunks, engine, whitelist, k, e);
  }

  /** A finding of chunk `k` is among the findings of all chunks. */
  lemma ChunkErrorIsChecked(chunks: seq<string>, engine: Engine, whitelist: seq<string>, k: nat, e: SpellError)
    requires k < |chunks| && e in ChunkErrors(chunks[k], engine(chunks[k]), whitelist, Start(chunks, k))
    ensures e in CheckedChunks(chunks, engine, whitelist, |chunks|)
  {
    assert e in CheckedChunks(chunks, engine, whitelist, k + 1);
    CheckedChunksKeep(chunks, engine, whitelist, k + 1, |chunks|, e);
  }

  /** The text at chunk `k`'s start plus `o` is what the chunk has at `o`. */
  lemma MatchInText(t: string, k: nat, o: nat, len: nat)
    requires k < |ChunksOf(t)| && o + len <= |ChunksOf(t)[k]|
    ensures var chunks := ChunksOf(t);
            var base := Start(chunks, k);
            base + o + len <= |t| && t[base + o..base + o + len] == chunks[k][o..o + len]
  {
    var chunks := ChunksOf(t);
    var chunk := chunks[k];
    var base := Start(chunks, k);
    StartIsPrefixLength(chunks, k);
    ChunksCover(t);
    ChunkInPlace(chunks, k);
    assert t[base..base + |chunk|] == chunk;
    SliceOfSlice(t, base, base + |chunk|, o, len);
  }

  /** Later chunks only add findings. */
  lemma {:induction false} CheckedChunksKeep(chunks: seq<string>, engine: Engine, whitelist: seq<string>, k: nat, n: nat,
                                             e: SpellError)
    requires k <= n <= |chunks| && e in CheckedChunks(chunks, engine, whitelist, k)
    ensures e in CheckedChunks(chunks, engine, whitelist, n)
    decreases n - k
  {
    if k < n {
      CheckedChunksKeep(chunks, engine, whitelist, k, n - 1, e);
      var before := CheckedChunks(chunks, engine, whitelist, n - 1);
      var last := ChunkErrors(chunks[n - 1], engine(chunks[n - 1]), whitelist, Start(chunks, n - 1));
      assert CheckedChunks(chunks, engine, whitelist, n) == before + last;
      assert e in before;
    }
  }

  // ---------------------------------------------------------------------
  // The offset as written

  /** The offset `check_text` has reached at chunk `k` as written: only the
      chunks whose check did not raise are counted, because the handler's
      `continue` skips `offset += len(chunk)`. */
  function AsWrittenStart(chunks: seq<string>, engine: Engine, k: nat): (r: nat)
    requires k <= |chunks|
    ensures r <= Start(chunks, k)
  {
    if k == 0 then 0
    else AsWrittenStart(chunks, engine, k - 1) + (if engine(chunks[k - 1]).Raised? then 0 else |chunks[k - 1]|)
  }

  /** The findings of the first `k` chunks as written. */
  function CheckedChunksAsWritten(chunks: seq<string>, engine: Engine, whitelist: seq<string>, k: nat): seq<SpellError>
    requires k <= |chunks|
  {
    if k == 0 then []
    else
      CheckedChunksAsWritten(chunks, engine, whitelist, k - 1)
      + ChunkErrors(chunks[k - 1], engine(chunks[k - 1]), whitelist, AsWrittenStart(chunks, engine, k - 1))
  }

  /** What `check_text` finds in `text` with a working engine, as written. */
  function CheckedTextAsWritten(text: string, whitelist: seq<string>, engine: Engine): (r: seq<SpellError>)
    ensures |CleanText(text)| < 3 ==> r == []
  {
    var t := CleanText(text);
    if |t| < 3 then [] else CheckedChunksAsWritten(ChunksOf(t), engine, whitelist, |ChunksOf(t)|)
  }

  /** Until a chunk's check raises, the offsets as written are the chunks'
      true starts, so the findings are the same. */
  lemma {:induction false} AsWrittenAgreesWithoutRaise(chunks: seq<string>, engine: Engine, whitelist: seq<string>,
                                                       k: nat)
    requires k <= |chunks|
    requires forall i :: 0 <= i < k ==> engine(chunks[i]).Matches?
    ensures AsWrittenStart(chunks, engine, k) == Start(chunks, k)
    ensures CheckedChunksAsWritten(chunks, engine, whitelist, k) == CheckedChunks(chunks, engine, whitelist, k)
  {
    if k > 0 {
      AsWrittenAgreesWithoutRaise(chunks, engine, whitelist, k - 1);
      assert !engine(chunks[k - 1]).Raised?;
      assert AsWrittenStart(chunks, engine, k) == AsWrittenStart(chunks, engine, k - 1) + |chunks[k - 1]|;
    }
  }

  /** When no chunk's check raises, `check_text` as written reports what the
      corrected count reports, so every finding points into the text. */
  lemma AsWrittenTextAgreesWithoutRaise(text: string, whitelist: seq<string>, engine: Engine)
    requires forall k :: 0 <= k < |ChunksOf(CleanText(text))| ==> engine(ChunksOf(CleanText(text))[k]).Matches?
    ensures CheckedTextAsWritten(text, whitelist, engine) == CheckedText(text, whitelist, engine)
  {
    var chunks := ChunksOf(CleanText(text));
    AsWrittenAgreesWithoutRaise(chunks, engine, whitelist, |chunks|);
  }

  /** When the first chunk's check raises, a match at the very start of the
      second chunk is reported as written at offset 0, though it lies at
      offset 20000 of the cleaned text; counting every chunk reports it there. */
  lemma AsWrittenOffsetSkipsRaisedChunk(chunks: seq<string>, engine: Engine, m: EngineMatch)
    requires |chunks| == 2 && |chunks[0]| == MaxLength
    requires engine(chunks[0]).Raised? && engine(chunks[1]) == Matches([m])
    requires m.offset == 0 && m.errorLength <= |chunks[1]| && !Whitelisted(m, [])
    ensures CheckedChunksAsWritten(chunks, engine, [], 2)[0].offset == 0
    ensures CheckedChunks(chunks, engine, [], 2)[0].offset == MaxLength
    ensures var t := Concat(chunks);
            MaxLength + m.errorLength <= |t| && t[MaxLength..MaxLength + m.errorLength] == chunks[1][..m.errorLength]
  {
    assert chunks[..1] == [chunks[0]];
    assert Concat([chunks[0]]) == chunks[0] + Concat([]);
    ChunkInPlace(chunks, 1);
    assert ChunkErrors(chunks[0], engine(chunks[0]), [], 0) == [];
    assert CheckedChunks(chunks, engine, [], 1) == [];
    assert CheckedChunksAsWritten(chunks, engine, [], 0) == [];
    assert CheckedChunksAsWritten(chunks, engine, [], 1) == [];
    assert AsWrittenStart(chunks, engine, 1) == 0;
    MatchErrorsNext(chunks[1], [m], [], 0, 0);
    MatchErrorsNext(chunks[1], [m], [], MaxLength, 0);
    var t := Concat(chunks);
    assert t[MaxLength..MaxLength + |chunks[1]|] == chunks[1];
    assert t[MaxLength..MaxLength + m.errorLength] == chunks[1][..m.errorLength];
  }

  // ---------------------------------------------------------------------
  // The service

  /** The outer loop of `check_text`: each chunk checked in turn; a chunk
      whose check raised is skipped together with its offset update. */
  method ChunkFindings(chunks: seq<string>, engine: Engine, whitelist: seq<string>) returns (errors: seq<SpellError>)
    ensures errors == CheckedChunksAsWritten(chunks, engine, whitelist, |chunks|)
  {
    errors := [];
    var offset := 0;
    var whitelistLower := LowerAll(whitelist);
    for k := 0 to |chunks|
      invariant offset == AsWrittenStart(chunks, engine, k)
      invariant errors == CheckedChunksAsWritten(chunks, engine, whitelist, k)
    {
      var chunk := chunks[k];
      var outcome := engine(chunk);
      if outcome.Raised? {
        assert ChunkErrors(chunk, outcome, whitelist, offset) == [];
        assert errors + [] == errors;
        continue;
      }
      var found := MatchFindings(chunk, outcome.matches, whitelist, whitelistLower, offset);
      assert found == ChunkErrors(chunk, outcome, whitelist, offset);
      errors := errors + found;
      offset := offset + |chunk|;
    }
  }

  /** The inner loop of `check_text`: one finding per match of a chunk that
      is not whitelisted, in order; `whitelistLower` is the lower-cased
      whitelist. */
  method MatchFindings(chunk: string, ms: seq<EngineMatch>, whitelist: seq<string>, whitelistLower: seq<string>,
                       offset: nat) returns (found: seq<SpellError>)
    requires whitelistLower == LowerAll(whitelist)
    ensures found == MatchErrors(chunk, ms, whitelist, offset, |ms|)
  {
    found := [];
    for j := 0 to |ms|
      invariant found == MatchErrors(chunk, ms, whitelist, offset, j)
    {
      var m := ms[j];
      MatchErrorsNext(chunk, ms, whitelist, offset, j);
      if LowerStr(m.context) in whitelistLower {
        assert found + [] == found;
        continue;
      }
      found := found + [ErrorOf(chunk, m, offset)];
    }
  }

  class SpellChecker {
    /** `LANGUAGETOOL_ENABLED`, cleared when the engine cannot be started. */
    var enabled: bool
    /** The engine, once started. */
    var tool: Option<Engine>

    constructor(setting: bool)
      ensures enabled == setting && tool == None
    {
      enabled := setting;
      tool := None;
    }

    /** `__enter__`: start the engine when enabled; `load` is the started
        engine, or nothing when starting it raised, in which case checking is
        switched off. */
    method Enter(load: Option<Engine>)
      modifies this
      ensures old(enabled) ==> enabled == load.Some? && tool == load
      ensures !old(enabled) ==> enabled == old(enabled) && tool == old(tool)
    {
      if enabled {
        if load.Some? {
          tool := load;
        } else {
          enabled := false;
          tool := None;
        }
      }
    }

    /** `check_text`: the findings of every chunk, with offsets counted as
        the code counts them. */
    method CheckText(text: string, whitelist: seq<string>) returns (errors: seq<SpellError>)
      ensures errors == if enabled && tool.Some? then CheckedTextAsWritten(text, whitelist, tool.value) else []
    {
      if !enabled || tool.None? {
        return [];
      }
      var engine := tool.value;
      var t := CleanText(text);
      if |t| < 3 {
        return [];
      }
      var chunks := if |t| > MaxLength then SplitEvery(t, MaxLength) else [t];
      errors := ChunkFindings(chunks, engine, whitelist);
    }
  }

  /** Once starting the engine has failed, every check finds nothing. */
  method DegradedCheckerFindsNothing(setting: bool, text: string, whitelist: seq<string>) returns (errors: seq<SpellError>)
    ensures errors == []
  {
    var checker := new SpellChecker(setting);
    checker.Enter(None);
    errors := checker.CheckText(text, whitelist);
  }
}
