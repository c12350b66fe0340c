/** backend/app/services/address_validator.py: recognising the canonical
    layout of a Ukrainian address (`м. Київ, вул. Хрещатик, 1`), cutting a
    context window around each address found in a page's text, saying what
    is wrong with one that is not canonical, and proposing a rewrite. */
module Address {
  import opened Text

  // ---------------------------------------------------------------------
  // Character classes

  /** `[А-ЯІЇЄҐ]`. */
  predicate IsUpperUk(c: char)
  {
    'А' <= c <= 'Я' || c == 'І' || c == 'Ї' || c == 'Є' || c == 'Ґ'
  }

  /** `[а-яіїєґ]`. */
  predicate IsLowerUk(c: char)
  {
    'а' <= c <= 'я' || c == 'і' || c == 'ї' || c == 'є' || c == 'ґ'
  }

  /** The classes the address patterns repeat with `+`. */
  datatype CharClass =
    | Space         // `\s`
    | NameChar      // `[а-яіїєґ\'\-]`
    | StreetChar    // `[а-яіїєґ\'\-\s]`
    | Digit         // `\d`
    | SpaceOrComma  // `[\s,]`

  predicate InClass(c: char, k: CharClass)
  {
    match k
    case Space => IsSpace(c)
    case NameChar => IsLowerUk(c) || c == '\'' || c == '-'
    case StreetChar => IsLowerUk(c) || c == '\'' || c == '-' || IsSpace(c)
    case Digit => IsAsciiDigit(c)
    case SpaceOrComma => IsSpace(c) || c == ','
  }

  /** The length of the longest prefix of `s` in class `k`. */
  function Run(s: string, k: CharClass): (n: nat)
    ensures n <= |s|
    ensures forall i :: 0 <= i < n ==> InClass(s[i], k)
    ensures n < |s| ==> !InClass(s[n], k)
  {
    if s != [] && InClass(s[0], k) then 1 + Run(s[1..], k) else 0
  }

  /** A run of class `k` followed by text that does not continue it is
      exactly that run. */
  lemma RunOfPiece(x: string, y: string, k: CharClass)
    requires forall i :: 0 <= i < |x| ==> InClass(x[i], k)
    requires y == [] || !InClass(y[0], k)
    ensures Run(x + y, k) == |x|
  {
    assert forall i :: 0 <= i < |x| ==> (x + y)[i] == x[i];
    assert y != [] ==> (x + y)[|x|] == y[0];
  }

  // ---------------------------------------------------------------------
  // The canonical shapes

  /** One element of a canonical pattern: literal text, one `[А-ЯІЇЄҐ]`, or a
      class repeated with `+`. */
  datatype Atom = Text(lit: string) | Upper | Many(cls: CharClass)

  /** Matching one element at the front of `s`: what is left after it. A
      repeat takes the longest run, which is what backtracking settles on
      too, because in every canonical pattern the element after a repeat
      cannot start with a character of the repeated class. */
  function Step(a: Atom, s: string): (r: Option<string>)
    ensures r.Some? ==> |r.value| <= |s|
  {
    match a
    case Text(lit) => if StartsWith(s, lit) then Some(s[|lit|..]) else None
    case Upper => if s != [] && IsUpperUk(s[0]) then Some(s[1..]) else None
    case Many(k) => var n := Run(s, k); if n > 0 then Some(s[n..]) else None
  }

  /** `pattern.fullmatch(s)`. */
  function FullMatch(p: seq<Atom>, s: string): bool
    decreases |p|
  {
    if p == [] then s == []
    else match Step(p[0], s)
      case None => false
      case Some(rest) => FullMatch(p[1..], rest)
  }

  /** `м\.\s+[А-ЯІЇЄҐ][а-яіїєґ\'\-]+,\s+` + `kind` + `\s+[А-ЯІЇЄҐ][а-яіїєґ\'\-\s]+,\s+\d+`. */
  function StreetPattern(kind: string): seq<Atom>
  {
    [Text("м."), Many(Space), Upper, Many(NameChar), Text(","), Many(Space),
     Text(kind), Many(Space), Upper, Many(StreetChar), Text(","), Many(Space), Many(Digit)]
  }

  /** `CORRECT_PATTERNS`: street, lane, avenue and boulevard, then a street
      address with a flat number `,\s+кв\.\s+\d+`. */
  const CorrectPatterns: seq<seq<Atom>> :=
    [StreetPattern("вул."), StreetPattern("пров."), StreetPattern("проспект"), StreetPattern("бульвар"),
     StreetPattern("вул.") + FlatPattern]

  /** `,\s+кв\.\s+\d+`. */
  const FlatPattern: seq<Atom> := [Text(","), Many(Space), Text("кв."), Many(Space), Many(Digit)]

  /** `s` matches one of the canonical patterns in full. */
  predicate Canonical(s: string)
  {
    exists k :: 0 <= k < |CorrectPatterns| && FullMatch(CorrectPatterns[k], s)
  }

  /** `is_correct_format`: the stripped address matches a canonical pattern in full. */
  predicate IsCorrectFormat(address: string)
  {
    Canonical(Strip(address))
  }

  /** White space around an address does not change the verdict. */
  lemma CorrectFormatIgnoresPadding(address: string)
    ensures IsCorrectFormat(Strip(address)) == IsCorrectFormat(address)
  {
    StripIdempotent(address);
  }

  /** `piece` is one match of the element `a`. */
  predicate Fits(a: Atom, piece: string)
  {
    match a
    case Text(lit) => piece == lit
    case Upper => |piece| == 1 && IsUpperUk(piece[0])
    case Many(k) => piece != [] && forall i :: 0 <= i < |piece| ==> InClass(piece[i], k)
  }

  /** What follows a repeat does not continue it. */
  predicate StopsBefore(a: Atom, next: string)
  {
    a.Many? ==> next == [] || !InClass(next[0], a.cls)
  }

  /** One element consumes exactly the piece that fits it. */
  lemma StepOfPiece(a: Atom, x: string, y: string)
    requires Fits(a, x) && StopsBefore(a, y)
    ensures Step(a, x + y) == Some(y)
  {
    match a
    case Text(lit) =>
      assert (x + y)[..|x|] == x && (x + y)[|x|..] == y;
    case Upper =>
      assert (x + y)[1..] == y;
    case Many(k) =>
      RunOfPiece(x, y, k);
      assert (x + y)[|x|..] == y;
  }

  /** Text assembled from one fitting piece per element, each repeat followed
      by a piece that does not continue it, matches the pattern in full. */
  lemma {:induction false} FullMatchOfPieces(p: seq<Atom>, pieces: seq<string>)
    requires |pieces| == |p|
    requires forall i :: 0 <= i < |p| ==> Fits(p[i], pieces[i])
    requires forall i :: 0 <= i < |p| ==> StopsBefore(p[i], Concat(pieces[i + 1..]))
    ensures FullMatch(p, Concat(pieces))
    decreases |p|
  {
    if p != [] {
      StepOfPiece(p[0], pieces[0], Concat(pieces[1..]));
      forall i | 0 <= i < |p| - 1
        ensures StopsBefore(p[1..][i], Concat(pieces[1..][i + 1..]))
      {
        assert pieces[1..][i + 1..] == pieces[i + 2..];
        assert StopsBefore(p[i + 1], Concat(pieces[i + 2..]));
      }
      FullMatchOfPieces(p[1..], pieces[1..]);
    }
  }

  /** A successful step consumes one fitting piece, and a repeat takes its
      whole run. */
  lemma StepSplits(a: Atom, s: string) returns (piece: string)
    requires Step(a, s).Some?
    ensures s == piece + Step(a, s).value && Fits(a, piece) && StopsBefore(a, Step(a, s).value)
  {
    match a
    case Text(lit) =>
      piece := lit;
      assert s == s[..|lit|] + s[|lit|..];
    case Upper =>
      piece := s[..1];
      assert s == s[..1] + s[1..];
    case Many(k) =>
      var n := Run(s, k);
      piece := s[..n];
      assert s == s[..n] + s[n..];
      assert s[n..] != [] ==> s[n..][0] == s[n];
  }

  /** Text that matches a pattern in full is one fitting piece per element,
      the converse of `FullMatchOfPieces`. */
  lemma {:induction false} FullMatchPieces(p: seq<Atom>, s: string) returns (pieces: seq<string>)
    requires FullMatch(p, s)
    ensures |pieces| == |p| && Concat(pieces) == s
    ensures forall i :: 0 <= i < |p| ==> Fits(p[i], pieces[i])
    decreases |p|
  {
    if p == [] {
      pieces := [];
    } else {
      var rest := Step(p[0], s).value;
      var head := StepSplits(p[0], s);
      var tail := FullMatchPieces(p[1..], rest);
      pieces := [head] + tail;
      assert pieces[1..] == tail;
      forall i | 1 <= i < |p| ensures Fits(p[i], pieces[i]) {
        assert p[i] == p[1..][i - 1] && pieces[i] == tail[i - 1];
      }
    }
  }

  /** The four street kinds and the text that names each. */
  datatype StreetKind = Vul | Prov | Prospekt | Bulvar

  function KindText(k: StreetKind): string
  {
    match k
    case Vul => "вул."
    case Prov => "пров."
    case Prospekt => "проспект"
    case Bulvar => "бульвар"
  }

  /** White space between two parts of an address: a match of `\s+`. */
  predicate Gap(g: string)
  {
    g != [] && forall i :: 0 <= i < |g| ==> IsSpace(g[i])
  }

  /** The pieces of `м.␣<city>,␣<kind>␣<street>,␣<number>`, the gaps ␣ taken
      from `gaps`, each piece matching one element of the street pattern for
      `kind`. */
  function StreetPieces(kind: StreetKind, city: string, street: string, number: string, gaps: seq<string>): seq<string>
    requires city != [] && street != [] && |gaps| >= 4
  {
    ["м.", gaps[0], city[..1], city[1..], ",", gaps[1], KindText(kind), gaps[2], street[..1], street[1..], ",", gaps[3], number]
  }

  /** The pieces of the `,␣кв.␣<flat>` tail. */
  function FlatPieces(flat: string, g0: string, g1: string): seq<string>
  {
    [",", g0, "кв.", g1, flat]
  }

  /** How many gaps a layout has: four, and two more with a flat. */
  function GapCount(flat: Option<string>): nat
  {
    if flat.Some? then 6 else 4
  }

  /** The canonical layout: `м.␣<city>,␣<kind>␣<street>,␣<number>`, followed by
      `,␣кв.␣<flat>` when there is a flat. */
  function Layout(kind: StreetKind, city: string, street: string, number: string, flat: Option<string>,
                  gaps: seq<string>): string
    requires city != [] && street != [] && |gaps| == GapCount(flat)
  {
    Concat(StreetPieces(kind, city, street, number, gaps)
           + (if flat.Some? then FlatPieces(flat.value, gaps[4], gaps[5]) else []))
  }

  /** A proper name: one capital, then at least one character of `k`. */
  predicate ProperName(s: string, k: CharClass)
  {
    |s| >= 2 && IsUpperUk(s[0]) && forall i :: 1 <= i < |s| ==> InClass(s[i], k)
  }

  predicate Number(s: string)
  {
    s != [] && AllDigits(s)
  }

  /** The parts of a canonical address: a city and a street name, a house
      number, a flat number only on a `вул.` street, and white-space gaps. */
  predicate LayoutParts(kind: StreetKind, city: string, street: string, number: string, flat: Option<string>,
                        gaps: seq<string>)
  {
    && ProperName(city, NameChar) && ProperName(street, StreetChar) && Number(number)
    && (flat.Some? ==> kind == Vul && Number(flat.value))
    && |gaps| == GapCount(flat) && forall i :: 0 <= i < |gaps| ==> Gap(gaps[i])
  }

  /** A nonempty first piece starts the concatenation. */
  lemma ConcatHead(pieces: seq<string>)
    requires pieces != [] && pieces[0] != []
    ensures Concat(pieces) != [] && Concat(pieces)[0] == pieces[0][0]
  {
  }

  /** Each piece of the street part fits its element. */
  lemma StreetPieceFits(kind: StreetKind, city: string, street: string, number: string, gaps: seq<string>, i: nat)
    requires ProperName(city, NameChar) && ProperName(street, StreetChar) && Number(number)
    requires |gaps| >= 4 && forall j :: 0 <= j < 4 ==> Gap(gaps[j])
    requires i < 13
    ensures Fits(StreetPattern(KindText(kind))[i], StreetPieces(kind, city, street, number, gaps)[i])
  {
    if i == 3 {
      forall j | 0 <= j < |city[1..]| ensures InClass(city[1..][j], NameChar) {
        assert city[1..][j] == city[j + 1];
      }
    } else if i == 9 {
      forall j | 0 <= j < |street[1..]| ensures InClass(street[1..][j], StreetChar) {
        assert street[1..][j] == street[j + 1];
      }
    } else if i in {1, 5, 7, 11} {
      var g := if i == 1 then gaps[0] else if i == 5 then gaps[1] else if i == 7 then gaps[2] else gaps[3];
      assert Gap(g);
    }
  }

  /** Each repeat of the street part is followed by a piece that does not
      continue it: a capital, a comma, a letter of the kind, a digit. */
  lemma StreetPieceStops(kind: StreetKind, city: string, street: string, number: string, gaps: seq<string>,
                         tail: seq<string>, i: nat)
    requires ProperName(city, NameChar) && ProperName(street, StreetChar) && Number(number)
    requires |gaps| >= 4
    requires tail == [] || tail[0] == ","
    requires i < 13
    ensures var pieces := StreetPieces(kind, city, street, number, gaps) + tail;
            StopsBefore(StreetPattern(KindText(kind))[i], Concat(pieces[i + 1..]))
  {
    var pieces := StreetPieces(kind, city, street, number, gaps) + tail;
    var a := StreetPattern(KindText(kind))[i];
    if !a.Many? {
    } else if i < 12 {
      var next := pieces[i + 1];
      assert pieces[i + 1..][0] == next;
      assert next != [] && !InClass(next[0], a.cls) by {
        assert i in {1, 3, 5, 7, 9, 11};
      }
      ConcatHead(pieces[i + 1..]);
    } else {
      assert pieces[13..] == tail;
      if tail != [] {
        ConcatHead(tail);
      }
    }
  }

  /** The same for the flat tail. */
  lemma FlatPieceFits(flat: string, g0: string, g1: string, i: nat)
    requires Number(flat) && Gap(g0) && Gap(g1) && i < 5
    ensures var pieces := FlatPieces(flat, g0, g1);
            Fits(FlatPattern[i], pieces[i]) && StopsBefore(FlatPattern[i], Concat(pieces[i + 1..]))
  {
    if i + 1 < 5 {
      ConcatHead(FlatPieces(flat, g0, g1)[i + 1..]);
    }
  }

  /** The pattern an address of `kind`, with or without a flat, is written to. */
  function LayoutPattern(kind: StreetKind, hasFlat: bool): seq<Atom>
  {
    StreetPattern(KindText(kind)) + (if hasFlat then FlatPattern else [])
  }

  /** The canonical layout matches its pattern in full. */
  lemma LayoutMatches(kind: StreetKind, city: string, street: string, number: string, flat: Option<string>,
                      gaps: seq<string>)
    requires LayoutParts(kind, city, street, number, flat, gaps)
    ensures FullMatch(LayoutPattern(kind, flat.Some?), Layout(kind, city, street, number, flat, gaps))
  {
    var tail := if flat.Some? then FlatPieces(flat.value, gaps[4], gaps[5]) else [];
    var pieces := StreetPieces(kind, city, street, number, gaps) + tail;
    var pattern := LayoutPattern(kind, flat.Some?);
    forall i | 0 <= i < |pattern|
      ensures Fits(pattern[i], pieces[i]) && StopsBefore(pattern[i], Concat(pieces[i + 1..]))
    {
      if i < 13 {
        StreetPieceFits(kind, city, street, number, gaps, i);
        StreetPieceStops(kind, city, street, number, gaps, tail, i);
      } else {
        assert Gap(gaps[4]) && Gap(gaps[5]);
        FlatPieceFits(flat.value, gaps[4], gaps[5], i - 13);
        assert pieces[i + 1..] == tail[i - 13 + 1..];
      }
    }
    FullMatchOfPieces(pattern, pieces);
  }

  /** The layout patterns are the canonical ones: the four street kinds, and a
      street with a flat. */
  lemma LayoutPatternIsCanonical(kind: StreetKind, hasFlat: bool, s: string)
    requires hasFlat ==> kind == Vul
    requires FullMatch(LayoutPattern(kind, hasFlat), s)
    ensures Canonical(s)
  {
    var k := if hasFlat then 4 else match kind case Vul => 0 case Prov => 1 case Prospekt => 2 case Bulvar => 3;
    assert CorrectPatterns[k] == LayoutPattern(kind, hasFlat);
  }

  /** Every address written in the canonical layout is in correct format. */
  lemma LayoutIsCorrect(kind: StreetKind, city: string, street: string, number: string, flat: Option<string>,
                        gaps: seq<string>)
    requires LayoutParts(kind, city, street, number, flat, gaps)
    ensures IsCorrectFormat(Layout(kind, city, street, number, flat, gaps))
  {
    var s := Layout(kind, city, street, number, flat, gaps);
    LayoutMatches(kind, city, street, number, flat, gaps);
    LayoutPatternIsCanonical(kind, flat.Some?, s);
    var pieces := StreetPieces(kind, city, street, number, gaps)
                  + (if flat.Some? then FlatPieces(flat.value, gaps[4], gaps[5]) else []);
    var last := pieces[|pieces| - 1];
    assert last == if flat.Some? then flat.value else number;
    ConcatHead(pieces);
    ConcatLast(pieces);
    assert IsAsciiDigit(last[|last| - 1]);
    StripTrimmed(s);
  }

  /** The pieces matching a street pattern are a street layout's pieces:
      a capital and its run make a proper name, the gaps are white space and
      the digits are a number. */
  lemma StreetPartsOfPieces(kind: StreetKind, pieces: seq<string>)
    returns (city: string, street: string, number: string, gaps: seq<string>)
    requires |pieces| == 13
    requires forall i :: 0 <= i < 13 ==> Fits(StreetPattern(KindText(kind))[i], pieces[i])
    ensures ProperName(city, NameChar) && ProperName(street, StreetChar) && Number(number)
    ensures |gaps| == 4 && forall j :: 0 <= j < 4 ==> Gap(gaps[j])
    ensures pieces == StreetPieces(kind, city, street, number, gaps)
  {
    var pattern := StreetPattern(KindText(kind));
    forall i | 0 <= i < 13 ensures Fits(pattern[i], pieces[i]) {
    }
    city, street, number := pieces[2] + pieces[3], pieces[8] + pieces[9], pieces[12];
    gaps := [pieces[1], pieces[5], pieces[7], pieces[11]];
    assert Fits(pattern[1], pieces[1]) && Fits(pattern[5], pieces[5]);
    assert Fits(pattern[7], pieces[7]) && Fits(pattern[11], pieces[11]);
    assert Fits(pattern[2], pieces[2]) && Fits(pattern[3], pieces[3]);
    assert Fits(pattern[8], pieces[8]) && Fits(pattern[9], pieces[9]);
    assert Fits(pattern[12], pieces[12]);
    forall j | 1 <= j < |city| ensures InClass(city[j], NameChar) {
      assert city[j] == pieces[3][j - 1];
    }
    forall j | 1 <= j < |street| ensures InClass(street[j], StreetChar) {
      assert street[j] == pieces[9][j - 1];
    }
    assert city[..1] == pieces[2] && city[1..] == pieces[3];
    assert street[..1] == pieces[8] && street[1..] == pieces[9];
    assert Fits(pattern[0], pieces[0]) && Fits(pattern[4], pieces[4]);
    assert Fits(pattern[6], pieces[6]) && Fits(pattern[10], pieces[10]);
  }

  /** The pieces matching the flat tail are a flat tail's pieces. */
  lemma FlatPartsOfPieces(tail: seq<string>)
    requires |tail| == 5 && forall i :: 0 <= i < 5 ==> Fits(FlatPattern[i], tail[i])
    ensures Number(tail[4]) && Gap(tail[1]) && Gap(tail[3])
    ensures tail == FlatPieces(tail[4], tail[1], tail[3])
  {
    assert Fits(FlatPattern[0], tail[0]) && Fits(FlatPattern[1], tail[1]) && Fits(FlatPattern[2], tail[2]);
    assert Fits(FlatPattern[3], tail[3]) && Fits(FlatPattern[4], tail[4]);
  }

  /** Each canonical pattern is the layout pattern of a street kind, with a
      flat only in the last one. */
  lemma CanonicalIsLayoutPattern(k: nat) returns (kind: StreetKind)
    requires k < |CorrectPatterns|
    ensures CorrectPatterns[k] == LayoutPattern(kind, k == 4) && (k == 4 ==> kind == Vul)
  {
    kind := if k == 1 then Prov else if k == 2 then Prospekt else if k == 3 then Bulvar else Vul;
  }

  /** Pieces that match a layout pattern one by one are that layout's pieces. */
  lemma LayoutOfPieces(kind: StreetKind, hasFlat: bool, pieces: seq<string>)
    returns (city: string, street: string, number: string, flat: Option<string>, gaps: seq<string>)
    requires hasFlat ==> kind == Vul
    requires |pieces| == |LayoutPattern(kind, hasFlat)|
    requires forall i :: 0 <= i < |pieces| ==> Fits(LayoutPattern(kind, hasFlat)[i], pieces[i])
    ensures LayoutParts(kind, city, street, number, flat, gaps)
    ensures pieces == StreetPieces(kind, city, street, number, gaps)
                      + (if flat.Some? then FlatPieces(flat.value, gaps[4], gaps[5]) else [])
  {
    var pattern := LayoutPattern(kind, hasFlat);
    var streetPieces, tail := pieces[..13], pieces[13..];
    assert pieces == streetPieces + tail;
    forall i | 0 <= i < 13 ensures Fits(StreetPattern(KindText(kind))[i], streetPieces[i]) {
      assert pattern[i] == StreetPattern(KindText(kind))[i];
    }
    var gaps4;
    city, street, number, gaps4 := StreetPartsOfPieces(kind, streetPieces);
    if hasFlat {
      forall i | 0 <= i < 5 ensures Fits(FlatPattern[i], tail[i]) {
        assert pattern[13 + i] == FlatPattern[i];
      }
      FlatPartsOfPieces(tail);
      flat := Some(tail[4]);
      gaps := gaps4 + [tail[1], tail[3]];
    } else {
      flat := None;
      gaps := gaps4;
    }
    assert StreetPieces(kind, city, street, number, gaps) == streetPieces by {
      assert gaps[..4] == gaps4;
    }
  }

  /** Every address in correct format is, stripped, written in a canonical
      layout: the converse of `LayoutIsCorrect`. */
  lemma CorrectFormatIsLayout(address: string)
    returns (kind: StreetKind, city: string, street: string, number: string, flat: Option<string>, gaps: seq<string>)
    requires IsCorrectFormat(address)
    ensures LayoutParts(kind, city, street, number, flat, gaps)
    ensures Strip(address) == Layout(kind, city, street, number, flat, gaps)
  {
    var s := Strip(address);
    var k :| 0 <= k < |CorrectPatterns| && FullMatch(CorrectPatterns[k], s);
    kind := CanonicalIsLayoutPattern(k);
    var pieces := FullMatchPieces(LayoutPattern(kind, k == 4), s);
    city, street, number, flat, gaps := LayoutOfPieces(kind, k == 4, pieces);
  }

  /** A nonempty last piece ends the concatenation. */
  lemma {:induction false} ConcatLast(pieces: seq<string>)
    requires pieces != [] && pieces[|pieces| - 1] != []
    ensures var s := Concat(pieces); var last := pieces[|pieces| - 1];
            s != [] && s[|s| - 1] == last[|last| - 1]
  {
    if |pieces| > 1 {
      var rest := pieces[1..];
      assert rest[|rest| - 1] == pieces[|pieces| - 1];
      ConcatLast(rest);
      assert Concat(pieces) == pieces[0] + Concat(rest);
    }
  }

  // ---------------------------------------------------------------------
  // Finding addresses

  /** An entry of `find_addresses`. */
  datatype Found = Found(address: string, context: string, position: nat)

  /** The entry for one detection match: 100 characters of context either side. */
  function FoundAt(text: string, m: Span): Found
    requires m.start <= m.end <= |text|
  {
    Found(text[m.start..m.end], Window(text, m.start, m.end, 100), m.start)
  }

  /** The entries for the detection matches, in the order they are found. */
  function FoundAll(text: string, spans: seq<Span>): (r: seq<Found>)
    requires SpansWithin(spans, text)
    ensures |r| == |spans|
  {
    if spans == [] then []
    else FoundAll(text, spans[..|spans| - 1]) + [FoundAt(text, spans[|spans| - 1])]
  }

  /** Each entry is its match, at its start, inside a context that holds it
      and is at most 200 characters longer. */
  lemma {:induction false} FoundAllShape(text: string, spans: seq<Span>)
    requires SpansWithin(spans, text)
    ensures var r := FoundAll(text, spans);
            forall k :: 0 <= k < |r| ==>
              r[k].address == text[spans[k].start..spans[k].end] && r[k].position == spans[k].start
              && Contains(r[k].context, r[k].address) && |r[k].context| <= |r[k].address| + 200
  {
    if spans != [] {
      var m := spans[|spans| - 1];
      FoundAllShape(text, spans[..|spans| - 1]);
      WindowContainsMatch(text, m.start, m.end, 100);
      var off := m.start - Max(0, m.start - 100);
      assert OccursAt(Window(text, m.start, m.end, 100), text[m.start..m.end], off);
    }
  }

  /** `find_addresses` over the detection matches, pattern by pattern, as
      `finditer` gives them. */
  method FindAddresses(text: string, spans: seq<Span>) returns (found: seq<Found>)
    requires SpansWithin(spans, text)
    ensures found == FoundAll(text, spans)
  {
    found := [];
    for i := 0 to |spans|
      invariant found == FoundAll(text, spans[..i])
    {
      var m := spans[i];
      assert spans[..i + 1][..i] == spans[..i] && spans[..i + 1][i] == m;
      var context := Window(text, m.start, m.end, 100);
      found := found + [Found(text[m.start..m.end], context, m.start)];
    }
    assert spans[..|spans|] == spans;
  }

  // ---------------------------------------------------------------------
  // What is wrong with an address

  /** `(?:місто|М[А-ЯІЇЄҐ])` at `i`. */
  predicate CityWordAt(a: string, i: nat)
  {
    OccursAt(a, "місто", i) || (i + 1 < |a| && a[i] == 'М' && IsUpperUk(a[i + 1]))
  }

  /** `(?:^|[^м])(?:місто|М[А-ЯІЇЄҐ])` is found: a city word at the start or
      after any character but `м`. */
  predicate MissingCityAbbrev(a: string)
  {
    exists i :: 0 <= i < |a| && (i == 0 || a[i - 1] != 'м') && CityWordAt(a, i)
  }

  /** `\s+[А-ЯІЇЄҐ]` at `j`. Spaces never count as capitals, so the longest
      run of spaces is the only one that can be followed by one. */
  predicate SpacesThenUpper(a: string, j: nat)
  {
    j <= |a| && var n := Run(a[j..], Space); n > 0 && j + n < |a| && IsUpperUk(a[j + n])
  }

  /** `(?:вулиця|провулок)\s+[А-ЯІЇЄҐ]` at `i`. */
  predicate StreetWordAt(a: string, i: nat)
  {
    (OccursAt(a, "вулиця", i) && SpacesThenUpper(a, i + 6))
    || (OccursAt(a, "провулок", i) && SpacesThenUpper(a, i + 8))
  }

  predicate FullStreetWord(a: string)
  {
    exists i :: 0 <= i < |a| && StreetWordAt(a, i)
  }

  /** The letters that end in a dot when abbreviated: `[мвп]`. */
  predicate IsAbbrevLetter(c: char)
  {
    c == 'м' || c == 'в' || c == 'п'
  }

  /** `[мвп]\.[А-ЯІЇЄҐ]` at `i`. */
  predicate NoSpaceAt(a: string, i: nat)
  {
    i + 2 < |a| && IsAbbrevLetter(a[i]) && a[i + 1] == '.' && IsUpperUk(a[i + 2])
  }

  predicate MissingSpace(a: string)
  {
    exists i :: 0 <= i < |a| && NoSpaceAt(a, i)
  }

  /** The four problems `validate_text` names. */
  datatype AddressIssue = NoCityAbbrev | FullStreetName | NoCommas | NoSpaceAfterAbbrev

  function IssueText(x: AddressIssue): string
  {
    match x
    case NoCityAbbrev => "Відсутнє скорочення \"м.\" перед назвою міста"
    case FullStreetName => "Використовуйте скорочення \"вул.\" або \"пров.\" замість повної назви"
    case NoCommas => "Відсутні коми між частинами адреси"
    case NoSpaceAfterAbbrev => "Відсутній пробіл після скорочення"
  }

  function AddIf(issues: seq<AddressIssue>, found: bool, x: AddressIssue): seq<AddressIssue>
  {
    if found then issues + [x] else issues
  }

  /** The issues of an address, in the order they are checked. */
  function Issues(a: string): seq<AddressIssue>
  {
    AddIf(AddIf(AddIf(AddIf([], MissingCityAbbrev(a), NoCityAbbrev), FullStreetWord(a), FullStreetName),
                ',' !in a, NoCommas),
          MissingSpace(a), NoSpaceAfterAbbrev)
  }

  /** Each issue is listed exactly when its check fires, at most once. */
  lemma IssuesExact(a: string)
    ensures NoCityAbbrev in Issues(a) <==> MissingCityAbbrev(a)
    ensures FullStreetName in Issues(a) <==> FullStreetWord(a)
    ensures NoCommas in Issues(a) <==> ',' !in a
    ensures NoSpaceAfterAbbrev in Issues(a) <==> MissingSpace(a)
    ensures forall i, j :: 0 <= i < j < |Issues(a)| ==> Issues(a)[i] != Issues(a)[j]
  {
  }

  const DefaultHint := "Використовуйте формат: м. Місто, вул. Назва, 123"

  const InvalidFormat := "Неправильний формат адреси. "

  function IssueTexts(issues: seq<AddressIssue>): (r: seq<string>)
    ensures |r| == |issues| && forall k :: 0 <= k < |r| ==> r[k] == IssueText(issues[k])
  {
    if issues == [] then [] else [IssueText(issues[0])] + IssueTexts(issues[1..])
  }

  /** The error message: the issues joined by spaces, or the format hint
      when none was named. */
  function AddressMessage(issues: seq<AddressIssue>): string
  {
    InvalidFormat + (if issues == [] then DefaultHint else Join(" ", IssueTexts(issues)))
  }

  /** Every issue named is spelled out in the message. */
  lemma MessageNamesIssues(issues: seq<AddressIssue>, x: AddressIssue)
    requires x in issues
    ensures Contains(AddressMessage(issues), IssueText(x))
  {
    var k :| 0 <= k < |issues| && issues[k] == x;
    var texts := IssueTexts(issues);
    PrefixedJoinContains(InvalidFormat, texts, k);
    assert texts[k] == IssueText(x);
    assert AddressMessage(issues) == InvalidFormat + Join(" ", texts);
  }

  /** A part of a space-joined list stays in it behind any prefix. */
  lemma PrefixedJoinContains(prefix: string, texts: seq<string>, k: nat)
    requires k < |texts|
    ensures Contains(prefix + Join(" ", texts), texts[k])
  {
    var i := JoinContains(" ", texts, k);
    AfterPrefix(prefix, Join(" ", texts), texts[k], i);
  }

  lemma AfterPrefix(prefix: string, body: string, part: string, i: nat)
    requires i + |part| <= |body| && body[i..i + |part|] == part
    ensures Contains(prefix + body, part)
  {
    assert (prefix + body)[|prefix| + i..|prefix| + i + |part|] == part;
    assert OccursAt(prefix + body, part, |prefix| + i);
  }

  /** An entry of `validate_text`. */
  datatype AddressError = AddressError(
    address: string,
    context: string,
    issues: seq<AddressIssue>,
    suggestion: Option<string>,
    message: string)

  function ErrorOf(f: Found): AddressError
  {
    var issues := Issues(f.address);
    AddressError(f.address, f.context, issues, Suggestion(f.address), AddressMessage(issues))
  }

  /** `report(f)` for each found address `f` that `ok` rejects, in order. */
  function Reported<T>(found: seq<Found>, ok: string -> bool, report: Found -> T): seq<T>
  {
    if found == [] then []
    else
      var f := found[|found| - 1];
      Reported(found[..|found| - 1], ok, report) + (if ok(f.address) then [] else [report(f)])
  }

  /** Exactly the rejected addresses are reported, and nothing else is. */
  lemma {:induction false} ReportedExact<T>(found: seq<Found>, ok: string -> bool, report: Found -> T)
    ensures forall e :: e in Reported(found, ok, report) ==>
              exists f :: f in found && !ok(f.address) && e == report(f)
    ensures forall f :: f in found && !ok(f.address) ==> report(f) in Reported(found, ok, report)
    ensures |Reported(found, ok, report)| <= |found|
  {
    if found != [] {
      var init := found[..|found| - 1];
      var last := found[|found| - 1];
      ReportedExact(init, ok, report);
      assert found == init + [last];
      forall e | e in Reported(found, ok, report)
        ensures exists f :: f in found && !ok(f.address) && e == report(f)
      {
        if e in Reported(init, ok, report) {
          var f :| f in init && !ok(f.address) && e == report(f);
          assert f in found;
        } else {
          assert e == report(last);
        }
      }
    }
  }

  /** Reporting one more found address. */
  lemma ReportedNext<T>(found: seq<Found>, k: nat, ok: string -> bool, report: Found -> T)
    requires k < |found|
    ensures Reported(found[..k + 1], ok, report)
            == Reported(found[..k], ok, report) + (if ok(found[k].address) then [] else [report(found[k])])
  {
    assert found[..k + 1][..k] == found[..k];
  }

  /** The errors for the found addresses: one for each that is not in
      correct format, in order. */
  function AddressErrors(found: seq<Found>): seq<AddressError>
  {
    Reported(found, IsCorrectFormat, ErrorOf)
  }

  /** `validate_text`: the addresses found in `text`, and for each one that
      is not in correct format an error naming its issues, with a suggested
      rewrite. */
  method ValidateText(text: string, spans: seq<Span>) returns (errors: seq<AddressError>)
    requires SpansWithin(spans, text)
    ensures errors == AddressErrors(FoundAll(text, spans))
  {
    var found := FindAddresses(text, spans);
    errors := [];
    for k := 0 to |found|
      invariant errors == AddressErrors(found[..k])
    {
      var address := found[k].address;
      ReportedNext(found, k, IsCorrectFormat, ErrorOf);
      if !IsCorrectFormat(address) {
        var issues := [];
        if MissingCityAbbrev(address) {
          issues := issues + [NoCityAbbrev];
        }
        ghost var i1 := issues;
        if FullStreetWord(address) {
          issues := issues + [FullStreetName];
        }
        assert issues == AddIf(i1, FullStreetWord(address), FullStreetName);
        ghost var i2 := issues;
        if ',' !in address {
          issues := issues + [NoCommas];
        }
        assert issues == AddIf(i2, ',' !in address, NoCommas);
        ghost var i3 := issues;
        if MissingSpace(address) {
          issues := issues + [NoSpaceAfterAbbrev];
        }
        assert issues == AddIf(i3, MissingSpace(address), NoSpaceAfterAbbrev);
        assert issues == Issues(address);
        var suggestion := SuggestCorrection(address);
        assert ErrorOf(found[k]) == AddressError(address, found[k].context, issues, suggestion, AddressMessage(issues));
        errors := errors + [AddressError(address, found[k].context, issues, suggestion, AddressMessage(issues))];
      }
    }
    assert found[..|found|] == found;
  }

  // ---------------------------------------------------------------------
  // Suggesting a rewrite

  /** The seven substitutions of `suggest_correction`, in the order applied. */
  datatype Rule =
    | PrefixCity         // `^([А-ЯІЇЄҐ][а-яіїєґ\'\-]+)[\s,]+` -> `м. \1, `
    | CityWord           // `місто\s+` -> `м. `, ignoring case
    | StreetWord         // `вулиця\s+` -> `вул. `, ignoring case
    | LaneWord           // `провулок\s+` -> `пров. `, ignoring case
    | AbbrevSpace        // `([мвп])\.([А-ЯІЇЄҐ])` -> `\1. \2`
    | CommaBeforeStreet  // `([а-яіїєґ])\s+(вул|пров)` -> `\1, \2`
    | CommaBeforeNumber  // `([а-яіїєґ\.])\s+(\d)` -> `\1, \2`

  /** A match: how much of the text it covers and what replaces it. */
  datatype Hit = Hit(len: nat, rep: string)

  /** `word\s+` at `i`, the word compared without regard to case. */
  function WordThenSpaces(s: string, i: nat, word: string): (n: nat)
    requires i <= |s|
    ensures n > 0 ==> i + n <= |s|
  {
    if i + |word| <= |s| && LowerStr(s[i..i + |word|]) == word then
      var k := Run(s[i + |word|..], Space);
      if k > 0 then |word| + k else 0
    else 0
  }

  /** The match of `r` starting at `i`, if any. Each repeat is followed by a
      character outside its class, so the longest run is the one the
      regular expression settles on. */
  function MatchAt(r: Rule, s: string, i: nat): (h: Option<Hit>)
    requires i < |s|
    ensures h.Some? ==> 1 <= h.value.len <= |s| - i
  {
    match r
    case PrefixCity =>
      if i == 0 && IsUpperUk(s[0]) then
        var n := Run(s[1..], NameChar);
        var m := Run(s[1 + n..], SpaceOrComma);
        if n > 0 && m > 0 then Some(Hit(1 + n + m, "м. " + s[..1 + n] + ", ")) else None
      else None
    case CityWord =>
      var n := WordThenSpaces(s, i, "місто"); if n > 0 then Some(Hit(n, "м. ")) else None
    case StreetWord =>
      var n := WordThenSpaces(s, i, "вулиця"); if n > 0 then Some(Hit(n, "вул. ")) else None
    case LaneWord =>
      var n := WordThenSpaces(s, i, "провулок"); if n > 0 then Some(Hit(n, "пров. ")) else None
    case AbbrevSpace =>
      if NoSpaceAt(s, i) then Some(Hit(3, [s[i], '.', ' ', s[i + 2]])) else None
    case CommaBeforeStreet =>
      if IsLowerUk(s[i]) then
        var n := Run(s[i + 1..], Space);
        var j := i + 1 + n;
        if n == 0 then None
        else if StartsWith(s[j..], "вул") then Some(Hit(1 + n + 3, [s[i]] + ", вул"))
        else if StartsWith(s[j..], "пров") then Some(Hit(1 + n + 4, [s[i]] + ", пров"))
        else None
      else None
    case CommaBeforeNumber =>
      if IsLowerUk(s[i]) || s[i] == '.' then
        var n := Run(s[i + 1..], Space);
        var j := i + 1 + n;
        if n > 0 && j < |s| && IsAsciiDigit(s[j]) then Some(Hit(n + 2, [s[i], ',', ' ', s[j]])) else None
      else None
  }

  /** `re.sub` from position `i`: every non-overlapping match, scanned from
      the left, replaced. */
  function SubFrom(r: Rule, s: string, i: nat): (t: string)
    requires i <= |s|
    ensures t == [] <==> i == |s|
    decreases |s| - i
  {
    if i == |s| then []
    else match MatchAt(r, s, i)
      case Some(h) => h.rep + SubFrom(r, s, i + h.len)
      case None => [s[i]] + SubFrom(r, s, i + 1)
  }

  function Sub(r: Rule, s: string): string
  {
    SubFrom(r, s, 0)
  }

  /** Where a rule matches nowhere, its substitution changes nothing. */
  lemma {:induction false} SubUnchanged(r: Rule, s: string, i: nat)
    requires i <= |s|
    requires forall j :: i <= j < |s| ==> MatchAt(r, s, j).None?
    ensures SubFrom(r, s, i) == s[i..]
    decreases |s| - i
  {
    if i < |s| {
      SubUnchanged(r, s, i + 1);
      assert s[i..] == [s[i]] + s[i + 1..];
    }
  }

  /** The seven substitutions one after the other. */
  function Rewritten(a: string): string
  {
    Sub(CommaBeforeNumber, Sub(CommaBeforeStreet, Sub(AbbrevSpace,
      Sub(LaneWord, Sub(StreetWord, Sub(CityWord, Sub(PrefixCity, a)))))))
  }

  /** The suggestion: the rewrite, or nothing when it changed nothing. */
  function Suggestion(a: string): (r: Option<string>)
    ensures r.Some? ==> r.value != a
  {
    var t := Rewritten(a); if t == a then None else Some(t)
  }

  /** `suggest_correction`. */
  method SuggestCorrection(address: string) returns (suggestion: Option<string>)
    ensures suggestion == Suggestion(address)
    ensures suggestion.None? <==> Rewritten(address) == address
  {
    var corrected := address;
    corrected := Sub(PrefixCity, corrected);
    corrected := Sub(CityWord, corrected);
    corrected := Sub(StreetWord, corrected);
    corrected := Sub(LaneWord, corrected);
    corrected := Sub(AbbrevSpace, corrected);
    corrected := Sub(CommaBeforeStreet, corrected);
    corrected := Sub(CommaBeforeNumber, corrected);
    suggestion := if corrected != address then Some(corrected) else None;
  }

  /** After the spacing substitution no abbreviation is directly followed by
      a capital: the substitution removes the problem `MissingSpace` names. */
  lemma AbbrevSpaceFixes(s: string)
    ensures !MissingSpace(Sub(AbbrevSpace, s))
  {
    AbbrevSpaceFrom(s, 0);
  }

  lemma {:induction false} AbbrevSpaceFrom(s: string, i: nat)
    requires i <= |s|
    ensures forall p :: 0 <= p ==> !NoSpaceAt(SubFrom(AbbrevSpace, s, i), p)
    decreases |s| - i
  {
    if i < |s| {
      var o := SubFrom(AbbrevSpace, s, i);
      match MatchAt(AbbrevSpace, s, i)
      case None =>
        var rest := SubFrom(AbbrevSpace, s, i + 1);
        AbbrevSpaceFrom(s, i + 1);
        assert o == [s[i]] + rest;
        forall p | 0 <= p
          ensures !NoSpaceAt(o, p)
        {
          if p > 0 {
            assert !NoSpaceAt(rest, p - 1);
          } else if i + 2 < |s| && s[i + 1] == '.' {
            // The dot after `s[i]` is copied, and so is the character after
            // it, so the first three characters are those of `s` at `i`.
            assert MatchAt(AbbrevSpace, s, i + 1).None?;
            var after := SubFrom(AbbrevSpace, s, i + 2);
            assert rest == ['.'] + after;
            assert o[2] == s[i + 2];
          }
        }
      case Some(h) =>
        var rest := SubFrom(AbbrevSpace, s, i + 3);
        AbbrevSpaceFrom(s, i + 3);
        assert o == [s[i], '.', ' ', s[i + 2]] + rest;
        forall p | 0 <= p
          ensures !NoSpaceAt(o, p)
        {
          if p >= 4 {
            assert !NoSpaceAt(rest, p - 4);
          }
        }
    }
  }
}
