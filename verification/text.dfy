/** String helpers shared by every checker: Python's `str.isspace`, `strip`,
    `startswith`, substring search, clamped slicing and `', '.join`, written
    over `seq<char>`. */
module Text {

  datatype Option<+T> = None | Some(value: T)

  /** Python's `str.isspace()`, which is also what `\s` matches in a `str` pattern. */
  predicate IsSpace(c: char)
  {
    var n := c as int;
    || (9 <= n <= 13) || (28 <= n <= 32) || n == 0x85 || n == 0xA0 || n == 0x1680
    || (0x2000 <= n <= 0x200A) || n == 0x2028 || n == 0x2029 || n == 0x202F
    || n == 0x205F || n == 0x3000
  }

  predicate IsAsciiDigit(c: char) { '0' <= c <= '9' }

  predicate IsAsciiAlpha(c: char) { 'a' <= c <= 'z' || 'A' <= c <= 'Z' }

  predicate AllDigits(s: string) { forall i :: 0 <= i < |s| ==> IsAsciiDigit(s[i]) }

  /** `str.lower()` on the Latin and Cyrillic letters the checkers meet. */
  function Lower(c: char): char
  {
    if 'A' <= c <= 'Z' then (c as int + 32) as char
    else if 'А' <= c <= 'Я' then (c as int + 32) as char
    else if 'Ѐ' <= c <= 'Џ' then (c as int + 80) as char
    else if c == 'Ґ' then 'ґ'
    else c
  }

  function LowerStr(s: string): (r: string)
    ensures |r| == |s|
    ensures forall i :: 0 <= i < |s| ==> r[i] == Lower(s[i])
  {
    if s == [] then [] else [Lower(s[0])] + LowerStr(s[1..])
  }

  predicate StartsWith(s: string, p: string) { |p| <= |s| && s[..|p|] == p }

  predicate EndsWith(s: string, p: string) { |p| <= |s| && s[|s| - |p|..] == p }

  /** Python's `sub in s`. */
  predicate Contains(s: string, sub: string)
  {
    exists i | 0 <= i <= |s| :: OccursAt(s, sub, i)
  }

  /** `sub` occurs in `s` starting at index `i`. */
  predicate OccursAt(s: string, sub: string, i: int)
  {
    0 <= i && i + |sub| <= |s| && s[i..i + |sub|] == sub
  }

  /** Python's `s.rstrip(c)` for a single character `c`. */
  function RStripChar(s: string, c: char): (r: string)
    ensures |r| <= |s| && r == s[..|r|]
    ensures r == [] || r[|r| - 1] != c
    ensures forall i :: |r| <= i < |s| ==> s[i] == c
  {
    if s == [] || s[|s| - 1] != c then s else RStripChar(s[..|s| - 1], c)
  }

  function LStripSpace(s: string): (r: string)
    ensures |r| <= |s| && r == s[|s| - |r|..]
    ensures r == [] || !IsSpace(r[0])
  {
    if s == [] || !IsSpace(s[0]) then s else LStripSpace(s[1..])
  }

  function RStripSpace(s: string): (r: string)
    ensures |r| <= |s| && r == s[..|r|]
    ensures r == [] || !IsSpace(r[|r| - 1])
  {
    if s == [] || !IsSpace(s[|s| - 1]) then s else RStripSpace(s[..|s| - 1])
  }

  /** Python's `s.strip()`. */
  function Strip(s: string): (r: string)
    ensures |r| <= |s|
    ensures r == [] || (!IsSpace(r[0]) && !IsSpace(r[|r| - 1]))
  {
    RStripSpace(LStripSpace(s))
  }

  /** Stripping a stripped string changes nothing. */
  lemma StripIdempotent(s: string)
    ensures Strip(Strip(s)) == Strip(s)
  {
    var r := Strip(s);
    if r != [] {
      assert LStripSpace(r) == r;
      assert RStripSpace(r) == r;
    }
  }

  /** A string with no white space at either end is its own strip. */
  lemma StripTrimmed(l: string)
    requires l != [] && !IsSpace(l[0]) && !IsSpace(l[|l| - 1])
    ensures Strip(l) == l
  {
  }

  /** What `LStripSpace` removes is white space. */
  lemma {:induction false} LStripAllSpace(s: string)
    ensures forall i :: 0 <= i < |s| - |LStripSpace(s)| ==> IsSpace(s[i])
  {
    if s != [] && IsSpace(s[0]) {
      LStripAllSpace(s[1..]);
      forall i | 1 <= i < |s| - |LStripSpace(s)|
        ensures IsSpace(s[i])
      {
        assert s[i] == s[1..][i - 1];
      }
    }
  }

  /** What `RStripSpace` removes is white space. */
  lemma {:induction false} RStripAllSpace(s: string)
    ensures forall i :: |RStripSpace(s)| <= i < |s| ==> IsSpace(s[i])
  {
    if s != [] && IsSpace(s[|s| - 1]) {
      RStripAllSpace(s[..|s| - 1]);
    }
  }

  /** What `strip()` keeps is the slice `s[a..b]`. */
  lemma StripSlice(s: string) returns (a: nat, b: nat)
    ensures a == |s| - |LStripSpace(s)| && b == a + |Strip(s)|
    ensures a <= b <= |s| && Strip(s) == s[a..b]
  {
    var left := LStripSpace(s);
    var r := RStripSpace(left);
    a := |s| - |left|;
    b := a + |r|;
    assert left == s[a..];
    assert r == left[..|r|];
  }

  /** `strip()` removes white space at the two ends only: what it keeps is
      the middle `s[a..b]`, in place, and everything around it is white
      space. */
  lemma StripRemovesOnlySpace(s: string) returns (a: nat, b: nat)
    ensures a <= b <= |s| && Strip(s) == s[a..b]
    ensures forall i :: 0 <= i < a || b <= i < |s| ==> IsSpace(s[i])
  {
    var left := LStripSpace(s);
    a, b := StripSlice(s);
    LStripAllSpace(s);
    RStripAllSpace(left);
    forall i | b <= i < |s|
      ensures IsSpace(s[i])
    {
      assert s[i] == left[i - a];
    }
  }

  /** Leading white space is stripped within `x` when `x` ends with a
      character that is not white space. */
  lemma {:induction false} LStripAppend(x: string, y: string)
    requires x != [] && !IsSpace(x[|x| - 1])
    ensures LStripSpace(x + y) == LStripSpace(x) + y
    ensures LStripSpace(x) != [] && LStripSpace(x)[|LStripSpace(x)| - 1] == x[|x| - 1]
  {
    if IsSpace(x[0]) {
      assert (x + y)[1..] == x[1..] + y;
      LStripAppend(x[1..], y);
    }
  }

  /** Trailing white space is stripped within `y` when `y` starts with a
      character that is not white space. */
  lemma {:induction false} RStripAppend(x: string, y: string)
    requires y != [] && !IsSpace(y[0])
    ensures RStripSpace(x + y) == x + RStripSpace(y)
    ensures RStripSpace(y) != []
    decreases |y|
  {
    if IsSpace(y[|y| - 1]) {
      assert (x + y)[..|x + y| - 1] == x + y[..|y| - 1];
      RStripAppend(x, y[..|y| - 1]);
    }
  }

  /** A sequence is what comes before `j`, the element at `j`, and what comes after. */
  lemma SplitAround<T>(s: seq<T>, j: nat)
    requires j < |s|
    ensures s == s[..j] + ([s[j]] + s[j + 1..])
  {
  }

  lemma HeadTail(s: string)
    requires s != []
    ensures s == [s[0]] + s[1..]
  {
  }

  lemma AppendAssoc(x: string, y: string, z: string)
    ensures x + (y + z) == (x + y) + z
  {
  }

  /** A run of white space in front of `b` is stripped entirely, and no
      more, when `b` is empty or starts with a character that is not white
      space. */
  lemma {:induction false} LStripSpaces(w: string, b: string)
    requires forall i :: 0 <= i < |w| ==> IsSpace(w[i])
    requires b == [] || !IsSpace(b[0])
    ensures LStripSpace(w + b) == b
  {
    if w == [] {
      assert w + b == b;
    } else {
      assert (w + b)[0] == w[0] && (w + b)[1..] == w[1..] + b;
      LStripSpaces(w[1..], b);
    }
  }

  /** The `[start, end)` of a regular-expression match, as `match.start()`
      and `match.end()` give it. */
  datatype Span = Span(start: nat, end: nat)

  /** Every span lies within `text`. */
  predicate SpansWithin(spans: seq<Span>, text: string)
  {
    forall k :: 0 <= k < |spans| ==> spans[k].start <= spans[k].end <= |text|
  }

  function Min(a: int, b: int): int { if a <= b then a else b }

  function Max(a: int, b: int): int { if a <= b then b else a }

  /** Python's `s[i:j]` for non-negative bounds: both are clamped to `len(s)`
      and an empty string results when `i >= j`. */
  function Slice(s: string, i: nat, j: nat): (r: string)
    ensures |r| <= |s|
    ensures i <= j <= |s| ==> r == s[i..j]
    ensures j <= i ==> r == []
  {
    var lo := Min(i, |s|);
    var hi := Min(j, |s|);
    if lo >= hi then [] else s[lo..hi]
  }

  /** `s[max(0, start - radius):min(len(s), end + radius)]`: the context window
      the checkers cut around a match `[start, end)`. */
  function Window(s: string, start: nat, end: nat, radius: nat): (r: string)
    requires start <= end <= |s|
    ensures |r| <= end - start + 2 * radius
    ensures r == s[Max(0, start - radius)..Min(|s|, end + radius)]
  {
    Slice(s, Max(0, start - radius), Min(|s|, end + radius))
  }

  /** The window holds the matched text itself, at offset `start - max(0, start - radius)`. */
  lemma WindowContainsMatch(s: string, start: nat, end: nat, radius: nat)
    requires start <= end <= |s|
    ensures var w := Window(s, start, end, radius);
            var k := start - Max(0, start - radius);
            0 <= k && k + (end - start) <= |w| && w[k..k + (end - start)] == s[start..end]
  {
    var lo := Max(0, start - radius);
    var hi := Min(|s|, end + radius);
    var w := Window(s, start, end, radius);
    var k := start - lo;
    assert lo <= start && end <= hi;
    assert w == s[lo..hi];
    forall t | k <= t < k + (end - start)
      ensures w[t] == s[start..end][t - k]
    {
      assert w[t] == s[lo + t];
    }
    assert w[k..k + (end - start)] == s[start..end];
  }

  /** `[f(x) for x in xs[:j] if not skip(x)]`. */
  function FilterMap<A, B>(xs: seq<A>, skip: A -> bool, f: A -> B, j: nat): seq<B>
    requires j <= |xs|
  {
    if j == 0 then []
    else FilterMap(xs, skip, f, j - 1) + (if skip(xs[j - 1]) then [] else [f(xs[j - 1])])
  }

  /** Every element not skipped gives its image, and every image comes from
      such an element. */
  lemma {:induction false} FilterMapExact<A, B>(xs: seq<A>, skip: A -> bool, f: A -> B, j: nat)
    requires j <= |xs|
    ensures forall i :: 0 <= i < j && !skip(xs[i]) ==> f(xs[i]) in FilterMap(xs, skip, f, j)
    ensures forall y :: y in FilterMap(xs, skip, f, j) ==> exists i :: 0 <= i < j && !skip(xs[i]) && y == f(xs[i])
    ensures |FilterMap(xs, skip, f, j)| <= j
  {
    if j > 0 {
      FilterMapExact(xs, skip, f, j - 1);
    }
  }

  /** `''.join(pieces)`. */
  function Concat(pieces: seq<string>): string
  {
    if pieces == [] then [] else pieces[0] + Concat(pieces[1..])
  }

  /** Joining one more piece appends it. */
  lemma {:induction false} ConcatSnoc(pieces: seq<string>, x: string)
    ensures Concat(pieces + [x]) == Concat(pieces) + x
  {
    if pieces != [] {
      assert (pieces + [x])[1..] == pieces[1..] + [x];
      ConcatSnoc(pieces[1..], x);
    }
  }

  /** Python's `sep.join(parts)`. */
  function Join(sep: string, parts: seq<string>): (r: string)
    ensures parts == [] ==> r == []
    ensures |parts| == 1 ==> r == parts[0]
  {
    if parts == [] then []
    else if |parts| == 1 then parts[0]
    else parts[0] + sep + Join(sep, parts[1..])
  }

  /** Each part occurs in the joined text; `i` is where. */
  lemma {:induction false} JoinContains(sep: string, parts: seq<string>, k: nat) returns (i: nat)
    requires k < |parts|
    ensures i + |parts[k]| <= |Join(sep, parts)| && Join(sep, parts)[i..i + |parts[k]|] == parts[k]
    decreases |parts|
  {
    var j := Join(sep, parts);
    if |parts| == 1 {
      i := 0;
    } else if k == 0 {
      i := 0;
      assert j == parts[0] + (sep + Join(sep, parts[1..]));
    } else {
      var rest := Join(sep, parts[1..]);
      var i' := JoinContains(sep, parts[1..], k - 1);
      i := |parts[0]| + |sep| + i';
      assert j == (parts[0] + sep) + rest;
      assert j[i..i + |parts[k]|] == rest[i'..i' + |parts[k]|];
    }
  }

  /** Python's `s.replace(pat, rep)` with a non-empty `pat`: every
      non-overlapping occurrence, scanned from the left. */
  function ReplaceAll(s: string, pat: string, rep: string): (r: string)
    requires pat != []
    decreases |s|
  {
    if |s| < |pat| then s
    else if s[..|pat|] == pat then rep + ReplaceAll(s[|pat|..], pat, rep)
    else [s[0]] + ReplaceAll(s[1..], pat, rep)
  }

  function DigitChar(d: nat): char
    requires d < 10
  {
    ('0' as int + d) as char
  }

  /** Python's `str(n)` for a non-negative integer. */
  function NatToString(n: nat): (r: string)
    ensures r != [] && AllDigits(r)
    decreases n
  {
    if n < 10 then [DigitChar(n)] else NatToString(n / 10) + [DigitChar(n % 10)]
  }

  /** Python's `str(n)` for any integer. */
  function IntToString(n: int): (r: string)
    ensures r != []
  {
    if n < 0 then "-" + NatToString(-n) else NatToString(n)
  }

  /** Different numbers print differently. */
  lemma {:induction false} NatToStringInjective(a: nat, b: nat)
    requires NatToString(a) == NatToString(b)
    ensures a == b
    decreases a
  {
    var sa, sb := NatToString(a), NatToString(b);
    if a >= 10 && b >= 10 {
      assert sa[..|sa| - 1] == NatToString(a / 10) && sb[..|sb| - 1] == NatToString(b / 10);
      NatToStringInjective(a / 10, b / 10);
      assert DigitChar(a % 10) == sa[|sa| - 1] == sb[|sb| - 1] == DigitChar(b % 10);
    } else if a < 10 && b < 10 {
      assert DigitChar(a) == sa[0] == sb[0] == DigitChar(b);
    } else {
      LongNumber(a);
      LongNumber(b);
    }
  }

  /** A number from 10 up prints as two digits or more. */
  lemma LongNumber(n: nat)
    ensures |NatToString(n)| >= 2 <==> n >= 10
  {
  }

  /** A printed integer starts with a minus sign exactly when it is negative. */
  lemma SignShows(n: int)
    ensures IntToString(n)[0] == '-' <==> n < 0
  {
    if n >= 0 {
      assert IsAsciiDigit(NatToString(n)[0]);
    }
  }

  /** Different integers print differently. */
  lemma IntToStringInjective(a: int, b: int)
    requires IntToString(a) == IntToString(b)
    ensures a == b
  {
    if a < 0 && b < 0 {
      assert NatToString(-a) == IntToString(a)[1..] == IntToString(b)[1..] == NatToString(-b);
      NatToStringInjective(-a, -b);
    } else if a < 0 || b < 0 {
      SignShows(a);
      SignShows(b);
    } else {
      NatToStringInjective(a, b);
    }
  }
}
