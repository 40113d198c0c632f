/**
 * The character classes and the JavaScript string operations that the
 * transcript cleaner and the search route are built from: ASCII
 * lower-casing, `trim`, `split(/\s+/)`, `split(" ")`, `includes`,
 * global replacement of a literal, whole-word replacement (`\bword\b`),
 * whitespace collapsing and the Gurmukhi mark filter.
 *
 * A string is a sequence of code points; every code point the model
 * cares about lies in the Basic Multilingual Plane, where that agrees
 * with JavaScript's UTF-16 code units.
 */
module Text {

  // ---------------------------------------------------------------------
  // Character classes
  // ---------------------------------------------------------------------

  /** JavaScript's `\s`, which is also the set `String.prototype.trim` removes. */
  predicate IsSpace(c: char) {
    var n := c as int;
    n == 0x09 || n == 0x0A || n == 0x0B || n == 0x0C || n == 0x0D || n == 0x20 || n == 0xA0
    || n == 0x1680 || (0x2000 <= n <= 0x200A) || n == 0x2028 || n == 0x2029 || n == 0x202F
    || n == 0x205F || n == 0x3000 || n == 0xFEFF
  }

  /** The characters a regular-expression `.` does not match. */
  predicate IsLineTerminator(c: char) {
    c == '\n' || c == '\r' || c as int == 0x2028 || c as int == 0x2029
  }

  predicate IsAsciiUpper(c: char) { 'A' <= c <= 'Z' }

  predicate IsAsciiLower(c: char) { 'a' <= c <= 'z' }

  predicate IsDigit(c: char) { '0' <= c <= '9' }

  /** The class `[a-z0-9]`. */
  predicate IsAlnum(c: char) { IsAsciiLower(c) || IsDigit(c) }

  /** The class `\w`, which decides where `\b` sits. */
  predicate IsWordChar(c: char) { IsAsciiUpper(c) || IsAsciiLower(c) || IsDigit(c) || c == '_' }

  /** The Gurmukhi block U+0A00..U+0A7F. */
  predicate IsGurmukhi(c: char) { 0x0A00 <= c as int <= 0x0A7F }

  /**
   * The Gurmukhi signs both the cleaner and the route delete: U+0A01..0A03,
   * U+0A3C, U+0A3E..0A4D, U+0A51, U+0A70..0A71 and U+0A75. Iri (U+0A72),
   * Ura (U+0A73) and Ek Onkar (U+0A74) are letters and are not in the set.
   */
  predicate IsStrippedMark(c: char) {
    var n := c as int;
    (0x0A01 <= n <= 0x0A03) || n == 0x0A3C || (0x0A3E <= n <= 0x0A4D) || n == 0x0A51
    || (0x0A70 <= n <= 0x0A71) || n == 0x0A75
  }

  predicate IsVowel(c: char) { c == 'a' || c == 'e' || c == 'i' || c == 'o' || c == 'u' }

  /** `/^[a-z]+$/` */
  predicate IsLowerWord(w: string) {
    |w| > 0 && forall i :: 0 <= i < |w| ==> IsAsciiLower(w[i])
  }

  /** The string contains a character of the Gurmukhi block. */
  predicate HasGurmukhi(s: string) {
    exists i :: 0 <= i < |s| && IsGurmukhi(s[i])
  }

  // ---------------------------------------------------------------------
  // Lower-casing and counting
  // ---------------------------------------------------------------------

  function LowerChar(c: char): char {
    if IsAsciiUpper(c) then (c as int + 32) as char else c
  }

  /** `toLowerCase`, restricted to ASCII. */
  function Lower(s: string): (r: string)
    ensures |r| == |s|
    ensures forall i :: 0 <= i < |s| ==> r[i] == LowerChar(s[i])
  {
    if s == [] then [] else [LowerChar(s[0])] + Lower(s[1..])
  }

  /** Number of occurrences of `c` in `s`. */
  function CountChar(c: char, s: string): nat {
    if s == [] then 0 else (if s[0] == c then 1 else 0) + CountChar(c, s[1..])
  }

  lemma {:induction false} CountConcat(c: char, a: string, b: string)
    ensures CountChar(c, a + b) == CountChar(c, a) + CountChar(c, b)
  {
    if a != [] {
      assert (a + b)[0] == a[0] && (a + b)[1..] == a[1..] + b;
      CountConcat(c, a[1..], b);
    } else {
      assert a + b == b;
    }
  }

  lemma {:induction false} CountAbsent(c: char, s: string)
    requires c !in s
    ensures CountChar(c, s) == 0
  {
    if s != [] {
      assert c !in s[1..];
      CountAbsent(c, s[1..]);
    }
  }

  lemma {:induction false} LowerCount(c: char, s: string)
    requires !IsAsciiUpper(c) && !IsAsciiLower(c)
    ensures CountChar(c, Lower(s)) == CountChar(c, s)
  {
    if s != [] {
      assert Lower(s)[1..] == Lower(s[1..]);
      LowerCount(c, s[1..]);
    }
  }

  // ---------------------------------------------------------------------
  // trim
  // ---------------------------------------------------------------------

  /** Length of the leading whitespace run. */
  function LeadingSpaces(s: string): (n: nat)
    ensures n <= |s|
    ensures forall i :: 0 <= i < n ==> IsSpace(s[i])
    ensures n < |s| ==> !IsSpace(s[n])
  {
    if s != [] && IsSpace(s[0]) then 1 + LeadingSpaces(s[1..]) else 0
  }

  /** Index where the trailing whitespace run starts. */
  function TrailingStart(s: string): (n: nat)
    ensures n <= |s|
    ensures forall i :: n <= i < |s| ==> IsSpace(s[i])
    ensures n > 0 ==> !IsSpace(s[n - 1])
  {
    if s != [] && IsSpace(s[|s| - 1]) then TrailingStart(s[..|s| - 1]) else |s|
  }

  function TrimStart(s: string): string {
    s[LeadingSpaces(s)..]
  }

  /** `trim`: the string without its leading and trailing whitespace. */
  function Trim(s: string): (r: string)
    ensures r == [] || (!IsSpace(r[0]) && !IsSpace(r[|r| - 1]))
    ensures forall c :: c in r ==> c in s
    ensures r == [] <==> forall i :: 0 <= i < |s| ==> IsSpace(s[i])
  {
    var t := TrimStart(s);
    var r := t[..TrailingStart(t)];
    assert forall i :: 0 <= i < |r| ==> r[i] == s[LeadingSpaces(s) + i];
    r
  }

  /** Every whitespace character is a plain space and is not followed by another one. */
  ghost predicate SpacesCollapsed(s: string) {
    forall i :: 0 <= i < |s| && IsSpace(s[i]) ==> s[i] == ' ' && (i + 1 == |s| || !IsSpace(s[i + 1]))
  }

  /**
   * The shape `replace(/\s+/g, ' ').trim()` produces: every whitespace
   * character is a single ASCII space with a non-space on both sides.
   */
  ghost predicate SingleSpaced(s: string) {
    forall i :: 0 <= i < |s| && IsSpace(s[i]) ==> s[i] == ' ' && 0 < i < |s| - 1 && !IsSpace(s[i + 1])
  }

  lemma TrimSingleSpaced(s: string)
    requires SpacesCollapsed(s)
    ensures SingleSpaced(Trim(s))
  {
    var a := LeadingSpaces(s);
    var t := TrimStart(s);
    var r := Trim(s);
    assert forall i :: 0 <= i < |r| ==> r[i] == s[a + i];
  }

  lemma {:induction false} TrimStartCount(c: char, s: string)
    requires !IsSpace(c)
    ensures CountChar(c, TrimStart(s)) == CountChar(c, s)
  {
    var a := LeadingSpaces(s);
    assert s == s[..a] + s[a..];
    CountConcat(c, s[..a], s[a..]);
    CountAbsent(c, s[..a]);
  }

  lemma {:induction false} TrimCount(c: char, s: string)
    requires !IsSpace(c)
    ensures CountChar(c, Trim(s)) == CountChar(c, s)
  {
    var t := TrimStart(s);
    TrimStartCount(c, s);
    var b := TrailingStart(t);
    assert t == t[..b] + t[b..];
    CountConcat(c, t[..b], t[b..]);
    CountAbsent(c, t[b..]);
  }

  // ---------------------------------------------------------------------
  // replace(/\s+/g, ' ')
  // ---------------------------------------------------------------------

  /** Every maximal whitespace run becomes one ASCII space. */
  function CollapseWs(s: string): (r: string)
    ensures SpacesCollapsed(r)
    ensures s != [] && !IsSpace(s[0]) ==> r != [] && r[0] == s[0]
    ensures forall c :: c in r ==> c == ' ' || (c in s && !IsSpace(c))
    decreases |s|
  {
    if s == [] then []
    else if IsSpace(s[0]) then
      var t := TrimStart(s);
      assert forall c :: c in t ==> c in s;
      [' '] + CollapseWs(t)
    else
      [s[0]] + CollapseWs(s[1..])
  }

  lemma {:induction false} CollapseWsCount(c: char, s: string)
    requires !IsSpace(c)
    ensures CountChar(c, CollapseWs(s)) == CountChar(c, s)
    decreases |s|
  {
    if s == [] {
    } else if IsSpace(s[0]) {
      var t := TrimStart(s);
      CollapseWsCount(c, t);
      TrimStartCount(c, s);
      assert ([' '] + CollapseWs(t))[1..] == CollapseWs(t);
    } else {
      CollapseWsCount(c, s[1..]);
      assert ([s[0]] + CollapseWs(s[1..]))[1..] == CollapseWs(s[1..]);
    }
  }

  // ---------------------------------------------------------------------
  // split(/\s+/), split(" ") and first letters
  // ---------------------------------------------------------------------

  function IndexOfSpace(s: string): (k: nat)
    ensures k <= |s|
    ensures k < |s| ==> IsSpace(s[k])
    ensures forall i :: 0 <= i < k ==> !IsSpace(s[i])
  {
    if s == [] || IsSpace(s[0]) then 0 else 1 + IndexOfSpace(s[1..])
  }

  /**
   * `split(/\s+/)`: the pieces between maximal whitespace runs. A leading
   * or trailing run gives an empty first or last piece, and `""` splits
   * into `[""]`.
   */
  function SplitWs(s: string): (r: seq<string>)
    ensures |r| >= 1
    decreases |s|
  {
    var k := IndexOfSpace(s);
    if k == |s| then [s]
    else
      assert LeadingSpaces(s[k..]) >= 1;
      [s[..k]] + SplitWs(TrimStart(s[k..]))
  }

  function IndexOfChar(s: string, c: char): (k: nat)
    ensures k <= |s|
    ensures k < |s| ==> s[k] == c
    ensures forall i :: 0 <= i < k ==> s[i] != c
  {
    if s == [] || s[0] == c then 0 else 1 + IndexOfChar(s[1..], c)
  }

  /** `split(sep)` for a one-character separator. */
  function SplitOn(s: string, sep: char): (r: seq<string>)
    ensures |r| >= 1
    decreases |s|
  {
    var k := IndexOfChar(s, sep);
    if k == |s| then [s] else [s[..k]] + SplitOn(s[k + 1..], sep)
  }

  /** The non-empty pieces. */
  function NonEmpty(ps: seq<string>): (r: seq<string>)
    ensures forall k :: 0 <= k < |r| ==> r[k] != []
    ensures |r| <= |ps|
  {
    if ps == [] then [] else (if ps[0] == [] then [] else [ps[0]]) + NonEmpty(ps[1..])
  }

  /** The whitespace-separated tokens of `s`. */
  function Words(s: string): seq<string> {
    NonEmpty(SplitWs(s))
  }

  /** The first character of every non-empty piece, concatenated. */
  function FirstChars(ps: seq<string>): string {
    if ps == [] then [] else (if ps[0] == [] then [] else [ps[0][0]]) + FirstChars(ps[1..])
  }

  /**
   * `split(/\s+/).map(w => w[0]).filter(Boolean).join("")` and its
   * variants with `w[0] || ""`: the first letter of every token.
   */
  function Initials(s: string): string {
    FirstChars(SplitWs(s))
  }

  lemma {:induction false} FirstCharsOfNonEmpty(ps: seq<string>)
    ensures FirstChars(ps) == FirstChars(NonEmpty(ps))
    ensures |FirstChars(ps)| == |NonEmpty(ps)|
    ensures forall k :: 0 <= k < |NonEmpty(ps)| ==> FirstChars(ps)[k] == NonEmpty(ps)[k][0]
  {
    if ps != [] {
      FirstCharsOfNonEmpty(ps[1..]);
      if ps[0] != [] {
        var ne := [ps[0]] + NonEmpty(ps[1..]);
        assert NonEmpty(ps) == ne;
        assert ne[0] == ps[0] && ne[1..] == NonEmpty(ps[1..]);
        assert FirstChars(ne) == [ps[0][0]] + FirstChars(NonEmpty(ps[1..]));
      } else {
        assert NonEmpty(ps) == NonEmpty(ps[1..]);
      }
    }
  }

  /** An acronym has exactly one character per token: the token's first. */
  lemma InitialsAreFirstLetters(s: string)
    ensures |Initials(s)| == |Words(s)|
    ensures forall k :: 0 <= k < |Words(s)| ==> Initials(s)[k] == Words(s)[k][0]
  {
    FirstCharsOfNonEmpty(SplitWs(s));
  }

  /** A string has no token exactly when it is all whitespace. */
  lemma {:induction false} WordsEmptyIff(s: string)
    ensures Words(s) == [] <==> forall i :: 0 <= i < |s| ==> IsSpace(s[i])
    decreases |s|
  {
    var k := IndexOfSpace(s);
    if k == |s| {
      assert SplitWs(s) == [s];
      assert NonEmpty([s]) == (if s == [] then [] else [s]) + NonEmpty([]);
    } else {
      var t := TrimStart(s[k..]);
      assert LeadingSpaces(s[k..]) >= 1;
      WordsEmptyIff(t);
      assert SplitWs(s) == [s[..k]] + SplitWs(t);
      assert Words(s) == (if s[..k] == [] then [] else [s[..k]]) + Words(t);
      var a := LeadingSpaces(s[k..]);
      assert forall i :: 0 <= i < |t| ==> t[i] == s[k + a + i];
      if forall i :: 0 <= i < |s| ==> IsSpace(s[i]) {
        assert k == 0;
      } else if k == 0 {
        var j :| 0 <= j < |s| && !IsSpace(s[j]);
        assert j >= a;
        assert !IsSpace(t[j - a]);
      }
    }
  }

  // ---------------------------------------------------------------------
  // includes, replace of a literal
  // ---------------------------------------------------------------------

  /** `s.includes(t)`; every string includes `""`. */
  predicate Includes(s: string, t: string)
    decreases |s|
  {
    t <= s || (|s| > 0 && Includes(s[1..], t))
  }

  lemma {:induction false} IncludesMissingChar(s: string, t: string, c: char)
    requires c in t && c !in s
    ensures !Includes(s, t)
    decreases |s|
  {
    if |s| > 0 {
      assert c !in s[1..];
      IncludesMissingChar(s[1..], t, c);
    }
  }

  lemma {:induction false} IncludesSelf(s: string)
    ensures Includes(s, s)
  {
  }

  /**
   * `s.replace(/pat/g, rep)` for a literal pattern: occurrences are found
   * left to right and do not overlap.
   */
  function ReplaceAll(s: string, pat: string, rep: string): string
    requires |pat| > 0
    decreases |s|
  {
    if s == [] then []
    else if pat <= s then rep + ReplaceAll(s[|pat|..], pat, rep)
    else [s[0]] + ReplaceAll(s[1..], pat, rep)
  }

  /** A pattern with a character `s` lacks never matches, so nothing is replaced. */
  lemma {:induction false} ReplaceAllAbsent(s: string, pat: string, rep: string, c: char)
    requires |pat| > 0 && c in pat && c !in s
    ensures ReplaceAll(s, pat, rep) == s
    decreases |s|
  {
    if s != [] {
      assert !(pat <= s);
      assert c !in s[1..];
      ReplaceAllAbsent(s[1..], pat, rep, c);
    }
  }

  lemma {:induction false} ReplaceAllShortens(s: string, pat: string, rep: string)
    requires |pat| > 0 && |rep| <= |pat|
    ensures |ReplaceAll(s, pat, rep)| <= |s|
    decreases |s|
  {
    if s != [] {
      if pat <= s {
        ReplaceAllShortens(s[|pat|..], pat, rep);
      } else {
        ReplaceAllShortens(s[1..], pat, rep);
      }
    }
  }

  // ---------------------------------------------------------------------
  // replace(new RegExp(`\\b${word}\\b`, 'g'), rep)
  // ---------------------------------------------------------------------

  /** `w` occurs at `i` with a word boundary on both sides (`w` is made of word characters). */
  predicate WordAt(s: string, w: string, i: nat) {
    i + |w| <= |s| && s[i..i + |w|] == w
    && (i == 0 || !IsWordChar(s[i - 1]))
    && (i + |w| == |s| || !IsWordChar(s[i + |w|]))
  }

  function ReplaceWordFrom(s: string, w: string, rep: string, i: nat): string
    requires |w| > 0 && i <= |s|
    decreases |s| - i
  {
    if i == |s| then []
    else if WordAt(s, w, i) then rep + ReplaceWordFrom(s, w, rep, i + |w|)
    else [s[i]] + ReplaceWordFrom(s, w, rep, i + 1)
  }

  /** Replaces every whole-word occurrence of the lower-case word `w` by `rep`. */
  function ReplaceWord(s: string, w: string, rep: string): string
    requires IsLowerWord(w)
  {
    ReplaceWordFrom(s, w, rep, 0)
  }

  lemma {:induction false} ReplaceWordFromAbsent(s: string, w: string, rep: string, i: nat)
    requires |w| > 0 && i <= |s|
    requires forall j :: i <= j <= |s| ==> !WordAt(s, w, j)
    ensures ReplaceWordFrom(s, w, rep, i) == s[i..]
    decreases |s| - i
  {
    if i < |s| {
      ReplaceWordFromAbsent(s, w, rep, i + 1);
    }
  }

  /** Without a whole-word occurrence the text is unchanged (so `"someone"` keeps its `"one"`). */
  lemma ReplaceWordAbsent(s: string, w: string, rep: string)
    requires IsLowerWord(w)
    requires forall j :: 0 <= j <= |s| ==> !WordAt(s, w, j)
    ensures ReplaceWord(s, w, rep) == s
  {
    ReplaceWordFromAbsent(s, w, rep, 0);
  }

  lemma {:induction false} ReplaceWordFromChars(s: string, w: string, rep: string, i: nat)
    requires |w| > 0 && i <= |s|
    ensures forall c :: c in ReplaceWordFrom(s, w, rep, i) ==> c in s[i..] || c in rep
    decreases |s| - i
  {
    if i < |s| {
      if WordAt(s, w, i) {
        ReplaceWordFromChars(s, w, rep, i + |w|);
        assert forall c :: c in s[i + |w|..] ==> c in s[i..];
      } else {
        ReplaceWordFromChars(s, w, rep, i + 1);
        assert forall c :: c in s[i + 1..] ==> c in s[i..];
      }
    }
  }

  lemma {:induction false} ReplaceWordFromCount(c: char, s: string, w: string, rep: string, i: nat)
    requires |w| > 0 && i <= |s| && c !in w && c !in rep
    ensures CountChar(c, ReplaceWordFrom(s, w, rep, i)) == CountChar(c, s[i..])
    decreases |s| - i
  {
    if i < |s| {
      if WordAt(s, w, i) {
        ReplaceWordFromCount(c, s, w, rep, i + |w|);
        ReplacedWordCount(c, s, w, rep, i);
      } else {
        ReplaceWordFromCount(c, s, w, rep, i + 1);
        KeptCharCount(c, s, w, rep, i);
      }
    }
  }

  /** The step of `ReplaceWordFromCount` at a whole-word occurrence. */
  lemma ReplacedWordCount(c: char, s: string, w: string, rep: string, i: nat)
    requires |w| > 0 && i < |s| && c !in w && c !in rep && WordAt(s, w, i)
    requires CountChar(c, ReplaceWordFrom(s, w, rep, i + |w|)) == CountChar(c, s[i + |w|..])
    ensures CountChar(c, ReplaceWordFrom(s, w, rep, i)) == CountChar(c, s[i..])
  {
    CountSkipAbsent(c, rep, ReplaceWordFrom(s, w, rep, i + |w|));
    assert s[i..] == w + s[i + |w|..];
    CountSkipAbsent(c, w, s[i + |w|..]);
  }

  /** The step of `ReplaceWordFromCount` at a character that starts no occurrence. */
  lemma KeptCharCount(c: char, s: string, w: string, rep: string, i: nat)
    requires |w| > 0 && i < |s| && !WordAt(s, w, i)
    requires CountChar(c, ReplaceWordFrom(s, w, rep, i + 1)) == CountChar(c, s[i + 1..])
    ensures CountChar(c, ReplaceWordFrom(s, w, rep, i)) == CountChar(c, s[i..])
  {
    assert s[i..] == [s[i]] + s[i + 1..];
    CountConcat(c, [s[i]], s[i + 1..]);
    CountConcat(c, [s[i]], ReplaceWordFrom(s, w, rep, i + 1));
  }

  lemma CountSkipAbsent(c: char, a: string, b: string)
    requires c !in a
    ensures CountChar(c, a + b) == CountChar(c, b)
  {
    CountConcat(c, a, b);
    CountAbsent(c, a);
  }

  // ---------------------------------------------------------------------
  // Doubled vowels
  // ---------------------------------------------------------------------

  /** No vowel is immediately repeated. */
  ghost predicate NoDoubledVowel(s: string) {
    forall i :: 0 <= i < |s| - 1 ==> !(IsVowel(s[i]) && s[i + 1] == s[i])
  }

  lemma NoDoubledVowelConcat(a: string, b: string)
    requires NoDoubledVowel(a) && NoDoubledVowel(b)
    requires a != [] && b != [] ==> !(IsVowel(a[|a| - 1]) && b[0] == a[|a| - 1])
    ensures NoDoubledVowel(a + b)
  {
    var ab := a + b;
    forall i | 0 <= i < |ab| - 1
      ensures !(IsVowel(ab[i]) && ab[i + 1] == ab[i])
    {
      if i + 1 < |a| {
        assert ab[i] == a[i] && ab[i + 1] == a[i + 1];
      } else if i >= |a| {
        assert ab[i] == b[i - |a|] && ab[i + 1] == b[i - |a| + 1];
      }
    }
  }

  /**
   * Whole-word replacement keeps a text free of doubled vowels: the
   * characters on either side of a replaced word are not word characters.
   */
  lemma {:induction false} ReplaceWordFromNoDoubledVowel(s: string, w: string, rep: string, i: nat)
    requires IsLowerWord(w) && i <= |s| && rep != []
    requires NoDoubledVowel(s) && NoDoubledVowel(rep)
    ensures NoDoubledVowel(ReplaceWordFrom(s, w, rep, i))
    ensures i < |s| ==> ReplaceWordFrom(s, w, rep, i) != []
    ensures i < |s| ==> var out := ReplaceWordFrom(s, w, rep, i);
      out[0] == s[i] || (WordAt(s, w, i) && out[0] == rep[0])
    decreases |s| - i
  {
    if i < |s| {
      if WordAt(s, w, i) {
        var j := i + |w|;
        var rest := ReplaceWordFrom(s, w, rep, j);
        ReplaceWordFromNoDoubledVowel(s, w, rep, j);
        if j < |s| {
          assert s[j - 1] == w[|w| - 1];
          assert !WordAt(s, w, j);
          assert !IsWordChar(s[j]);
        }
        NoDoubledVowelConcat(rep, rest);
      } else {
        var rest := ReplaceWordFrom(s, w, rep, i + 1);
        ReplaceWordFromNoDoubledVowel(s, w, rep, i + 1);
        if i + 1 < |s| && WordAt(s, w, i + 1) {
          assert !IsWordChar(s[i]);
        }
        NoDoubledVowelConcat([s[i]], rest);
      }
    }
  }

  // ---------------------------------------------------------------------
  // The Gurmukhi mark filter
  // ---------------------------------------------------------------------

  /** Deletes the marks of `IsStrippedMark` and keeps everything else in order. */
  function StripMatras(s: string): (r: string)
    ensures |r| <= |s|
    ensures forall c :: c in r ==> c in s && !IsStrippedMark(c)
    ensures (forall c :: c in s ==> !IsStrippedMark(c)) ==> r == s
  {
    if s == [] then []
    else (if IsStrippedMark(s[0]) then [] else [s[0]]) + StripMatras(s[1..])
  }

  /** Marks are deleted one by one: stripping a concatenation strips each part. */
  lemma {:induction false} StripMatrasConcat(a: string, b: string)
    ensures StripMatras(a + b) == StripMatras(a) + StripMatras(b)
  {
    if a != [] {
      assert (a + b)[0] == a[0] && (a + b)[1..] == a[1..] + b;
      StripMatrasConcat(a[1..], b);
    } else {
      assert a + b == b;
    }
  }

  /** Stripping twice strips nothing more. */
  lemma StripMatrasIdempotent(s: string)
    ensures StripMatras(StripMatras(s)) == StripMatras(s)
  {
  }

  /** Every character that is not a stripped mark keeps its number of occurrences. */
  lemma {:induction false} StripMatrasCount(c: char, s: string)
    requires !IsStrippedMark(c)
    ensures CountChar(c, StripMatras(s)) == CountChar(c, s)
  {
    if s != [] {
      StripMatrasCount(c, s[1..]);
      CountConcat(c, if IsStrippedMark(s[0]) then [] else [s[0]], StripMatras(s[1..]));
    }
  }

  /** Iri, Ura and Ek Onkar are kept; every listed mark is deleted. */
  lemma StripMatrasSingle(c: char)
    ensures StripMatras([c]) == if IsStrippedMark(c) then [] else [c]
    ensures 0x0A72 <= c as int <= 0x0A74 ==> StripMatras([c]) == [c]
  {
    assert [c][1..] == [];
  }
}
