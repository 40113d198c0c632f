/**
 * The client-side matcher: transcript cleaning, the noise filter, the
 * acronym of a transcript, and the continuation matcher that looks for
 * the next spoken line inside the shabad already on screen.
 */
module Gurbani {
  import opened Text
  import opened Numbers
  import opened Verses
  import opened Wrappers

  // =====================================================================
  // cleanTranscript
  // =====================================================================

  /** `replace(/([aeiou])\1+/gi, '$1')`: a run of one repeated vowel becomes a single vowel. */
  function CollapseVowelRuns(s: string): (r: string)
    ensures |r| <= |s|
    ensures NoDoubledVowel(r)
    ensures s != [] ==> r != [] && r[0] == s[0]
    ensures forall c :: c in r ==> c in s
  {
    if |s| <= 1 then s
    else
      var rest := CollapseVowelRuns(s[1..]);
      assert forall c :: c in rest ==> c in s;
      if IsVowel(s[0]) && s[1] == s[0] then rest
      else
        NoDoubledVowelConcat([s[0]], rest);
        [s[0]] + rest
  }

  /** Text with no doubled vowel is left as it is, so lone vowels survive. */
  lemma CollapseKeepsUndoubled(s: string)
    requires NoDoubledVowel(s)
    ensures CollapseVowelRuns(s) == s
  {
    CollapseNothing(s);
  }

  /** A doubled vowel loses one copy: a run of vowels shrinks to exactly one. */
  lemma CollapseRunStep(c: char, s: string)
    requires IsVowel(c)
    ensures CollapseVowelRuns([c, c] + s) == CollapseVowelRuns([c] + s)
  {
    assert ([c, c] + s)[1..] == [c] + s;
  }

  /** A character that does not start a doubled vowel is kept, and the rest is collapsed on its own. */
  lemma CollapseKeepStep(c: char, s: string)
    requires !(IsVowel(c) && s != [] && s[0] == c)
    ensures CollapseVowelRuns([c] + s) == [c] + CollapseVowelRuns(s)
  {
    assert ([c] + s)[1..] == s;
  }

  lemma {:induction false} CollapseVowelRunsCount(c: char, s: string)
    requires !IsVowel(c)
    ensures CountChar(c, CollapseVowelRuns(s)) == CountChar(c, s)
  {
    if |s| > 1 {
      CollapseVowelRunsCount(c, s[1..]);
      if !(IsVowel(s[0]) && s[1] == s[0]) {
        CountConcat(c, [s[0]], CollapseVowelRuns(s[1..]));
      }
    }
  }

  /** The class `[a-z0-9\s਀-੿]` the cleaner keeps. */
  predicate IsTranscriptChar(c: char) {
    IsAsciiLower(c) || IsDigit(c) || IsSpace(c) || IsGurmukhi(c)
  }

  /** Deletes every character outside `IsTranscriptChar`. */
  function KeepTranscriptChars(s: string): (r: string)
    ensures forall c :: c in r ==> c in s && IsTranscriptChar(c)
    ensures (forall c :: c in s ==> IsTranscriptChar(c)) ==> r == s
  {
    if s == [] then []
    else (if IsTranscriptChar(s[0]) then [s[0]] else []) + KeepTranscriptChars(s[1..])
  }

  lemma {:induction false} KeepTranscriptCharsCount(c: char, s: string)
    requires IsTranscriptChar(c)
    ensures CountChar(c, KeepTranscriptChars(s)) == CountChar(c, s)
  {
    if s != [] {
      KeepTranscriptCharsCount(c, s[1..]);
      CountConcat(c, if IsTranscriptChar(s[0]) then [s[0]] else [], KeepTranscriptChars(s[1..]));
    }
  }

  /** The spoken numerals, in the key order of the source's object literal. */
  const NumberMap: seq<(string, string)> := [
    ("pahila", "1"), ("pehla", "1"), ("one", "1"), ("dooja", "2"), ("duja", "2"), ("two", "2"),
    ("teeja", "3"), ("trija", "3"), ("three", "3"), ("chautha", "4"), ("four", "4"), ("pa", "pa")
  ]

  /** The number map applied key by key; keys that are not `/^[a-z]+$/` are skipped. */
  function ApplyNumberMap(s: string, m: seq<(string, string)>): string
    decreases |m|
  {
    if m == [] then s
    else
      var t := ApplyNumberMap(s, m[..|m| - 1]);
      var (word, digit) := m[|m| - 1];
      if IsLowerWord(word) then ReplaceWord(t, word, digit) else t
  }

  /** The text just before the number map: lower-cased, trimmed, vowel runs collapsed, characters filtered. */
  function BeforeNumberMap(text: string): string {
    StripMatras(KeepTranscriptChars(CollapseVowelRuns(Trim(Lower(text)))))
  }

  /** What `cleanTranscript` returns. */
  function CleanText(text: string): string {
    Trim(CollapseWs(ApplyNumberMap(BeforeNumberMap(text), NumberMap)))
  }

  /** `cleanTranscript`: reassigns the text stage by stage, then walks the number map. */
  method CleanTranscript(text: string) returns (cleaned: string)
    ensures cleaned == CleanText(text)
    ensures SingleSpaced(cleaned)
  {
    cleaned := Trim(Lower(text));
    cleaned := CollapseVowelRuns(cleaned);
    cleaned := KeepTranscriptChars(cleaned);
    cleaned := StripMatras(cleaned);
    ghost var before := cleaned;
    var k := 0;
    while k < |NumberMap|
      invariant 0 <= k <= |NumberMap|
      invariant cleaned == ApplyNumberMap(before, NumberMap[..k])
    {
      var (word, digit) := NumberMap[k];
      if IsLowerWord(word) {
        cleaned := ReplaceWord(cleaned, word, digit);
      }
      assert NumberMap[..k + 1][..k] == NumberMap[..k];
      k := k + 1;
    }
    assert NumberMap[..k] == NumberMap;
    cleaned := Trim(CollapseWs(cleaned));
    TrimSingleSpaced(CollapseWs(ApplyNumberMap(before, NumberMap)));
  }

  lemma {:induction false} NumberMapChars(s: string, m: seq<(string, string)>)
    requires forall k :: 0 <= k < |m| ==> forall c :: c in m[k].1 ==> IsAlnum(c)
    ensures forall c :: c in ApplyNumberMap(s, m) ==> c in s || IsAlnum(c)
    decreases |m|
  {
    if m != [] {
      var p := m[..|m| - 1];
      NumberMapChars(s, p);
      var (word, digit) := m[|m| - 1];
      if IsLowerWord(word) {
        ReplaceWordFromChars(ApplyNumberMap(s, p), word, digit, 0);
      }
    }
  }

  lemma {:induction false} NumberMapCount(c: char, s: string, m: seq<(string, string)>)
    requires !IsAsciiLower(c) && !IsDigit(c)
    requires forall k :: 0 <= k < |m| ==> forall d :: d in m[k].1 ==> IsAlnum(d)
    ensures CountChar(c, ApplyNumberMap(s, m)) == CountChar(c, s)
    decreases |m|
  {
    if m != [] {
      var p := m[..|m| - 1];
      NumberMapCount(c, s, p);
      var (word, digit) := m[|m| - 1];
      if IsLowerWord(word) {
        ReplaceWordFromCount(c, ApplyNumberMap(s, p), word, digit, 0);
      }
    }
  }

  lemma NumberMapValuesAlnum()
    ensures forall k :: 0 <= k < |NumberMap| ==> forall c :: c in NumberMap[k].1 ==> IsAlnum(c)
  {
    forall k | 0 <= k < |NumberMap|
      ensures forall c :: c in NumberMap[k].1 ==> IsAlnum(c)
    {
      assert NumberMap[k].1 in ["1", "2", "3", "4", "pa"];
    }
  }

  /** A cleaned transcript is trimmed and every whitespace run in it is one ASCII space. */
  lemma CleanTextSpacing(text: string)
    ensures SingleSpaced(CleanText(text))
  {
    TrimSingleSpaced(CollapseWs(ApplyNumberMap(BeforeNumberMap(text), NumberMap)));
  }

  /**
   * A cleaned transcript holds only `a-z`, `0-9`, the space and Gurmukhi
   * characters outside the stripped marks.
   */
  lemma CleanTextAlphabet(text: string)
    ensures forall c :: c in CleanText(text) ==>
      IsAsciiLower(c) || IsDigit(c) || c == ' ' || (IsGurmukhi(c) && !IsStrippedMark(c))
  {
    var s4 := BeforeNumberMap(text);
    assert forall c :: c in s4 ==> IsTranscriptChar(c) && !IsStrippedMark(c);
    NumberMapValuesAlnum();
    NumberMapChars(s4, NumberMap);
  }

  lemma BeforeNumberMapKeepsLetters(text: string, c: char)
    requires IsGurmukhi(c) && !IsStrippedMark(c)
    ensures CountChar(c, BeforeNumberMap(text)) == CountChar(c, text)
  {
    LowerCount(c, text);
    TrimCount(c, Lower(text));
    var s1 := Trim(Lower(text));
    CollapseVowelRunsCount(c, s1);
    KeepTranscriptCharsCount(c, CollapseVowelRuns(s1));
    StripMatrasCount(c, KeepTranscriptChars(CollapseVowelRuns(s1)));
  }

  /**
   * Every Gurmukhi letter (any Gurmukhi character but the stripped marks,
   * so Iri, Ura and Ek Onkar among them) keeps its number of occurrences.
   */
  lemma CleanTextKeepsLetters(text: string, c: char)
    requires IsGurmukhi(c) && !IsStrippedMark(c)
    ensures CountChar(c, CleanText(text)) == CountChar(c, text)
  {
    BeforeNumberMapKeepsLetters(text, c);
    NumberMapValuesAlnum();
    NumberMapCount(c, BeforeNumberMap(text), NumberMap);
    var s5 := ApplyNumberMap(BeforeNumberMap(text), NumberMap);
    CollapseWsCount(c, s5);
    TrimCount(c, CollapseWs(s5));
  }

  // ---------------------------------------------------------------------
  // The number-map keys with a doubled vowel
  // ---------------------------------------------------------------------

  /** The text the number map sees before key `k`. */
  function NumberMapPrefix(text: string, k: nat): string
    requires k <= |NumberMap|
  {
    ApplyNumberMap(BeforeNumberMap(text), NumberMap[..k])
  }

  ghost predicate HasDoubledVowel(w: string) {
    !NoDoubledVowel(w)
  }

  lemma {:induction false} NumberMapKeepsNoDoubledVowel(s: string, k: nat)
    requires k <= |NumberMap| && NoDoubledVowel(s)
    ensures NoDoubledVowel(ApplyNumberMap(s, NumberMap[..k]))
  {
    if k > 0 {
      NumberMapKeepsNoDoubledVowel(s, k - 1);
      assert NumberMap[..k][..k - 1] == NumberMap[..k - 1];
      var (word, digit) := NumberMap[k - 1];
      assert digit in ["1", "2", "3", "4", "pa"];
      assert NoDoubledVowel(digit);
      if IsLowerWord(word) {
        ReplaceWordFromNoDoubledVowel(ApplyNumberMap(s, NumberMap[..k - 1]), word, digit, 0);
      }
    }
  }

  /** Characters the filters of the cleaner keep unchanged. */
  predicate IsPlainChar(c: char) {
    IsAsciiUpper(c) || IsAsciiLower(c) || IsDigit(c) || IsSpace(c) || (IsGurmukhi(c) && !IsStrippedMark(c))
  }

  /** On text of plain characters the character filters delete nothing. */
  lemma PlainBeforeNumberMap(text: string)
    requires forall c :: c in text ==> IsPlainChar(c)
    ensures BeforeNumberMap(text) == CollapseVowelRuns(Trim(Lower(text)))
    ensures NoDoubledVowel(BeforeNumberMap(text))
  {
    var low := Lower(text);
    LowerPlainChars(text);
    var s2 := CollapseVowelRuns(Trim(low));
    assert forall c :: c in s2 ==> c in low;
    assert KeepTranscriptChars(s2) == s2;
    assert StripMatras(s2) == s2;
  }

  /** Lower-casing plain characters gives characters both filters keep. */
  lemma LowerPlainChars(text: string)
    requires forall c :: c in text ==> IsPlainChar(c)
    ensures forall c :: c in Lower(text) ==> IsTranscriptChar(c) && !IsStrippedMark(c)
  {
    var low := Lower(text);
    forall c | c in low
      ensures IsTranscriptChar(c) && !IsStrippedMark(c)
    {
      var i :| 0 <= i < |low| && low[i] == c;
      assert c == LowerChar(text[i]);
      assert text[i] in text;
    }
  }

  /** A key with a doubled vowel has no whole-word occurrence in text without one. */
  lemma DoubledWordInert(s: string, word: string, rep: string)
    requires IsLowerWord(word) && HasDoubledVowel(word) && NoDoubledVowel(s)
    ensures ReplaceWord(s, word, rep) == s
  {
    var i :| 0 <= i < |word| - 1 && IsVowel(word[i]) && word[i + 1] == word[i];
    forall j | 0 <= j <= |s|
      ensures !WordAt(s, word, j)
    {
      if WordAt(s, word, j) {
        assert false;
      }
    }
    ReplaceWordAbsent(s, word, rep);
  }

  /**
   * On text the filters leave alone, a key with a doubled vowel
   * (`"dooja"`, `"teeja"`) never fires: the vowel collapse has already
   * turned it into `"doja"` / `"teja"`.
   */
  lemma PlainTextDoubledVowelKeysInert(text: string, k: nat)
    requires forall c :: c in text ==> IsPlainChar(c)
    requires k < |NumberMap| && HasDoubledVowel(NumberMap[k].0)
    ensures NumberMapPrefix(text, k + 1) == NumberMapPrefix(text, k)
  {
    var before := BeforeNumberMap(text);
    assert NoDoubledVowel(before) by {
      PlainBeforeNumberMap(text);
    }
    NumberMapKeepsNoDoubledVowel(before, k);
    NumberMapPrefixStep(text, k);
    var word := NumberMap[k].0;
    if IsLowerWord(word) {
      DoubledWordInert(NumberMapPrefix(text, k), word, NumberMap[k].1);
    }
  }

  // ---------------------------------------------------------------------
  // Worked examples of the number map
  // ---------------------------------------------------------------------

  /** The number map one key further. */
  lemma NumberMapPrefixStep(text: string, k: nat)
    requires k < |NumberMap|
    ensures NumberMapPrefix(text, k + 1) ==
      var t := NumberMapPrefix(text, k);
      if IsLowerWord(NumberMap[k].0) then ReplaceWord(t, NumberMap[k].0, NumberMap[k].1) else t
  {
    assert NumberMap[..k + 1][..k] == NumberMap[..k];
  }

  /** `w` has no whole-word occurrence in `s` from index `i` on. */
  function NoWordFrom(s: string, w: string, i: nat): (b: bool)
    ensures b <==> forall j :: i <= j <= |s| ==> !WordAt(s, w, j)
    decreases |s| + 1 - i
  {
    i > |s| || (!WordAt(s, w, i) && NoWordFrom(s, w, i + 1))
  }

  /** None of the keys `k` up to `e` has a whole-word occurrence in `t`. */
  function KeysAbsent(t: string, k: nat, e: nat): bool
    requires k <= e <= |NumberMap|
    decreases e - k
  {
    k == e || (NoWordFrom(t, NumberMap[k].0, 0) && KeysAbsent(t, k + 1, e))
  }

  lemma {:induction false} KeysAbsentJoin(t: string, k: nat, m: nat, e: nat)
    requires k <= m <= e <= |NumberMap|
    requires KeysAbsent(t, k, m) && KeysAbsent(t, m, e)
    ensures KeysAbsent(t, k, e)
    decreases m - k
  {
    if k < m {
      KeysAbsentJoin(t, k + 1, m, e);
    }
  }

  /** Keys without a whole-word occurrence leave the text as it is. */
  lemma {:induction false} KeysInert(text: string, t: string, k: nat, e: nat)
    requires k <= e <= |NumberMap|
    requires NumberMapPrefix(text, k) == t && KeysAbsent(t, k, e)
    ensures NumberMapPrefix(text, e) == t
    decreases e - k
  {
    if k < e {
      NumberMapPrefixStep(text, k);
      if IsLowerWord(NumberMap[k].0) {
        ReplaceWordAbsent(t, NumberMap[k].0, NumberMap[k].1);
      }
      KeysInert(text, t, k + 1, e);
    }
  }

  /** A text that is exactly the key is replaced as a whole. */
  lemma ReplaceWholeWord(w: string, rep: string)
    requires IsLowerWord(w)
    ensures ReplaceWord(w, w, rep) == rep
  {
    assert w[0..|w|] == w;
    assert WordAt(w, w, 0);
    assert ReplaceWordFrom(w, w, rep, |w|) == [];
  }

  /** Every character from index `i` on is a lower-case ASCII letter or a digit. */
  function PlainTokenFrom(s: string, i: nat): (b: bool)
    ensures b <==> forall j :: i <= j < |s| ==> IsAsciiLower(s[j]) || IsDigit(s[j])
    decreases |s| - i
  {
    i >= |s| || ((IsAsciiLower(s[i]) || IsDigit(s[i])) && PlainTokenFrom(s, i + 1))
  }

  lemma TokenIsPlain(w: string)
    requires PlainTokenFrom(w, 0)
    ensures forall c :: c in w ==> IsPlainChar(c)
  {
  }

  lemma TokenTrimmed(w: string)
    requires |w| > 0 && PlainTokenFrom(w, 0)
    ensures Trim(w) == w
  {
    assert LeadingSpaces(w) == 0;
    assert TrimStart(w) == w;
    assert TrailingStart(w) == |w|;
  }

  lemma TokenLowerTrimmed(w: string)
    requires |w| > 0 && PlainTokenFrom(w, 0)
    ensures Trim(Lower(w)) == w
  {
    assert Lower(w) == w;
    TokenTrimmed(w);
  }

  /** A single token of letters and digits reaches the number map with only its vowel runs collapsed. */
  lemma TokenBeforeNumberMap(w: string)
    requires |w| > 0 && PlainTokenFrom(w, 0)
    ensures BeforeNumberMap(w) == CollapseVowelRuns(w)
  {
    TokenIsPlain(w);
    PlainBeforeNumberMap(w);
    TokenLowerTrimmed(w);
  }

  lemma {:induction false} CollapseWsNoSpace(s: string)
    requires PlainTokenFrom(s, 0)
    ensures CollapseWs(s) == s
  {
    if s != [] {
      assert IsAsciiLower(s[0]) || IsDigit(s[0]);
      assert !IsSpace(s[0]);
      assert PlainTokenFrom(s[1..], 0);
      CollapseWsNoSpace(s[1..]);
      assert CollapseWs(s) == [s[0]] + CollapseWs(s[1..]);
      assert s == [s[0]] + s[1..];
    }
  }

  /** A single token of letters and digits is left alone by the final whitespace clean-up. */
  lemma TokenAfterNumberMap(w: string)
    requires |w| > 0 && PlainTokenFrom(w, 0)
    ensures Trim(CollapseWs(w)) == w
  {
    CollapseWsNoSpace(w);
    TokenTrimmed(w);
  }

  /**
   * A text that reaches the number map as exactly the key `k`, where no
   * earlier key occurs in the key and no later key in its digit, cleans
   * to that digit.
   */
  lemma KeyFires(text: string, k: nat, word: string, digit: string)
    requires k < |NumberMap| && NumberMap[k] == (word, digit) && IsLowerWord(word)
    requires BeforeNumberMap(text) == word && |digit| > 0 && PlainTokenFrom(digit, 0)
    requires KeysAbsent(word, 0, k) && KeysAbsent(digit, k + 1, |NumberMap|)
    ensures CleanText(text) == digit
  {
    assert NumberMap[..0] == [];
    KeysInert(text, word, 0, k);
    NumberMapPrefixStep(text, k);
    ReplaceWholeWord(word, digit);
    KeysInert(text, digit, k + 1, |NumberMap|);
    assert NumberMap[..|NumberMap|] == NumberMap;
    TokenAfterNumberMap(digit);
  }

  /** A token in which no key occurs as a whole word keeps its cleaned form. */
  lemma NoKeyFires(text: string, t: string)
    requires BeforeNumberMap(text) == t && |t| > 0 && PlainTokenFrom(t, 0) && KeysAbsent(t, 0, |NumberMap|)
    ensures CleanText(text) == t
  {
    assert NumberMap[..0] == [];
    KeysInert(text, t, 0, |NumberMap|);
    assert NumberMap[..|NumberMap|] == NumberMap;
    TokenAfterNumberMap(t);
  }

  /**
   * The example words. The lemmas below speak of them by name so that the
   * verifier does not unfold the whole cleaner on a literal.
   */
  const One: string := "one"
  const Duja: string := "duja"
  const Four: string := "four"
  const Three: string := "three"
  const Someone: string := "someone"

  lemma OneFacts()
    ensures One == "one" && NumberMap[2] == ("one", "1") && IsLowerWord("one")
    ensures PlainTokenFrom("one", 0) && NoRunFrom("one", 0) && PlainTokenFrom("1", 0)
    ensures KeysAbsent("one", 0, 2) && KeysAbsent("1", 3, 12)
  {
  }

  lemma CleanOne()
    ensures CleanText(One) == "1"
  {
    OneFacts();
    TokenBeforeNumberMap(One);
    CollapseNothing(One);
    KeyFires(One, 2, "one", "1");
  }

  lemma DujaFacts()
    ensures Duja == "duja" && NumberMap[4] == ("duja", "2") && IsLowerWord("duja")
    ensures PlainTokenFrom("duja", 0) && NoRunFrom("duja", 0) && PlainTokenFrom("2", 0)
    ensures KeysAbsent("duja", 0, 4) && KeysAbsent("2", 5, 12)
  {
  }

  lemma CleanDuja()
    ensures CleanText(Duja) == "2"
  {
    DujaFacts();
    TokenBeforeNumberMap(Duja);
    CollapseNothing(Duja);
    KeyFires(Duja, 4, "duja", "2");
  }

  lemma FourFacts()
    ensures Four == "four" && NumberMap[10] == ("four", "4") && IsLowerWord("four")
    ensures PlainTokenFrom("four", 0) && NoRunFrom("four", 0) && PlainTokenFrom("4", 0)
    ensures KeysAbsent("four", 0, 10) && KeysAbsent("4", 11, 12)
  {
  }

  lemma CleanFour()
    ensures CleanText(Four) == "4"
  {
    FourFacts();
    TokenBeforeNumberMap(Four);
    CollapseNothing(Four);
    KeyFires(Four, 10, "four", "4");
  }

  lemma CollapseThree()
    ensures CollapseVowelRuns("three") == "thre"
  {
    assert CollapseVowelRuns("e") == "e";
    assert CollapseVowelRuns("ee") == "e";
    assert CollapseVowelRuns("ree") == "re";
  }

  lemma ThreeFacts()
    ensures Three == "three" && PlainTokenFrom("three", 0) && PlainTokenFrom("thre", 0)
  {
  }

  /** A key with a character the text lacks has no whole-word occurrence in it. */
  lemma NoWordMissingChar(t: string, w: string, c: char)
    requires c in w && c !in t
    ensures NoWordFrom(t, w, 0)
  {
    forall j | 0 <= j <= |t|
      ensures !WordAt(t, w, j)
    {
    }
  }

  /** Keys that each have no whole-word occurrence are absent together. */
  lemma {:induction false} KeysAbsentEach(t: string, k: nat, e: nat)
    requires k <= e <= |NumberMap|
    requires forall j :: k <= j < e ==> NoWordFrom(t, NumberMap[j].0, 0)
    ensures KeysAbsent(t, k, e)
    decreases e - k
  {
    if k < e {
      KeysAbsentEach(t, k + 1, e);
    }
  }

  /** For every key but `"three"` (index 8), a character of it that `"thre"` lacks. */
  const ThreMissing: string := "ppoddwjj-cfp"

  lemma ThreMissingChars(j: int)
    requires 0 <= j < |NumberMap| && j != 8
    ensures ThreMissing[j] in NumberMap[j].0 && ThreMissing[j] !in "thre"
  {
  }

  /** `"thre"` is shorter than `"three"` and lacks a letter of every other key. */
  lemma ThreKeysAbsent()
    ensures KeysAbsent("thre", 0, 12)
  {
    forall j | 0 <= j < |NumberMap|
      ensures NoWordFrom("thre", NumberMap[j].0, 0)
    {
      if j == 8 {
        assert |NumberMap[j].0| > |"thre"|;
      } else {
        ThreMissingChars(j);
        NoWordMissingChar("thre", NumberMap[j].0, ThreMissing[j]);
      }
    }
    KeysAbsentEach("thre", 0, 12);
  }

  lemma CleanThree()
    ensures CleanText(Three) == "thre"
  {
    ThreeFacts();
    ThreKeysAbsent();
    CollapseThree();
    TokenBeforeNumberMap(Three);
    NoKeyFires(Three, "thre");
  }

  lemma SomeoneFacts()
    ensures Someone == "someone" && PlainTokenFrom("someone", 0) && NoRunFrom("someone", 0)
  {
  }

  /** For every key but `"one"` (index 2), a character of it that `"someone"` lacks. */
  const SomeoneMissing: string := "pp-ddttttcfp"

  lemma SomeoneMissingChars(j: int)
    requires 0 <= j < |NumberMap| && j != 2
    ensures SomeoneMissing[j] in NumberMap[j].0 && SomeoneMissing[j] !in Someone
  {
  }

  /** The only `"one"` in `"someone"` follows the word character `e`. */
  lemma SomeoneHasNoWordOne()
    ensures NoWordFrom(Someone, One, 0)
  {
    forall j | 0 <= j <= |Someone|
      ensures !WordAt(Someone, One, j)
    {
    }
  }

  /** The `"one"` of `"someone"` follows a word character, so no key occurs in it as a whole word. */
  lemma SomeoneKeysAbsent()
    ensures KeysAbsent("someone", 0, 12)
  {
    forall j | 0 <= j < |NumberMap|
      ensures NoWordFrom(Someone, NumberMap[j].0, 0)
    {
      if j == 2 {
        SomeoneHasNoWordOne();
      } else {
        SomeoneMissingChars(j);
        NoWordMissingChar(Someone, NumberMap[j].0, SomeoneMissing[j]);
      }
    }
    KeysAbsentEach(Someone, 0, 12);
  }

  lemma CleanSomeone()
    ensures CleanText(Someone) == Someone
  {
    SomeoneFacts();
    SomeoneKeysAbsent();
    TokenBeforeNumberMap(Someone);
    CollapseNothing(Someone);
    NoKeyFires(Someone, Someone);
  }

  /**
   * The number map on single words: `"one"`, `"duja"` and `"four"` become
   * digits; `"three"` loses a vowel to the collapse and no longer matches
   * its key; the `"one"` inside `"someone"` is not a whole word.
   */
  lemma NumberMapExamples()
    ensures CleanText(One) == "1" && CleanText(Duja) == "2" && CleanText(Four) == "4"
    ensures CleanText(Three) == "thre" && CleanText(Someone) == Someone
  {
    CleanOne();
    CleanDuja();
    CleanFour();
    CleanThree();
    CleanSomeone();
  }

  /** Text with no doubled vowel has no vowel run to collapse. */
  lemma {:induction false} CollapseNothing(s: string)
    requires NoRunFrom(s, 0)
    ensures CollapseVowelRuns(s) == s
  {
    if |s| > 1 {
      assert NoRunFrom(s[1..], 0);
      CollapseNothing(s[1..]);
    }
  }

  /** No vowel is doubled from index `i` on. */
  function NoRunFrom(s: string, i: nat): (b: bool)
    ensures b <==> forall j :: i <= j < |s| - 1 ==> !(IsVowel(s[j]) && s[j + 1] == s[j])
    decreases |s| - i
  {
    i + 1 >= |s| || (!(IsVowel(s[i]) && s[i + 1] == s[i]) && NoRunFrom(s, i + 1))
  }

  // =====================================================================
  // getAcronym
  // =====================================================================

  /** `getAcronym`: the first character of every token of the cleaned text. */
  function GetAcronym(text: string): string {
    Initials(CleanText(text))
  }

  /**
   * The acronym has exactly one character per token of the cleaned
   * transcript, that token's first, in order; it is empty exactly when the
   * cleaned transcript is (in particular for empty or whitespace-only text).
   */
  lemma AcronymOfCleanTokens(text: string)
    ensures |GetAcronym(text)| == |Words(CleanText(text))|
    ensures forall k :: 0 <= k < |Words(CleanText(text))| ==>
      GetAcronym(text)[k] == Words(CleanText(text))[k][0]
    ensures GetAcronym(text) == [] <==> CleanText(text) == []
  {
    var s := CleanText(text);
    InitialsAreFirstLetters(s);
    WordsEmptyIff(s);
    CleanTextSpacing(text);
  }

  /** Empty or whitespace-only text cleans to the empty string (and so has the empty acronym). */
  lemma CleanBlank(text: string)
    requires forall i :: 0 <= i < |text| ==> IsSpace(text[i])
    ensures CleanText(text) == []
  {
    var low := Lower(text);
    assert forall i :: 0 <= i < |low| ==> IsSpace(low[i]);
    assert Trim(low) == [];
    assert BeforeNumberMap(text) == [];
    EmptyNumberMap(|NumberMap|);
    assert NumberMap[..|NumberMap|] == NumberMap;
  }

  lemma {:induction false} EmptyNumberMap(k: nat)
    requires k <= |NumberMap|
    ensures ApplyNumberMap([], NumberMap[..k]) == []
  {
    if k > 0 {
      EmptyNumberMap(k - 1);
      assert NumberMap[..k][..k - 1] == NumberMap[..k - 1];
    }
  }

  // =====================================================================
  // isProbableNoise
  // =====================================================================

  /** The English filler words the noise filter counts. */
  const Fillers: seq<string> := [
    "yeah", "okay", "hello", "hi", "testing", "mic", "check", "the", "and", "but",
    "actually", "maybe", "sorry", "wait", "um", "ah", "like", "know", "right",
    "just", "so", "then", "well", "think"
  ]

  function FillerCount(words: seq<string>): (n: nat)
    ensures n <= |words|
  {
    if words == [] then 0 else (if words[0] in Fillers then 1 else 0) + FillerCount(words[1..])
  }

  /** Four equal characters, other than a line terminator, start at `i` (`/(.)\1{3,}/`). */
  predicate RunAt(t: string, i: nat) {
    i + 3 < |t| && !IsLineTerminator(t[i]) && t[i + 1] == t[i] && t[i + 2] == t[i] && t[i + 3] == t[i]
  }

  /** Scans for a run of four from `i` on. */
  function HasRunFrom(t: string, i: nat): (b: bool)
    ensures b <==> exists j :: i <= j && RunAt(t, j)
    decreases |t| - i
  {
    if i + 3 >= |t| then false else RunAt(t, i) || HasRunFrom(t, i + 1)
  }

  /**
   * `isProbableNoise`: noise when the lower-cased, trimmed text has fewer
   * than two characters, when more than half of its tokens are fillers,
   * or when some character repeats four times in a row.
   */
  function IsProbableNoise(text: string): (noise: bool)
    ensures var t := Trim(Lower(text)); var words := SplitWs(t);
      noise <==> (|t| < 2 || 2 * FillerCount(words) > |words| || exists i :: RunAt(t, i))
  {
    var t := Trim(Lower(text));
    if |t| < 2 then true
    else
      var words := SplitWs(t);
      // fillerCount / words.length > 0.5
      if 2 * FillerCount(words) > |words| then true
      else HasRunFrom(t, 0)
  }

  // =====================================================================
  // attemptLocalMatch
  // =====================================================================

  datatype LocalMatch = LocalMatch(line: Line, confidence: int)

  /** `lines.findIndex(l => l.id === currentResult.match?.id)`; -1 when absent. */
  function MatchIndex(lines: seq<Line>, matchId: Option<int>): (k: int)
    ensures -1 <= k < |lines|
    ensures k >= 0 ==>
      matchId.Some? && lines[k].id == matchId.value && forall j :: 0 <= j < k ==> lines[j].id != matchId.value
    ensures k == -1 ==> matchId.None? || forall j :: 0 <= j < |lines| ==> lines[j].id != matchId.value
  {
    if matchId.None? || lines == [] then -1
    else if lines[0].id == matchId.value then 0
    else
      var k := MatchIndex(lines[1..], matchId);
      if k == -1 then -1 else k + 1
  }

  /** First index of the look-ahead window `lines.slice(Math.max(0, i), i + 15)`. */
  function WindowStart(lines: seq<Line>, matchId: Option<int>): nat {
    var i := MatchIndex(lines, matchId);
    if i < 0 then 0 else i
  }

  /** End (exclusive) of the look-ahead window. */
  function WindowEnd(lines: seq<Line>, matchId: Option<int>): (e: nat)
    ensures WindowStart(lines, matchId) <= e <= |lines|
  {
    var i := MatchIndex(lines, matchId);
    if i + 15 > |lines| then |lines| else i + 15
  }

  /** The text a line is compared by: its Gurmukhi for Gurmukhi input when it has one, else its transliteration. */
  function LineSource(line: Line, gurmukhiInput: bool): string {
    if gurmukhiInput && line.gurmukhi != "" then line.gurmukhi else line.transliteration
  }

  /** Spoken words longer than one character that the line's cleaned text includes. */
  function SpokenHits(spoken: seq<string>, lineText: string): (n: nat)
    ensures n <= |spoken|
    decreases |spoken|
  {
    if spoken == [] then 0
    else
      var w := spoken[|spoken| - 1];
      SpokenHits(spoken[..|spoken| - 1], lineText) + (if |w| > 1 && Includes(lineText, w) then 1 else 0)
  }

  /** The words matched and the score of one line. */
  datatype LineVerdict = LineVerdict(hits: nat, score: real)

  /** The score of a line from the spoken words, the line's cleaned text and both acronyms. */
  function Score(spoken: seq<string>, lineText: string, lineAcronym: string, spokenAcronym: string): LineVerdict {
    var hits := SpokenHits(spoken, lineText);
    LineVerdict(hits, Ratio(hits, |spoken|) * 80.0 + AcronymBonus(lineAcronym, spokenAcronym))
  }

  function Verdict(text: string, line: Line): LineVerdict {
    var cleanInput := CleanText(text);
    var source := LineSource(line, HasGurmukhi(cleanInput));
    Score(SplitOn(cleanInput, ' '), CleanText(source), GetAcronym(source), GetAcronym(text))
  }

  /** 20 points when either acronym includes the other (always so when one of them is empty). */
  function AcronymBonus(lineAcronym: string, spokenAcronym: string): real {
    if Includes(lineAcronym, spokenAcronym) || Includes(spokenAcronym, lineAcronym) then 20.0 else 0.0
  }

  /** An empty acronym on either side earns the bonus, because every text includes `""`. */
  lemma EmptyAcronymEarnsBonus(lineAcronym: string, spokenAcronym: string)
    requires lineAcronym == "" || spokenAcronym == ""
    ensures AcronymBonus(lineAcronym, spokenAcronym) == 20.0
  {
  }

  /** The two acceptance bands. */
  predicate Accepted(v: LineVerdict) {
    v.score >= 60.0 || (v.hits > 0 && v.score >= 40.0)
  }

  /** The body of the source's per-line loop: count the matched spoken words, then add the acronym bonus. */
  method ScoreLine(spokenWords: seq<string>, lineText: string, lineAcronym: string, spokenAcronym: string)
    returns (matchedWords: nat, score: real)
    ensures LineVerdict(matchedWords, score) == Score(spokenWords, lineText, lineAcronym, spokenAcronym)
  {
    matchedWords := 0;
    score := 0.0;
    var lineWords := SplitOn(lineText, ' ');
    if |lineWords| > 0 {
      var k := 0;
      while k < |spokenWords|
        invariant 0 <= k <= |spokenWords|
        invariant matchedWords == SpokenHits(spokenWords[..k], lineText)
      {
        var w := spokenWords[k];
        if |w| > 1 && Includes(lineText, w) {
          matchedWords := matchedWords + 1;
        }
        assert spokenWords[..k + 1][..k] == spokenWords[..k];
        k := k + 1;
      }
      assert spokenWords[..k] == spokenWords;
      score := score + Ratio(matchedWords, |spokenWords|) * 80.0;
    }
    if Includes(lineAcronym, spokenAcronym) || Includes(spokenAcronym, lineAcronym) {
      score := score + 20.0;
    }
  }

  /** Line `j` is the first accepted one from `lo` on, and `m` reports it with its rounded score. */
  predicate FirstAcceptedAt(text: string, lines: seq<Line>, lo: nat, j: nat, m: LocalMatch)
    requires j < |lines|
  {
    m.line == lines[j] && Accepted(Verdict(text, lines[j]))
    && (forall k :: lo <= k < j ==> !Accepted(Verdict(text, lines[k])))
    && m.confidence == Round(Verdict(text, lines[j]).score)
  }

  /**
   * `attemptLocalMatch`: nothing without a shabad; otherwise the first line
   * of the look-ahead window that is accepted, with its rounded score.
   */
  method AttemptLocalMatch(text: string, shabad: Option<seq<Line>>, matchId: Option<int>)
    returns (r: Option<LocalMatch>)
    ensures shabad.None? ==> r.None?
    ensures shabad.Some? ==>
      var lines := shabad.value;
      var lo, hi := WindowStart(lines, matchId), WindowEnd(lines, matchId);
      (r.None? <==> forall j :: lo <= j < hi ==> !Accepted(Verdict(text, lines[j])))
      && (r.Some? ==> exists j :: lo <= j < hi && FirstAcceptedAt(text, lines, lo, j, r.value))
  {
    if shabad.None? {
      return None;
    }
    var cleanInput := CleanTranscript(text);
    var spokenAcronym := GetAcronym(text);
    var spokenWords := SplitOn(cleanInput, ' ');
    var isGurmukhiInput := HasGurmukhi(cleanInput);
    var lines := shabad.value;
    var currentIndex := MatchIndex(lines, matchId);
    var lo := if currentIndex < 0 then 0 else currentIndex;
    var hi := if currentIndex + 15 > |lines| then |lines| else currentIndex + 15;
    assert lo == WindowStart(lines, matchId) && hi == WindowEnd(lines, matchId);
    var j := lo;
    while j < hi
      invariant lo <= j <= hi
      invariant forall k :: lo <= k < j ==> !Accepted(Verdict(text, lines[k]))
    {
      var line := lines[j];
      var source := LineSource(line, isGurmukhiInput);
      var lineText := CleanTranscript(source);
      var lineAcronym := GetAcronym(source);
      var matchedWords, score := ScoreLine(spokenWords, lineText, lineAcronym, spokenAcronym);
      assert Verdict(text, line) == Score(spokenWords, lineText, lineAcronym, spokenAcronym);
      assert Verdict(text, line) == LineVerdict(matchedWords, score);
      if score >= 60.0 || (matchedWords > 0 && score >= 40.0) {
        r := Some(LocalMatch(line, Round(score)));
        assert FirstAcceptedAt(text, lines, lo, j, r.value);
        return;
      }
      forall k | lo <= k < j + 1
        ensures !Accepted(Verdict(text, lines[k]))
      {
        if k == j {
          assert lines[k] == line;
        }
      }
      j := j + 1;
    }
    return None;
  }

  /**
   * An accepted line matched at least one spoken word, and its confidence
   * `Math.round(score)` lies in [40, 100].
   */
  lemma AcceptedLineBounds(spoken: seq<string>, lineText: string, lineAcronym: string, spokenAcronym: string)
    requires Accepted(Score(spoken, lineText, lineAcronym, spokenAcronym))
    ensures Score(spoken, lineText, lineAcronym, spokenAcronym).hits >= 1
    ensures 40 <= Round(Score(spoken, lineText, lineAcronym, spokenAcronym).score) <= 100
  {
    var v := Score(spoken, lineText, lineAcronym, spokenAcronym);
    assert Ratio(v.hits, |spoken|) <= 1.0;
    RoundWithin(v.score, 40, 100);
  }

  /** The window never reaches back before the current line nor more than 15 lines ahead of it (14 when it is absent). */
  lemma WindowBounds(lines: seq<Line>, matchId: Option<int>)
    ensures var i := MatchIndex(lines, matchId);
      (i >= 0 ==> WindowStart(lines, matchId) == i && WindowEnd(lines, matchId) <= i + 15)
      && (i < 0 ==> WindowStart(lines, matchId) == 0 && WindowEnd(lines, matchId) <= 14)
  {
  }
}
