/**
 * `normalizeForMatch`: the phonetic folding the search route applies to
 * transliterations before comparing them.
 */
module Normalize {
  import opened Text

  /** The literal replacements, in the order the source applies them. */
  const FoldRules: seq<(string, string)> := [
    ("(n)", "n"), ("aa", "a"), ("ee", "i"), ("oo", "u"), ("dh", "d"), ("th", "t"), ("bh", "b"),
    ("kh", "k"), ("gh", "g"), ("jh", "j"), ("ph", "p"), ("ch", "c"), ("sh", "s"), ("rh", "r"), ("w", "v")
  ]

  /** Every rule has a non-empty pattern, a replacement no longer than it, and an ASCII letter in it. */
  predicate WellFormedRules(rules: seq<(string, string)>) {
    forall k :: 0 <= k < |rules| ==>
      |rules[k].1| <= |rules[k].0| && exists i :: 0 <= i < |rules[k].0| && IsAsciiLower(rules[k].0[i])
  }

  lemma FoldRulesWellFormed()
    ensures WellFormedRules(FoldRules)
  {
    forall k | 0 <= k < |FoldRules|
      ensures |FoldRules[k].1| <= |FoldRules[k].0|
      ensures exists i :: 0 <= i < |FoldRules[k].0| && IsAsciiLower(FoldRules[k].0[i])
    {
      var pat := FoldRules[k].0;
      if k == 0 {
        assert IsAsciiLower(pat[1]);
      } else {
        assert IsAsciiLower(pat[0]);
      }
    }
  }

  /**
   * The rules from rule `k` on, applied one after the other, each a global
   * `replace` over the whole string (a rule with an empty pattern is
   * skipped; the table has none).
   */
  function FoldFrom(rules: seq<(string, string)>, s: string, k: nat): string
    requires k <= |rules|
    decreases |rules| - k
  {
    if k == |rules| then s
    else if rules[k].0 == [] then FoldFrom(rules, s, k + 1)
    else FoldFrom(rules, ReplaceAll(s, rules[k].0, rules[k].1), k + 1)
  }

  /** `replace(/[^a-z0-9]/g, '')`. */
  function KeepAlnum(s: string): (r: string)
    ensures |r| <= |s|
    ensures forall c :: c in r ==> c in s && IsAlnum(c)
  {
    if s == [] then [] else (if IsAlnum(s[0]) then [s[0]] else []) + KeepAlnum(s[1..])
  }

  /** The filter works piece by piece, so every letter and digit is kept, in order. */
  lemma {:induction false} KeepAlnumConcat(a: string, b: string)
    ensures KeepAlnum(a + b) == KeepAlnum(a) + KeepAlnum(b)
  {
    if a != [] {
      assert (a + b)[0] == a[0] && (a + b)[1..] == a[1..] + b;
      KeepAlnumConcat(a[1..], b);
    } else {
      assert a + b == b;
    }
  }

  /** A single character is kept exactly when it is an ASCII lower-case letter or a digit. */
  lemma KeepAlnumSingle(c: char)
    ensures KeepAlnum([c]) == if IsAlnum(c) then [c] else []
  {
  }

  /** `normalizeForMatch`: lower-case, the fifteen replacements in order, keep `a-z0-9`. */
  function NormalizeForMatch(s: string): string {
    NormalizeWith(FoldRules, s)
  }

  /** Lower-case, apply the given fold rules, keep `a-z0-9`. */
  function NormalizeWith(rules: seq<(string, string)>, s: string): string {
    KeepAlnum(FoldFrom(rules, Lower(s), 0))
  }

  lemma {:induction false} FoldFromShortens(rules: seq<(string, string)>, s: string, k: nat)
    requires WellFormedRules(rules) && k <= |rules|
    ensures |FoldFrom(rules, s, k)| <= |s|
    decreases |rules| - k
  {
    if k < |rules| {
      assert rules[k].0 != [];
      var t := ReplaceAll(s, rules[k].0, rules[k].1);
      ReplaceAllShortens(s, rules[k].0, rules[k].1);
      FoldFromShortens(rules, t, k + 1);
    }
  }

  /** Replacing every `c` by a string without `c` leaves no `c`. */
  lemma {:induction false} ReplaceAllRemovesChar(s: string, c: char, rep: string)
    requires c !in rep
    ensures c !in ReplaceAll(s, [c], rep)
    decreases |s|
  {
    if s != [] {
      ReplaceAllRemovesChar(s[1..], c, rep);
    }
  }

  /** A table whose last rule folds `w` to `v` leaves no `w`. */
  lemma {:induction false} FoldFromLastRule(rules: seq<(string, string)>, s: string, k: nat)
    requires k < |rules| && rules[|rules| - 1] == ("w", "v")
    requires forall j :: 0 <= j < |rules| ==> rules[j].0 != []
    ensures 'w' !in FoldFrom(rules, s, k)
    decreases |rules| - k
  {
    var t := ReplaceAll(s, rules[k].0, rules[k].1);
    if k + 1 < |rules| {
      FoldFromLastRule(rules, t, k + 1);
    } else {
      ReplaceAllRemovesChar(s, 'w', "v");
    }
  }

  lemma FoldRulesEndWithW()
    ensures FoldRules[|FoldRules| - 1] == ("w", "v")
    ensures forall j :: 0 <= j < |FoldRules| ==> FoldRules[j].0 != []
  {
  }

  /**
   * The normalised form holds only `a-z` and `0-9`, never `w` (always
   * folded to `v`), and is no longer than the input.
   */
  lemma NormalizeAlphabet(s: string)
    ensures forall c :: c in NormalizeForMatch(s) ==> IsAlnum(c) && c != 'w'
    ensures |NormalizeForMatch(s)| <= |s|
  {
    FoldRulesWellFormed();
    FoldRulesEndWithW();
    FoldFromLastRule(FoldRules, Lower(s), 0);
    FoldFromShortens(FoldRules, Lower(s), 0);
  }

  lemma {:induction false} FoldFromNoLatin(rules: seq<(string, string)>, s: string, k: nat)
    requires WellFormedRules(rules) && k <= |rules|
    requires forall c :: c in s ==> !IsAsciiLower(c)
    ensures FoldFrom(rules, s, k) == s
    decreases |rules| - k
  {
    if k < |rules| {
      var i :| 0 <= i < |rules[k].0| && IsAsciiLower(rules[k].0[i]);
      ReplaceAllAbsent(s, rules[k].0, rules[k].1, rules[k].0[i]);
      FoldFromNoLatin(rules, s, k + 1);
    }
  }

  lemma {:induction false} KeepAlnumNone(s: string)
    requires forall c :: c in s ==> !IsAlnum(c)
    ensures KeepAlnum(s) == []
  {
    if s != [] {
      assert s[0] in s;
      KeepAlnumNone(s[1..]);
    }
  }

  /**
   * Text without an ASCII letter or digit (a Gurmukhi query, say)
   * normalises to `""`, which every normalised string includes.
   */
  lemma NormalizeNoLatin(s: string)
    requires forall i :: 0 <= i < |s| ==> !IsAsciiUpper(s[i]) && !IsAsciiLower(s[i]) && !IsDigit(s[i])
    ensures NormalizeForMatch(s) == []
  {
    FoldRulesWellFormed();
    NormalizeWithNoLatin(FoldRules, s);
  }

  lemma NormalizeWithNoLatin(rules: seq<(string, string)>, s: string)
    requires WellFormedRules(rules)
    requires forall i :: 0 <= i < |s| ==> !IsAsciiUpper(s[i]) && !IsAsciiLower(s[i]) && !IsDigit(s[i])
    ensures NormalizeWith(rules, s) == []
  {
    assert Lower(s) == s;
    FoldFromNoLatin(rules, s, 0);
    KeepAlnumNone(s);
  }

  /** Rules whose patterns start with a character absent from `s` leave it alone. */
  lemma {:induction false} FoldFromSkip(rules: seq<(string, string)>, s: string, k: nat)
    requires k <= |rules|
    requires forall j :: k <= j < |rules| ==> |rules[j].0| > 0 && rules[j].0[0] !in s
    ensures FoldFrom(rules, s, k) == s
    decreases |rules| - k
  {
    if k < |rules| {
      ReplaceAllAbsent(s, rules[k].0, rules[k].1, rules[k].0[0]);
      FoldFromSkip(rules, s, k + 1);
    }
  }

  /** The table opens with `"(n)"` and `"aa"`, and no later pattern starts with `a`. */
  predicate OpensWithAa(rules: seq<(string, string)>) {
    |rules| >= 2 && rules[0] == ("(n)", "n") && rules[1] == ("aa", "a")
    && forall j :: 2 <= j < |rules| ==> |rules[j].0| > 0 && rules[j].0[0] != 'a'
  }

  lemma FoldRulesOpenWithAa()
    ensures OpensWithAa(FoldRules)
  {
  }

  /** A run of `n` letters `a` folds to a run of `(n + 1) / 2`. */
  lemma {:induction false} RunFold(s: string)
    requires forall i :: 0 <= i < |s| ==> s[i] == 'a'
    ensures var t := ReplaceAll(s, "aa", "a");
      |t| == (|s| + 1) / 2 && forall i :: 0 <= i < |t| ==> t[i] == 'a'
    decreases |s|
  {
    if s != [] {
      if "aa" <= s {
        RunFold(s[2..]);
      } else {
        assert |s| == 1;
        assert ReplaceAll(s[1..], "aa", "a") == [];
      }
    }
  }

  lemma {:induction false} KeepAlnumAll(s: string)
    requires forall i :: 0 <= i < |s| ==> IsAlnum(s[i])
    ensures KeepAlnum(s) == s
  {
    if s != [] {
      KeepAlnumAll(s[1..]);
    }
  }

  /** On a run of `a`s only the `"aa"` rule fires. */
  lemma FoldsOnRun(rules: seq<(string, string)>, s: string)
    requires forall i :: 0 <= i < |s| ==> s[i] == 'a'
    requires OpensWithAa(rules)
    ensures FoldFrom(rules, s, 0) == ReplaceAll(s, "aa", "a")
  {
    var t := ReplaceAll(s, "aa", "a");
    ReplaceAllAbsent(s, "(n)", "n", '(');
    assert FoldFrom(rules, s, 0) == FoldFrom(rules, t, 2);
    RunFold(s);
    FoldFromSkip(rules, t, 2);
  }

  /** `normalizeForMatch` of a run of `n` letters `a` is a run of `(n + 1) / 2`. */
  lemma NormalizeRunOfA(s: string)
    requires forall i :: 0 <= i < |s| ==> s[i] == 'a'
    ensures var t := NormalizeForMatch(s);
      |t| == (|s| + 1) / 2 && forall i :: 0 <= i < |t| ==> t[i] == 'a'
  {
    FoldRulesOpenWithAa();
    NormalizeWithRunOfA(FoldRules, s);
  }

  lemma NormalizeWithRunOfA(rules: seq<(string, string)>, s: string)
    requires OpensWithAa(rules)
    requires forall i :: 0 <= i < |s| ==> s[i] == 'a'
    ensures var t := NormalizeWith(rules, s);
      |t| == (|s| + 1) / 2 && forall i :: 0 <= i < |t| ==> t[i] == 'a'
  {
    assert Lower(s) == s;
    FoldsOnRun(rules, s);
    RunFold(s);
    KeepAlnumAll(ReplaceAll(s, "aa", "a"));
  }

  /**
   * `normalizeForMatch` is not idempotent: `"aa"` is folded once per pass,
   * so a run of three or more `a`s normalises further each time.
   */
  lemma NormalizeNotIdempotent(s: string)
    requires |s| >= 3 && forall i :: 0 <= i < |s| ==> s[i] == 'a'
    ensures NormalizeForMatch(NormalizeForMatch(s)) != NormalizeForMatch(s)
  {
    NormalizeRunOfA(s);
    NormalizeRunOfA(NormalizeForMatch(s));
  }
}
