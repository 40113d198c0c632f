/**
 * Ranking the candidates one search strategy returns, and the confidence
 * score the best of them must reach.
 */
module Scoring {
  import opened Text
  import opened Numbers
  import opened Normalize
  import opened Argmax

  /** A verse as the search provider returns it: ids, Gurmukhi text and English transliteration. */
  datatype Candidate = Candidate(verseId: int, shabadId: int, gurmukhi: string, transliteration: string)

  /** `replace(/\s+/g, '')`. */
  function RemoveWs(s: string): (r: string)
    ensures |r| <= |s|
    ensures forall c :: c in r ==> c in s && !IsSpace(c)
  {
    if s == [] then [] else (if IsSpace(s[0]) then [] else [s[0]]) + RemoveWs(s[1..])
  }

  /** Whitespace removal works piece by piece, so every other character is kept, in order. */
  lemma {:induction false} RemoveWsConcat(a: string, b: string)
    ensures RemoveWs(a + b) == RemoveWs(a) + RemoveWs(b)
  {
    if a != [] {
      assert (a + b)[0] == a[0] && (a + b)[1..] == a[1..] + b;
      RemoveWsConcat(a[1..], b);
    } else {
      assert a + b == b;
    }
  }

  /** A single character is dropped exactly when it is whitespace. */
  lemma RemoveWsSingle(c: char)
    ensures RemoveWs([c]) == if IsSpace(c) then [] else [c]
  {
  }

  /** `[...q].filter(char => la.includes(char)).length`. */
  function CountIn(q: string, la: string): (n: nat)
    ensures n <= |q|
  {
    if q == [] then 0 else (if q[0] in la then 1 else 0) + CountIn(q[1..], la)
  }

  lemma {:induction false} CountInAll(q: string, la: string)
    requires forall c :: c in q ==> c in la
    ensures CountIn(q, la) == |q|
  {
    if q != [] {
      assert q[0] in q;
      CountInAll(q[1..], la);
    }
  }

  /** `(cand.transliteration?.english || "").toLowerCase()`, normalised. */
  function NormTrans(c: Candidate): string {
    NormalizeForMatch(Lower(c.transliteration))
  }

  /**
   * The line acronym: initials of the trimmed, matra-stripped Gurmukhi for
   * a Gurmukhi query, else initials of the lower-cased transliteration.
   */
  function LineAcronym(c: Candidate, gurmukhiInput: bool): string {
    if gurmukhiInput then Initials(StripMatras(Trim(c.gurmukhi))) else Initials(Lower(c.transliteration))
  }

  /** `filter(w => w.length >= minLen)`. */
  function LongWords(ws: seq<string>, minLen: nat): (r: seq<string>)
    ensures |r| <= |ws|
    ensures forall k :: 0 <= k < |r| ==> |r[k]| >= minLen
  {
    if ws == [] then [] else (if |ws[0]| >= minLen then [ws[0]] else []) + LongWords(ws[1..], minLen)
  }

  /** The word filter works piece by piece, so every long enough word is kept, in order. */
  lemma {:induction false} LongWordsConcat(a: seq<string>, b: seq<string>, minLen: nat)
    ensures LongWords(a + b, minLen) == LongWords(a, minLen) + LongWords(b, minLen)
  {
    if a != [] {
      assert (a + b)[0] == a[0] && (a + b)[1..] == a[1..] + b;
      LongWordsConcat(a[1..], b, minLen);
    } else {
      assert a + b == b;
    }
  }

  /** A single word is kept exactly when it has at least `minLen` characters. */
  lemma LongWordsSingle(w: string, minLen: nat)
    ensures LongWords([w], minLen) == if |w| >= minLen then [w] else []
  {
  }

  /** The number of words whose normal form the normalised text includes. */
  function WordHits(ws: seq<string>, text: string): (n: nat)
    ensures n <= |ws|
  {
    if ws == [] then 0
    else WordHits(ws[..|ws| - 1], text) + (if Includes(text, NormalizeForMatch(ws[|ws| - 1])) then 1 else 0)
  }

  // =====================================================================
  // Candidate selection
  // =====================================================================

  /** The acronym tier of the selection score. */
  function AcronymTier(la: string, nq: string): real {
    if la == nq then 1000.0 else if nq <= la then 500.0 else if Includes(la, nq) then 200.0 else 0.0
  }

  /** Selection score in acronym mode: the tier plus up to 100 for the share of query letters in the line acronym. */
  function AcronymModeScore(la: string, nq: string): (r: real)
    ensures 0.0 <= r <= 1100.0
  {
    AcronymTier(la, nq) + Ratio(CountIn(nq, la), |nq|) * 100.0
  }

  /** Selection score in full mode: 1000 for containment plus up to 500 for the share of words found. */
  function FullModeScore(nt: string, q: string): (r: real)
    ensures 0.0 <= r <= 1500.0
  {
    var queryWords := LongWords(SplitWs(q), 2);
    (if Includes(nt, NormalizeForMatch(q)) then 1000.0 else 0.0)
      + Ratio(WordHits(queryWords, nt), |queryWords|) * 500.0
  }

  /**
   * What the selection loop fixes before it looks at a candidate: the
   * trimmed query, that query without whitespace and lower-cased, whether it
   * holds Gurmukhi, and whether the strategy is scored as an acronym.
   */
  datatype Ranking = Ranking(query: string, normalizedQuery: string, gurmukhiInput: bool, acronymMode: bool)

  function RankingFor(q: string, acronymMode: bool): (r: Ranking)
    ensures r.query == q && r.acronymMode == acronymMode
  {
    Ranking(q, Lower(RemoveWs(q)), HasGurmukhi(q), acronymMode)
  }

  /** The selection score of a candidate. */
  function SelectionScore(c: Candidate, r: Ranking): (score: real)
    ensures score >= 0.0
  {
    if r.acronymMode then AcronymModeScore(LineAcronym(c, r.gurmukhiInput), r.normalizedQuery)
    else FullModeScore(NormTrans(c), r.query)
  }

  /** The selection score as a function of the candidate alone. */
  function ScoreOf(r: Ranking): Candidate -> real {
    c => SelectionScore(c, r)
  }

  /** The acronym-mode part of the loop body. */
  method AcronymCandidateScore(lineAcronym: string, normalizedQuery: string) returns (currentScore: real)
    ensures currentScore == AcronymModeScore(lineAcronym, normalizedQuery)
  {
    currentScore := 0.0;
    if lineAcronym == normalizedQuery {
      currentScore := currentScore + 1000.0;
    } else if normalizedQuery <= lineAcronym {
      currentScore := currentScore + 500.0;
    } else if Includes(lineAcronym, normalizedQuery) {
      currentScore := currentScore + 200.0;
    }
    var common := CountIn(normalizedQuery, lineAcronym);
    currentScore := currentScore + Ratio(common, |normalizedQuery|) * 100.0;
  }

  /** The full-mode part of the loop body, with its `forEach` over the query words. */
  method FullCandidateScore(normalizedTrans: string, query: string) returns (currentScore: real)
    ensures currentScore == FullModeScore(normalizedTrans, query)
  {
    currentScore := 0.0;
    if Includes(normalizedTrans, NormalizeForMatch(query)) {
      currentScore := currentScore + 1000.0;
    }
    var queryWords := LongWords(SplitWs(query), 2);
    var matchedWords := CountWordHits(queryWords, normalizedTrans);
    currentScore := currentScore + Ratio(matchedWords, |queryWords|) * 500.0;
  }

  /** `matchedWords` after the `forEach`: the number of words the text includes. */
  method CountWordHits(queryWords: seq<string>, normalizedTrans: string) returns (matchedWords: nat)
    ensures matchedWords == WordHits(queryWords, normalizedTrans)
  {
    matchedWords := 0;
    for w := 0 to |queryWords|
      invariant matchedWords == WordHits(queryWords[..w], normalizedTrans)
    {
      assert queryWords[..w + 1][..w] == queryWords[..w];
      if Includes(normalizedTrans, NormalizeForMatch(queryWords[w])) {
        matchedWords := matchedWords + 1;
      }
    }
    assert queryWords[..|queryWords|] == queryWords;
  }

  /** The body of the selection loop: the score of one candidate. */
  method CandidateScore(c: Candidate, r: Ranking) returns (currentScore: real)
    ensures currentScore == SelectionScore(c, r)
  {
    if r.acronymMode {
      currentScore := AcronymCandidateScore(LineAcronym(c, r.gurmukhiInput), r.normalizedQuery);
    } else {
      currentScore := FullCandidateScore(NormTrans(c), r.query);
    }
  }

  /** The index of the candidate the route keeps for a strategy. */
  function BestIndex(cands: seq<Candidate>, r: Ranking): (k: nat)
    requires |cands| > 0
    ensures k < |cands|
  {
    FirstMaxIndex(ScoresBy(cands, ScoreOf(r)))
  }

  /** The kept candidate has the maximal selection score, and every earlier one a strictly smaller score. */
  lemma BestIndexIsFirstMax(cands: seq<Candidate>, r: Ranking)
    requires |cands| > 0
    ensures var k := BestIndex(cands, r);
      (forall j :: 0 <= j < |cands| ==> SelectionScore(cands[j], r) <= SelectionScore(cands[k], r))
      && (forall j :: 0 <= j < k ==> SelectionScore(cands[j], r) < SelectionScore(cands[k], r))
  {
    var xs := ScoresBy(cands, ScoreOf(r));
    assert forall j :: 0 <= j < |cands| ==> xs[j] == SelectionScore(cands[j], r);
  }

  /**
   * The candidate selection for one strategy and the trimmed query `q`:
   * the scan starts from the first candidate with a running maximum of -1.
   */
  method SelectCandidate(cands: seq<Candidate>, q: string, acronymMode: bool) returns (best: Candidate, k: nat)
    requires |cands| > 0
    ensures k == BestIndex(cands, RankingFor(q, acronymMode)) && best == cands[k]
  {
    var ranking := RankingFor(q, acronymMode);
    k := ScanForBest(cands, ScoreOf(ranking), -1.0);
    best := cands[k];
  }

  /**
   * In acronym mode an exact acronym match scores at least 1100 and any
   * other line at most 600, so the selection prefers an exact match.
   */
  lemma AcronymEqualityDominates(la: string, nq: string)
    ensures la == nq && nq != [] ==> AcronymModeScore(la, nq) >= 1100.0
    ensures la != nq ==> AcronymModeScore(la, nq) <= 600.0
  {
    if la == nq && nq != [] {
      CountInAll(nq, la);
    }
  }

  /** In full mode containment of the normalised query scores at least 1000, anything else at most 500. */
  lemma ContainmentDominates(nt: string, q: string)
    ensures Includes(nt, NormalizeForMatch(q)) ==> FullModeScore(nt, q) >= 1000.0
    ensures !Includes(nt, NormalizeForMatch(q)) ==> FullModeScore(nt, q) <= 500.0
  {
  }

  /** When some candidate's acronym equals the stripped query, the kept candidate's does too. */
  lemma SelectionPrefersExactAcronym(cands: seq<Candidate>, q: string, j: nat)
    requires j < |cands|
    requires var nq := Lower(RemoveWs(q)); nq != [] && LineAcronym(cands[j], HasGurmukhi(q)) == nq
    ensures LineAcronym(cands[BestIndex(cands, RankingFor(q, true))], HasGurmukhi(q)) == Lower(RemoveWs(q))
  {
    var r := RankingFor(q, true);
    var k := BestIndex(cands, r);
    BestIndexIsFirstMax(cands, r);
    AcronymEqualityDominates(LineAcronym(cands[j], r.gurmukhiInput), r.normalizedQuery);
    AcronymEqualityDominates(LineAcronym(cands[k], r.gurmukhiInput), r.normalizedQuery);
  }

  /** When some candidate contains the normalised query, the kept candidate does too. */
  lemma SelectionPrefersContainment(cands: seq<Candidate>, q: string, j: nat)
    requires j < |cands| && Includes(NormTrans(cands[j]), NormalizeForMatch(q))
    ensures Includes(NormTrans(cands[BestIndex(cands, RankingFor(q, false))]), NormalizeForMatch(q))
  {
    var r := RankingFor(q, false);
    var k := BestIndex(cands, r);
    BestIndexIsFirstMax(cands, r);
    ContainmentDominates(NormTrans(cands[j]), q);
    ContainmentDominates(NormTrans(cands[k]), q);
  }

  lemma {:induction false} IncludesEmpty(s: string)
    ensures Includes(s, [])
  {
  }

  /**
   * A query without ASCII letters or digits (a Gurmukhi query) normalises
   * to `""`, so in full mode every candidate gets the containment bonus.
   */
  lemma GurmukhiQueryAlwaysContained(c: Candidate, q: string)
    requires forall i :: 0 <= i < |q| ==> !IsAsciiUpper(q[i]) && !IsAsciiLower(q[i]) && !IsDigit(q[i])
    ensures FullModeScore(NormTrans(c), q) >= 1000.0
  {
    NormalizeNoLatin(q);
    IncludesEmpty(NormTrans(c));
  }

  // =====================================================================
  // calculateConfidence and the threshold
  // =====================================================================

  /** The query's acronym: the stripped query itself in acronym mode, else its initials. */
  function QueryAcronym(target: string, treatAsAcronym: bool): string {
    if treatAsAcronym then Lower(RemoveWs(target))
    else if HasGurmukhi(target) then Initials(target)
    else Lower(Initials(target))
  }

  /** The acronym tier: 85, 70, 50 or up to 40, and only for a query acronym of three or more characters. */
  function AcronymScore(la: string, qa: string): (r: real)
    ensures 0.0 <= r <= 85.0
    ensures |qa| < 3 ==> r == 0.0
    ensures |qa| >= 3 && la == qa ==> r == 85.0
    ensures |qa| >= 3 && la != qa ==> r <= 70.0
    ensures |qa| >= 3 && la != qa && qa <= la ==> r == 70.0
    ensures |qa| >= 3 && !(qa <= la) && Includes(la, qa) ==> r == 50.0
    ensures |qa| >= 3 && !Includes(la, qa) ==> r <= 40.0
  {
    if |qa| >= 3 then
      if la == qa then 85.0
      else if qa <= la then 70.0
      else if Includes(la, qa) then 50.0
      else Ratio(CountIn(qa, la), |qa|) * 40.0
    else 0.0
  }

  /** The Gurmukhi text tier: equality 95, containment either way 80. */
  function GurmukhiTextScore(c: Candidate, target: string): (r: real)
    ensures r == 0.0 || r == 80.0 || r == 95.0
    ensures var g, t := StripMatras(Trim(c.gurmukhi)), StripMatras(target);
      (g == t ==> r == 95.0)
      && (g != t && (Includes(g, t) || Includes(t, g)) ==> r == 80.0)
      && (!Includes(g, t) && !Includes(t, g) ==> r == 0.0)
  {
    var gText := StripMatras(Trim(c.gurmukhi));
    var strippedTarget := StripMatras(target);
    if gText == strippedTarget then 95.0
    else if Includes(gText, strippedTarget) || Includes(strippedTarget, gText) then 80.0
    else 0.0
  }

  /** The Roman text tier: 95 or 80 for equality or containment, plus up to 60 for the share of words found. */
  function RomanTextScore(c: Candidate, target: string): (r: real)
    ensures 0.0 <= r <= 155.0
  {
    var nt := NormTrans(c);
    var normalizedTarget := NormalizeForMatch(target);
    var tier := if nt == normalizedTarget then 95.0 else if Includes(nt, normalizedTarget) then 80.0 else 0.0;
    var queryWords := LongWords(SplitWs(Lower(target)), 2);
    tier + (if |queryWords| > 0 then Ratio(WordHits(queryWords, nt), |queryWords|) * 60.0 else 0.0)
  }

  /** `calculateConfidence(cand, targetQuery, treatAsAcronym)`. */
  function Confidence(c: Candidate, target: string, treatAsAcronym: bool): (r: int)
    ensures 0 <= r <= 100
    ensures treatAsAcronym && |QueryAcronym(target, true)| < 3 ==> r == 0
    ensures treatAsAcronym ==> r <= 85
    ensures !treatAsAcronym && !HasGurmukhi(target) && Includes(NormTrans(c), NormalizeForMatch(target)) ==> r >= 80
    ensures !treatAsAcronym && !HasGurmukhi(target) && NormTrans(c) == NormalizeForMatch(target) ==> r >= 95
    ensures !treatAsAcronym && HasGurmukhi(target) && GurmukhiTextScore(c, target) > 0.0 ==> r >= 80
    ensures !treatAsAcronym && HasGurmukhi(target) && StripMatras(Trim(c.gurmukhi)) == StripMatras(target) ==> r >= 95
  {
    var isGurmukhiInput := HasGurmukhi(target);
    var acronymScore := AcronymScore(LineAcronym(c, isGurmukhiInput), QueryAcronym(target, treatAsAcronym));
    var textScore := if treatAsAcronym then 0.0
      else if isGurmukhiInput then GurmukhiTextScore(c, target) else RomanTextScore(c, target);
    var maxScore := Max(Max(0.0, acronymScore), textScore);
    MaxScoreRounding(acronymScore, textScore);
    Min(100, Round(maxScore))
  }

  /** Rounding the larger of the two tiers keeps their bounds. */
  lemma MaxScoreRounding(acronymScore: real, textScore: real)
    requires 0.0 <= acronymScore <= 85.0 && 0.0 <= textScore <= 155.0
    ensures var m := Round(Max(Max(0.0, acronymScore), textScore));
      0 <= m <= 155
      && (textScore >= 80.0 ==> m >= 80)
      && (textScore >= 95.0 ==> m >= 95)
      && (textScore == 0.0 ==> m <= 85)
  {
    var maxScore := Max(Max(0.0, acronymScore), textScore);
    RoundWithin(maxScore, 0, 155);
    if textScore >= 80.0 {
      RoundWithin(maxScore, 80, 155);
    }
    if textScore >= 95.0 {
      RoundWithin(maxScore, 95, 155);
    }
    if textScore == 0.0 {
      RoundWithin(maxScore, 0, 85);
    }
  }

  /** The threshold: 45 for a trimmed query longer than 15 characters, else 55. */
  function Threshold(q: string): (t: int)
    ensures t == 45 || t == 55
    ensures t == 45 <==> |q| > 15
  {
    if |q| > 15 then 45 else 55
  }

  /** A longer query never faces a higher threshold. */
  lemma ThresholdMonotone(q1: string, q2: string)
    requires |q1| <= |q2|
    ensures Threshold(q2) <= Threshold(q1)
  {
  }

  /** A strategy scored as an acronym whose acronym is shorter than three characters can never pass. */
  lemma ShortAcronymNeverPasses(c: Candidate, target: string, q: string)
    requires |QueryAcronym(target, true)| < 3
    ensures Confidence(c, target, true) < Threshold(q)
  {
  }
}
