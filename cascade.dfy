/**
 * The search cascade of the route: the list of search strategies, the
 * first-success loop over the provider's answers to them, and the two ways
 * a line of the fetched shabad is picked.
 */
module Cascade {
  import opened Wrappers
  import opened Text
  import opened Numbers
  import opened Normalize
  import opened Scoring
  import opened Argmax
  import opened Verses

  // =====================================================================
  // Strategy construction
  // =====================================================================

  /** One provider query: the text sent and the provider's search type. */
  datatype Strategy = Strategy(q: string, searchType: int)

  /** Search types: first letters (Roman, Gurmukhi), full words, broad search. */
  const FirstLettersRoman: int := 1
  const FirstLettersGurmukhi: int := 0
  const FullWords: int := 4
  const Broad: int := 8

  /** The query text of an explicit acronym request: `acronym || trimmedQuery`. */
  function AcronymText(tq: string, acronym: string): string {
    if acronym != "" then acronym else tq
  }

  /** The strategy list `POST` builds for the trimmed query. */
  function PlannedStrategies(tq: string, acronym: string, isAcronym: bool): (r: seq<Strategy>)
    ensures |r| == 2 || |r| == 4
    ensures isAcronym ==>
      r == [Strategy(AcronymText(tq, acronym), FirstLettersRoman), Strategy(AcronymText(tq, acronym), FirstLettersGurmukhi)]
    ensures !isAcronym ==>
      r[0] == Strategy(tq, FullWords) && r[1] == Strategy(tq, Broad)
      && (|r| == 4 <==> |SplitWs(tq)| > 1)
      && (|r| == 4 ==> r[2] == Strategy(Initials(tq), FirstLettersRoman) && r[3] == Strategy(Initials(tq), FirstLettersGurmukhi))
  {
    if isAcronym then
      [Strategy(AcronymText(tq, acronym), FirstLettersRoman), Strategy(AcronymText(tq, acronym), FirstLettersGurmukhi)]
    else
      [Strategy(tq, FullWords), Strategy(tq, Broad)]
        + (if |SplitWs(tq)| > 1 then [Strategy(Initials(tq), FirstLettersRoman), Strategy(Initials(tq), FirstLettersGurmukhi)] else [])
  }

  /** Strategy construction by `push`. */
  method BuildStrategies(tq: string, acronym: string, isAcronym: bool) returns (strategies: seq<Strategy>)
    ensures strategies == PlannedStrategies(tq, acronym, isAcronym)
  {
    var generatedAcronym := Initials(tq);
    var wordCount := |SplitWs(tq)|;
    strategies := [];
    if isAcronym {
      strategies := strategies + [Strategy(AcronymText(tq, acronym), FirstLettersRoman)];
      strategies := strategies + [Strategy(AcronymText(tq, acronym), FirstLettersGurmukhi)];
    } else {
      strategies := strategies + [Strategy(tq, FullWords)];
      strategies := strategies + [Strategy(tq, Broad)];
      if wordCount > 1 {
        strategies := strategies + [Strategy(generatedAcronym, FirstLettersRoman)];
        strategies := strategies + [Strategy(generatedAcronym, FirstLettersGurmukhi)];
      }
    }
  }

  /** `isAcronym || strategy.type === 1 || strategy.type === 0`. */
  predicate AcronymMode(s: Strategy, isAcronym: bool) {
    isAcronym || s.searchType == FirstLettersRoman || s.searchType == FirstLettersGurmukhi
  }

  /**
   * Without an explicit acronym request the full-text strategies come
   * first and are scored as full text, and the letter strategies after
   * them are scored as acronyms.
   */
  lemma FullTextFirst(tq: string, acronym: string)
    ensures var r := PlannedStrategies(tq, acronym, false);
      !AcronymMode(r[0], false) && !AcronymMode(r[1], false)
      && forall i :: 2 <= i < |r| ==> AcronymMode(r[i], false)
  {
  }

  // =====================================================================
  // The cascade
  // =====================================================================

  /** What the provider gave for one strategy: a thrown error, or its verse list (possibly empty). */
  datatype Outcome = Threw | Answered(candidates: seq<Candidate>)

  /** The outcome of the `i`-th fetch; a missing entry stands for a failed fetch. */
  function OutcomeAt(outcomes: seq<Outcome>, i: nat): Outcome {
    if i < |outcomes| then outcomes[i] else Threw
  }

  /** A strategy that passed: the kept candidate, its confidence and the strategy's type. */
  datatype Hit = Hit(best: Candidate, confidence: int, searchType: int)

  /** One turn of the cascade loop. */
  function Attempt(s: Strategy, o: Outcome, tq: string, isAcronym: bool): Option<Hit> {
    if o.Threw? || o.candidates == [] then None
    else
      var mode := AcronymMode(s, isAcronym);
      var best := o.candidates[BestIndex(o.candidates, RankingFor(tq, mode))];
      var confidence := Confidence(best, s.q, mode);
      if confidence >= Threshold(tq) then Some(Hit(best, confidence, s.searchType)) else None
  }

  /**
   * A turn keeps a hit only for a non-empty answer: the best candidate of
   * the strategy's scoring mode, kept exactly when its confidence against
   * the strategy's text reaches the threshold of the trimmed query.
   */
  lemma AttemptSpec(s: Strategy, o: Outcome, tq: string, isAcronym: bool)
    ensures var r := Attempt(s, o, tq, isAcronym);
      (r.Some? ==>
        o.Answered? && r.value.best in o.candidates
        && Threshold(tq) <= r.value.confidence <= 100 && r.value.searchType == s.searchType)
      && (o.Threw? || o.candidates == [] ==> r.None?)
      && (o.Answered? && o.candidates != [] ==>
        var mode := AcronymMode(s, isAcronym);
        var best := o.candidates[BestIndex(o.candidates, RankingFor(tq, mode))];
        (r.Some? <==> Confidence(best, s.q, mode) >= Threshold(tq))
        && (r.Some? ==> r.value == Hit(best, Confidence(best, s.q, mode), s.searchType)))
  {
  }

  /** The attempt of strategy `i`. */
  function AttemptAt(strategies: seq<Strategy>, outcomes: seq<Outcome>, tq: string, isAcronym: bool, i: nat): Option<Hit>
    requires i < |strategies|
  {
    Attempt(strategies[i], OutcomeAt(outcomes, i), tq, isAcronym)
  }

  /** The attempts of all strategies, in order. */
  function Attempts(strategies: seq<Strategy>, outcomes: seq<Outcome>, tq: string, isAcronym: bool): (xs: seq<Option<Hit>>)
    ensures |xs| == |strategies|
  {
    seq(|strategies|, i requires 0 <= i < |strategies| => AttemptAt(strategies, outcomes, tq, isAcronym, i))
  }

  lemma AttemptsAt(strategies: seq<Strategy>, outcomes: seq<Outcome>, tq: string, isAcronym: bool, i: nat)
    requires i < |strategies|
    ensures Attempts(strategies, outcomes, tq, isAcronym)[i] == Attempt(strategies[i], OutcomeAt(outcomes, i), tq, isAcronym)
  {
  }

  /** The first present value among `xs[i..]`. */
  function FirstSome<T>(xs: seq<Option<T>>, i: nat): Option<T>
    requires i <= |xs|
    decreases |xs| - i
  {
    if i == |xs| then None else if xs[i].Some? then xs[i] else FirstSome(xs, i + 1)
  }

  lemma {:induction false} FirstSomeIsFirst<T>(xs: seq<Option<T>>, i: nat)
    requires i <= |xs|
    ensures var r := FirstSome(xs, i);
      (r.None? <==> forall j :: i <= j < |xs| ==> xs[j].None?)
      && (r.Some? ==>
            exists j :: i <= j < |xs| && r == xs[j] && forall l :: i <= l < j ==> xs[l].None?)
    decreases |xs| - i
  {
    if i < |xs| {
      FirstSomeIsFirst(xs, i + 1);
      var r := FirstSome(xs, i);
      if xs[i].None? && r.Some? {
        var j :| i + 1 <= j < |xs| && r == xs[j] && forall l :: i + 1 <= l < j ==> xs[l].None?;
        assert forall l :: i <= l < j ==> xs[l].None?;
      }
    }
  }

  /** One step of `FirstSome`: a present value stops the search, an absent one moves on. */
  lemma FirstSomeStep<T>(xs: seq<Option<T>>, i: nat)
    requires i < |xs|
    ensures xs[i].Some? ==> FirstSome(xs, i) == xs[i]
    ensures xs[i].None? ==> FirstSome(xs, i) == FirstSome(xs, i + 1)
  {
  }

  /** `searchData` after the cascade: the hit of the first strategy that passes. */
  function CascadeResult(strategies: seq<Strategy>, outcomes: seq<Outcome>, tq: string, isAcronym: bool): Option<Hit> {
    FirstSome(Attempts(strategies, outcomes, tq, isAcronym), 0)
  }

  /**
   * The cascade keeps the first strategy that passes: it finds nothing iff
   * every strategy fails, and otherwise its hit is that of some strategy
   * all of whose predecessors failed (thrown, empty or below threshold).
   */
  lemma CascadeIsFirstSuccess(strategies: seq<Strategy>, outcomes: seq<Outcome>, tq: string, isAcronym: bool)
    ensures var r := CascadeResult(strategies, outcomes, tq, isAcronym);
      (r.None? <==> forall j :: 0 <= j < |strategies| ==> AttemptAt(strategies, outcomes, tq, isAcronym, j).None?)
      && (r.Some? ==>
            exists j :: 0 <= j < |strategies| && r == AttemptAt(strategies, outcomes, tq, isAcronym, j)
              && forall l :: 0 <= l < j ==> AttemptAt(strategies, outcomes, tq, isAcronym, l).None?)
  {
    var xs := Attempts(strategies, outcomes, tq, isAcronym);
    FirstSomeIsFirst(xs, 0);
    assert forall j :: 0 <= j < |strategies| ==> xs[j] == AttemptAt(strategies, outcomes, tq, isAcronym, j);
  }

  /**
   * A kept hit passed the threshold, so its confidence is between 45 and
   * 100 and never falsy, and it carries the type of one of the strategies.
   */
  lemma CascadeHitConfidence(strategies: seq<Strategy>, outcomes: seq<Outcome>, tq: string, isAcronym: bool)
    ensures var r := CascadeResult(strategies, outcomes, tq, isAcronym);
      r.Some? ==>
        Threshold(tq) <= r.value.confidence <= 100 && Threshold(tq) >= 45
        && exists j :: 0 <= j < |strategies| && r.value.searchType == strategies[j].searchType
  {
    CascadeIsFirstSuccess(strategies, outcomes, tq, isAcronym);
    var r := CascadeResult(strategies, outcomes, tq, isAcronym);
    if r.Some? {
      var j :| 0 <= j < |strategies| && r == AttemptAt(strategies, outcomes, tq, isAcronym, j);
      AttemptSpec(strategies[j], OutcomeAt(outcomes, j), tq, isAcronym);
    }
  }

  /**
   * With an explicit acronym request whose stripped acronym text is
   * shorter than three characters, no strategy can pass: confidence is 0 below
   * a threshold of at least 45.
   */
  lemma ShortAcronymRequestFails(tq: string, acronym: string, outcomes: seq<Outcome>)
    requires |Lower(RemoveWs(AcronymText(tq, acronym)))| < 3
    ensures CascadeResult(PlannedStrategies(tq, acronym, true), outcomes, tq, true).None?
  {
    var r := PlannedStrategies(tq, acronym, true);
    forall j | 0 <= j < |r|
      ensures AttemptAt(r, outcomes, tq, true, j).None?
    {
      ShortAcronymAttemptFails(r[j], OutcomeAt(outcomes, j), tq);
    }
    CascadeIsFirstSuccess(r, outcomes, tq, true);
  }

  /** In acronym mode a strategy text shorter than three characters once stripped never passes. */
  lemma ShortAcronymAttemptFails(s: Strategy, o: Outcome, tq: string)
    requires |Lower(RemoveWs(s.q))| < 3
    ensures Attempt(s, o, tq, true).None?
  {
    if o.Answered? && o.candidates != [] {
      var best := o.candidates[BestIndex(o.candidates, RankingFor(tq, true))];
      ShortAcronymNeverPasses(best, s.q, tq);
    }
  }

  /** A strategy whose fetch threw or answered nothing is passed over. */
  lemma SkippedStrategy(strategies: seq<Strategy>, outcomes: seq<Outcome>, tq: string, isAcronym: bool, i: nat)
    requires i < |strategies|
    requires OutcomeAt(outcomes, i).Threw? || OutcomeAt(outcomes, i).candidates == []
    ensures var xs := Attempts(strategies, outcomes, tq, isAcronym);
      FirstSome(xs, i) == FirstSome(xs, i + 1)
  {
    var xs := Attempts(strategies, outcomes, tq, isAcronym);
    AttemptsAt(strategies, outcomes, tq, isAcronym, i);
    FirstSomeStep(xs, i);
  }

  /**
   * The body of the `try` for a non-empty answer to strategy `i`: pick the
   * best candidate, score it against the strategy's text and keep it when
   * it reaches the threshold; a kept hit ends the cascade, a miss passes
   * on to the next strategy.
   */
  method TryCandidates(strategies: seq<Strategy>, outcomes: seq<Outcome>, tq: string, isAcronym: bool, i: nat)
    returns (hit: Option<Hit>)
    requires i < |strategies|
    requires OutcomeAt(outcomes, i).Answered? && |OutcomeAt(outcomes, i).candidates| > 0
    ensures hit == Attempt(strategies[i], OutcomeAt(outcomes, i), tq, isAcronym)
    ensures var xs := Attempts(strategies, outcomes, tq, isAcronym);
      (hit.Some? ==> FirstSome(xs, i) == hit && hit.value.searchType == strategies[i].searchType)
      && (hit.None? ==> FirstSome(xs, i) == FirstSome(xs, i + 1))
  {
    var strategy := strategies[i];
    var candidates := OutcomeAt(outcomes, i).candidates;
    var mode := AcronymMode(strategy, isAcronym);
    var bestCandidate, _ := SelectCandidate(candidates, tq, mode);
    var confidence := Confidence(bestCandidate, strategy.q, mode);
    var threshold := Threshold(tq);
    if confidence >= threshold {
      hit := Some(Hit(bestCandidate, confidence, strategy.searchType));
    } else {
      hit := None;
    }
    AttemptsAt(strategies, outcomes, tq, isAcronym, i);
    FirstSomeStep(Attempts(strategies, outcomes, tq, isAcronym), i);
  }

  /**
   * The cascade loop: each strategy's outcome is looked at in order; a
   * thrown fetch is skipped (`continue`), an empty list changes nothing, a
   * candidate below the threshold resets `searchData` to null, and the
   * first candidate at or above it is kept (`break`).
   */
  method RunCascade(strategies: seq<Strategy>, outcomes: seq<Outcome>, tq: string, isAcronym: bool)
    returns (searchData: Option<Hit>, successfulType: int)
    ensures searchData == CascadeResult(strategies, outcomes, tq, isAcronym)
    ensures successfulType == if searchData.Some? then searchData.value.searchType else -1
  {
    ghost var attempts := Attempts(strategies, outcomes, tq, isAcronym);
    searchData := None;
    successfulType := -1;
    var i := 0;
    while i < |strategies|
      invariant 0 <= i <= |strategies|
      invariant searchData.None? && successfulType == -1
      invariant CascadeResult(strategies, outcomes, tq, isAcronym) == FirstSome(attempts, i)
    {
      var strategy := strategies[i];
      var outcome := OutcomeAt(outcomes, i);
      if outcome.Threw? {
        SkippedStrategy(strategies, outcomes, tq, isAcronym, i);
        i := i + 1;
        continue;
      }
      var candidates := outcome.candidates;
      if |candidates| > 0 {
        var hit := TryCandidates(strategies, outcomes, tq, isAcronym, i);
        if hit.Some? {
          searchData := hit;
          successfulType := strategy.searchType;
          break;
        } else {
          searchData := None;
        }
      } else {
        SkippedStrategy(strategies, outcomes, tq, isAcronym, i);
      }
      i := i + 1;
    }
  }

  // =====================================================================
  // Locating the line
  // =====================================================================

  /**
   * `formattedLines.find(l => l.id === targetVerseId) || formattedLines[0]`:
   * the first line with the id, else the first line (`None` when there
   * are no lines).
   */
  function LineById(lines: seq<Line>, id: int): (r: Option<Line>)
    ensures r.None? <==> lines == []
    ensures (exists k :: 0 <= k < |lines| && lines[k].id == id) ==>
      r.Some? && r.value.id == id
      && exists k :: 0 <= k < |lines| && lines[k] == r.value && forall l :: 0 <= l < k ==> lines[l].id != id
    ensures lines != [] && (forall k :: 0 <= k < |lines| ==> lines[k].id != id) ==> r == Some(lines[0])
  {
    var k := FindId(lines, id);
    if k < |lines| then Some(lines[k]) else if lines == [] then None else Some(lines[0])
  }

  /** The index of the first line with the id, or `|lines|`. */
  function FindId(lines: seq<Line>, id: int): (k: nat)
    ensures k <= |lines|
    ensures k < |lines| ==> lines[k].id == id
    ensures forall l :: 0 <= l < k ==> lines[l].id != id
  {
    if lines == [] then 0 else if lines[0].id == id then 0 else 1 + FindId(lines[1..], id)
  }

  /** The query words of the smart line match: tokens of at least one character for queries of up to five characters, else of at least two. */
  function LineQueryWords(tq: string): seq<string> {
    LongWords(SplitWs(tq), if |tq| <= 5 then 1 else 2)
  }

  /** How many query words the line's normalised transliteration includes. */
  function LineHits(words: seq<string>, line: Line): nat {
    WordHits(words, NormalizeForMatch(line.transliteration))
  }

  /** The hit count as the score of a line. */
  function LineScore(words: seq<string>): Line -> real {
    line => LineHits(words, line) as real
  }

  /** The index the smart line match keeps among non-empty `lines`. */
  function BestLineIndex(lines: seq<Line>, words: seq<string>): nat
    requires lines != []
  {
    FirstMaxIndex(ScoresBy(lines, LineScore(words)))
  }

  /** The smart line match: the first line with the most query-word hits; the first line when none has a hit. */
  function SmartLine(lines: seq<Line>, tq: string): Option<Line> {
    if lines == [] then None else Some(lines[BestLineIndex(lines, LineQueryWords(tq))])
  }

  /** The kept line has the most hits, and every earlier line has fewer. */
  lemma BestLineIsBest(lines: seq<Line>, words: seq<string>)
    requires lines != []
    ensures var k := BestLineIndex(lines, words);
      k < |lines|
      && (forall j :: 0 <= j < |lines| ==> LineHits(words, lines[j]) <= LineHits(words, lines[k]))
      && (forall j :: 0 <= j < k ==> LineHits(words, lines[j]) < LineHits(words, lines[k]))
  {
    var xs := ScoresBy(lines, LineScore(words));
    assert forall j :: 0 <= j < |lines| ==> xs[j] == LineHits(words, lines[j]) as real;
  }

  /**
   * The smart line is a line of maximal hit count preceded only by lines
   * with fewer hits, and it is the first line when no line has a hit.
   */
  lemma SmartLineIsBest(lines: seq<Line>, tq: string)
    requires lines != []
    ensures var words := LineQueryWords(tq);
      exists k :: 0 <= k < |lines| && SmartLine(lines, tq) == Some(lines[k])
        && (forall j :: 0 <= j < |lines| ==> LineHits(words, lines[j]) <= LineHits(words, lines[k]))
        && (forall j :: 0 <= j < k ==> LineHits(words, lines[j]) < LineHits(words, lines[k]))
  {
    var words := LineQueryWords(tq);
    BestLineIsBest(lines, words);
    var k := BestLineIndex(lines, words);
    assert SmartLine(lines, tq) == Some(lines[k]);
  }

  /** With no line containing any query word the smart line is the first line. */
  lemma SmartLineDefaultsToFirst(lines: seq<Line>, tq: string)
    requires lines != []
    requires forall j :: 0 <= j < |lines| ==> LineHits(LineQueryWords(tq), lines[j]) == 0
    ensures SmartLine(lines, tq) == Some(lines[0])
  {
    BestLineIsBest(lines, LineQueryWords(tq));
  }

  /**
   * The smart line match loop: it starts from the first line with a best
   * score of 0 and moves on only to a line with strictly more hits.
   */
  method SmartLineMatch(lines: seq<Line>, tq: string) returns (matchedLine: Option<Line>)
    ensures matchedLine == SmartLine(lines, tq)
  {
    if lines == [] {
      return None;
    }
    var queryWords := LineQueryWords(tq);
    var k := ScanForBest(lines, LineScore(queryWords), 0.0);
    matchedLine := Some(lines[k]);
  }
}
