/**
 * The `POST` handler of the search route, as one pass over a request: the
 * query check, bani detection and the full-bani answer, the keyword
 * shortcut, the search cascade, and the fetched shabad with its matched
 * line. Everything the handler fetches is an input (`Environment`).
 */
module SearchRoute {
  import opened Wrappers
  import opened Text
  import opened Verses
  import opened Catalog
  import opened Resolver
  import opened Scoring
  import opened Cascade

  // =====================================================================
  // Inputs and responses
  // =====================================================================

  /** The destructured body; an absent `acronym` is `""`, an absent `isAcronym` is `false`. */
  datatype Request = Request(query: string, acronym: string, isAcronym: bool)

  /** The full-bani download: a thrown error, or the formatted verses of the body. */
  datatype BaniFetch = BaniThrew | BaniBody(verses: seq<Line>)

  /** The shabad download: a thrown error, a body without `verses`, or its source title and verses. */
  datatype ShabadFetch = ShabadThrew | ShabadNoVerses | ShabadBody(source: string, verses: seq<Line>)

  /**
   * What the outside world gives one request: the clock, the catalogue
   * download, Fuse's best bani hit when its score is below 0.4, the
   * full-bani download, the provider's answer to each strategy in order,
   * and the shabad download.
   */
  datatype Environment = Environment(
    now: int,
    catalogue: Option<seq<Entry>>,
    fuzzy: Option<Entry>,
    bani: BaniFetch,
    searches: seq<Outcome>,
    shabad: ShabadFetch)

  /**
   * The JSON answer: status 400, status 500, `{ match: null, shabad: null }`,
   * a full bani, or a shabad with its matched line.
   */
  datatype Response =
    | BadRequest
    | ServerError
    | NoMatch
    | BaniResult(line: Option<Line>, searchTypeUsed: int, baniId: int, name: string, lines: seq<Line>)
    | ShabadResult(line: Option<Line>, searchTypeUsed: int, confidence: int, shabadId: int, title: string, lines: seq<Line>)

  /** The search type reported with a full bani. */
  const BaniSearchType: int := 99

  // =====================================================================
  // The stages
  // =====================================================================

  /** The full-bani answer: given only for a chosen bani whose download has at least one verse. */
  function BaniStage(choice: BaniChoice, bani: BaniFetch, tq: string): Option<Response> {
    if choice.baniId != 0 && bani.BaniBody? && |bani.verses| > 0 then
      var lines := Displayable(bani.verses);
      Some(BaniResult(SmartLine(lines, tq), BaniSearchType, choice.baniId, BaniName(choice), lines))
    else None
  }

  /** `finalShabadId`: the keyword's shabad, else the shabad of the kept candidate, else 0. */
  function FinalShabadId(keyword: Option<int>, hit: Option<Hit>): int {
    if keyword.Some? && keyword.value != 0 then keyword.value
    else if hit.Some? then hit.value.best.shabadId
    else 0
  }

  /** `searchData?.confidence || 100`. */
  function ReportedConfidence(hit: Option<Hit>): int {
    if hit.Some? && hit.value.confidence != 0 then hit.value.confidence else 100
  }

  /** `shabadInfo?.source?.english || "Gurbani"`. */
  function ShabadTitle(source: string): string {
    if source != "" then source else "Gurbani"
  }

  /**
   * The answer once the shabad id is known: the kept candidate's verse is
   * looked up by id, and without a candidate the smart line match picks
   * the line.
   */
  function ShabadStage(tq: string, finalId: int, hit: Option<Hit>, successfulType: int, shabad: ShabadFetch): Response {
    if finalId == 0 then NoMatch
    else if shabad.ShabadThrew? then ServerError
    else if shabad.ShabadNoVerses? then NoMatch
    else
      var lines := Displayable(shabad.verses);
      var line := if hit.Some? then LineById(lines, hit.value.best.verseId) else SmartLine(lines, tq);
      ShabadResult(line, successfulType, ReportedConfidence(hit), finalId, ShabadTitle(shabad.source), lines)
  }

  /** The hit of the cascade, which only runs without a keyword shortcut. */
  function SearchHit(tq: string, req: Request, searches: seq<Outcome>): Option<Hit> {
    if KeywordShortcut(tq).Some? then None
    else CascadeResult(PlannedStrategies(tq, req.acronym, req.isAcronym), searches, tq, req.isAcronym)
  }

  /** Everything after bani detection: the keyword, the cascade and the shabad. */
  function SearchStage(tq: string, req: Request, env: Environment): Response {
    var keyword := KeywordShortcut(tq);
    var hit := SearchHit(tq, req, env.searches);
    var successfulType := if hit.Some? then hit.value.searchType else -1;
    ShabadStage(tq, FinalShabadId(keyword, hit), hit, successfulType, env.shabad)
  }

  /**
   * A shabad answer needs a shabad id and a download with verses; it
   * reports the displayable verses, the kept candidate's line (or the
   * smart line without one), and `searchData?.confidence || 100`.
   */
  lemma ShabadStageSpec(tq: string, finalId: int, hit: Option<Hit>, successfulType: int, shabad: ShabadFetch)
    ensures var r := ShabadStage(tq, finalId, hit, successfulType, shabad);
      (r.ShabadResult? <==> finalId != 0 && shabad.ShabadBody?)
      && (r.ShabadResult? ==>
            r.shabadId == finalId && r.searchTypeUsed == successfulType
            && r.confidence == ReportedConfidence(hit) && r.lines == Displayable(shabad.verses)
            && r.title == ShabadTitle(shabad.source)
            && r.line == (if hit.Some? then LineById(r.lines, hit.value.best.verseId) else SmartLine(r.lines, tq)))
      && (finalId != 0 && shabad.ShabadThrew? ==> r == ServerError)
      && (finalId == 0 || shabad.ShabadNoVerses? ==> r == NoMatch)
  {
  }

  /** `trimmedQuery`. */
  function TrimmedQuery(query: string): string {
    Lower(Trim(query))
  }

  /**
   * The handler: the response and the new catalogue cache. `None` stands
   * for a body that is not JSON, which the outer `catch` answers with 500.
   */
  function Respond(st: CacheState, body: Option<Request>, env: Environment): (Response, CacheState) {
    if body.None? then (ServerError, st)
    else if Trim(body.value.query) == "" then (BadRequest, st)
    else
      var tq := TrimmedQuery(body.value.query);
      var step := GetBaniListStep(st, env.now, env.catalogue);
      var choice := ResolveBani(PriorityBani(tq), tq, step.list, env.fuzzy);
      var baniAnswer := BaniStage(choice, env.bani, tq);
      (if baniAnswer.Some? then baniAnswer.value else SearchStage(tq, body.value, env), step.state)
  }

  // =====================================================================
  // The handler as a method over the module-level cache
  // =====================================================================

  /** The full-bani branch: the smart line match over the formatted verses. */
  method AnswerBani(choice: BaniChoice, bani: BaniFetch, tq: string) returns (answer: Option<Response>)
    ensures answer == BaniStage(choice, bani, tq)
  {
    answer := None;
    if choice.baniId != 0 {
      if bani.BaniBody? && |bani.verses| > 0 {
        var formattedLines := Displayable(bani.verses);
        var bestMatchedLine := SmartLineMatch(formattedLines, tq);
        answer := Some(BaniResult(bestMatchedLine, BaniSearchType, choice.baniId, BaniName(choice), formattedLines));
      }
    }
  }

  /** The keyword check, the cascade when there is no keyword, and the shabad answer. */
  method AnswerSearch(tq: string, req: Request, env: Environment) returns (response: Response)
    ensures response == SearchStage(tq, req, env)
  {
    var manualShabadId := KeywordShortcut(tq);
    var searchData: Option<Hit> := None;
    var successfulType := -1;
    var finalShabadId := if manualShabadId.Some? then manualShabadId.value else 0;
    KeywordShortcutExact(tq);
    if finalShabadId == 0 {
      var strategies := BuildStrategies(tq, req.acronym, req.isAcronym);
      searchData, successfulType := RunCascade(strategies, env.searches, tq, req.isAcronym);
      if searchData.Some? {
        finalShabadId := searchData.value.best.shabadId;
      }
    }
    if finalShabadId == 0 {
      return NoMatch;
    }
    match env.shabad
    case ShabadThrew =>
      response := ServerError;
    case ShabadNoVerses =>
      response := NoMatch;
    case ShabadBody(source, verses) =>
      var formattedLines := Displayable(verses);
      var matchedLine: Option<Line>;
      if searchData.Some? {
        matchedLine := LineById(formattedLines, searchData.value.best.verseId);
      } else {
        matchedLine := SmartLineMatch(formattedLines, tq);
      }
      response := ShabadResult(matchedLine, successfulType, ReportedConfidence(searchData), finalShabadId,
                               ShabadTitle(source), formattedLines);
  }

  /** `POST`: one request against the module-level catalogue cache. */
  method Post(cache: BaniListCache, body: Option<Request>, env: Environment) returns (response: Response)
    modifies cache
    ensures (response, cache.State()) == Respond(old(cache.State()), body, env)
  {
    if body.None? {
      return ServerError;
    }
    var req := body.value;
    if Trim(req.query) == "" {
      return BadRequest;
    }
    var trimmedQuery := TrimmedQuery(req.query);
    var manualBaniId := PriorityBaniId(BaniMap, trimmedQuery);
    var baniList := cache.GetBaniList(env.now, env.catalogue);
    var choice := ResolveBani(manualBaniId, trimmedQuery, baniList, env.fuzzy);
    var baniAnswer := AnswerBani(choice, env.bani, trimmedQuery);
    if baniAnswer.Some? {
      return baniAnswer.value;
    }
    response := AnswerSearch(trimmedQuery, req, env);
  }

  // =====================================================================
  // Properties of the handler
  // =====================================================================

  /** A body that is not JSON gets status 500, and a blank query status 400; the cache is untouched. */
  lemma InvalidRequestsRejected(st: CacheState, body: Option<Request>, env: Environment)
    requires body.None? || Trim(body.value.query) == ""
    ensures Respond(st, body, env).1 == st
    ensures body.None? ==> Respond(st, body, env).0 == ServerError
    ensures body.Some? ==> Respond(st, body, env).0 == BadRequest
  {
  }

  /** Every query that is not blank consults the cache once, whatever is answered. */
  lemma CacheAdvancesOnce(st: CacheState, req: Request, env: Environment)
    requires Trim(req.query) != ""
    ensures Respond(st, Some(req), env).1 == GetBaniListStep(st, env.now, env.catalogue).state
  {
  }

  /**
   * A query that includes a priority bani key, with a download that has
   * verses, is answered with that bani (search type 99) and none of the
   * search runs.
   */
  lemma PriorityBaniAnswered(st: CacheState, req: Request, env: Environment)
    requires Trim(req.query) != ""
    requires PriorityBani(TrimmedQuery(req.query)).Some?
    requires env.bani.BaniBody? && |env.bani.verses| > 0
    ensures var r := Respond(st, Some(req), env).0;
      r.BaniResult? && r.baniId == PriorityBani(TrimmedQuery(req.query)).value
      && r.searchTypeUsed == BaniSearchType && r.lines == Displayable(env.bani.verses)
      && r.line == SmartLine(r.lines, TrimmedQuery(req.query))
  {
    PriorityPositive(TrimmedQuery(req.query));
  }

  /**
   * A chosen bani whose download throws or has no verses does not answer:
   * the request goes on to the keyword and the search as if no bani had
   * been chosen.
   */
  lemma FailedBaniFallsThrough(st: CacheState, req: Request, env: Environment)
    requires Trim(req.query) != ""
    requires env.bani.BaniThrew? || env.bani.verses == []
    ensures Respond(st, Some(req), env).0 == SearchStage(TrimmedQuery(req.query), req, env)
  {
  }

  /**
   * A keyword query that reaches the search is answered from the keyword's
   * shabad without any provider search: search type -1, confidence 100,
   * and the same answer whatever the provider would say.
   */
  lemma KeywordSkipsCascade(tq: string, req: Request, env: Environment, other: seq<Outcome>)
    requires tq == "waheguru" || tq == "w w w" || tq == "www" || tq == "simran"
    ensures SearchStage(tq, req, env) == SearchStage(tq, req, env.(searches := other))
    ensures env.shabad.ShabadBody? ==>
      var r := SearchStage(tq, req, env);
      r.ShabadResult? && r.shabadId == 31020 && r.searchTypeUsed == -1 && r.confidence == 100
      && r.line == SmartLine(r.lines, tq)
  {
    KeywordShortcutExact(tq);
    ShabadStageSpec(tq, 31020, None, -1, env.shabad);
  }

  /**
   * Without a keyword, a shabad answer comes from the cascade's kept
   * candidate: its shabad, its strategy's type, a confidence between the
   * threshold and 100, and the line with the candidate's verse id.
   */
  lemma SearchAnswerFromCascade(tq: string, req: Request, env: Environment)
    requires KeywordShortcut(tq).None?
    ensures var r := SearchStage(tq, req, env);
      var hit := CascadeResult(PlannedStrategies(tq, req.acronym, req.isAcronym), env.searches, tq, req.isAcronym);
      r.ShabadResult? ==>
        hit.Some? && r.shabadId == hit.value.best.shabadId
        && r.searchTypeUsed == hit.value.searchType
        && Threshold(tq) <= r.confidence <= 100
        && r.line == LineById(r.lines, hit.value.best.verseId)
  {
    var hit := CascadeResult(PlannedStrategies(tq, req.acronym, req.isAcronym), env.searches, tq, req.isAcronym);
    assert SearchHit(tq, req, env.searches) == hit;
    var successfulType := if hit.Some? then hit.value.searchType else -1;
    ShabadStageSpec(tq, FinalShabadId(None, hit), hit, successfulType, env.shabad);
    CascadeHitConfidence(PlannedStrategies(tq, req.acronym, req.isAcronym), env.searches, tq, req.isAcronym);
  }

  /** Without a keyword and without a passing strategy there is no match, whatever the shabad download. */
  lemma NoHitNoMatch(tq: string, req: Request, env: Environment)
    requires KeywordShortcut(tq).None?
    requires CascadeResult(PlannedStrategies(tq, req.acronym, req.isAcronym), env.searches, tq, req.isAcronym).None?
    ensures SearchStage(tq, req, env) == NoMatch
  {
  }

  /** Every shabad answer reports a confidence in `1..100`. */
  lemma ReportedConfidenceRange(tq: string, req: Request, env: Environment)
    ensures var r := SearchStage(tq, req, env);
      r.ShabadResult? ==> 1 <= r.confidence <= 100
  {
    if KeywordShortcut(tq).None? {
      SearchAnswerFromCascade(tq, req, env);
    }
  }
}
