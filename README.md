# Gurbani projector search, modelled in Dafny

The Gurbani projector listens to a reader and shows the line of scripture
being recited. Two pieces of its code decide which line that is, and this
project models both:

- **The client-side matcher** (`src/util/gurbani.ts`). It cleans a speech
  transcript by:
  - lower-casing and trimming it;
  - collapsing vowel runs;
  - keeping Latin, digit, space and Gurmukhi characters, then removing
    Gurmukhi vowel signs (matras);
  - turning spoken numerals into digits;
  - collapsing whitespace.

  It also rejects transcripts that look like noise, takes the acronym of a
  transcript, and looks for the next spoken line within the 15 lines after
  the current one.
- **The search route** (`src/app/api/search/route.ts`), the `POST` handler
  that resolves a query to a shabad (a hymn) and one line of it. Its steps:
  1. It rejects an empty query.
  2. It detects a bani (a long composition) by name. A hand-written
     priority table is tried longest key first. After it come the bani
     catalogue (cached for 24 hours), a "name or name + space" containment
     test, and a fuzzy search. A detected bani that downloads with verses is
     answered at once, with its best-matching line.
  3. It maps four Simran keywords straight to shabad 31020.
  4. Otherwise it runs a cascade of up to four provider searches: full
     text, broad text, and two acronym searches. In each it picks the best
     candidate, scores its confidence from 0 to 100, and stops at the first
     candidate that clears an adaptive threshold.
  5. It downloads the shabad, drops lines without Gurmukhi text, and locates
     the matched line.

The pure parts are Dafny functions with lemmas. Three kinds of code become
methods with loop invariants, proved equal to those functions:
- the loops the source runs (the number-map walk, the key scan over the
  priority table, the candidate and line scans, the cascade loop);
- the per-line scoring of the local matcher;
- the handler itself.

The module-level catalogue cache (`cachedBaniList`, `lastFetchTime`) is a
class whose `GetBaniList` updates its fields.

Modules, one file each:
- `Wrappers` (`Option`);
- `Text` (the JavaScript string primitives the code relies on: ASCII
  lower-casing, `trim`, `\s+` collapse and split, `includes`, global
  `replace`, `\b…\b` word replacement, matra stripping);
- `Numbers` (ratios, `Math.round`);
- `Verses` (formatted lines);
- `Gurbani` (`gurbani.ts`);
- `Normalize` (`normalizeForMatch`);
- `Catalog` (`getBaniList` and its cache);
- `Resolver` (the bani and keyword tables, bani precedence);
- `Scoring` (candidate selection, `calculateConfidence`, the threshold);
- `Argmax` (the "first strictly better" scan);
- `Cascade` (strategies, the cascade loop, line location);
- `SearchRoute` (the handler).

Five behaviours of the code are easy to get wrong, and the model follows the
code in each:

- **Bani download failure.** A failed composition download does not answer
  "no match". A bani download that throws, or that has no verses, falls
  through to the keyword shortcut and the search cascade. See
  `SearchRoute.FailedBaniFallsThrough`.
- **No idempotent phonetic fold.** `normalizeForMatch` is not idempotent.
  `"aaaa"` folds to `"aa"`, and folding again gives `"a"`. See
  `Normalize.NormalizeNotIdempotent`.
- **Shabad download failure.** A shabad download that throws reaches the
  outer `catch`, which answers status 500. A body without `verses` gives
  "no match". A body with an empty `verses` array gives a shabad answer with
  no line.
- **No second-script handling.** The route has no Devanagari-to-Gurmukhi
  transliteration and no separate word-overlap weight for it. A Devanagari
  query is Roman-mode text to `calculateConfidence`, because it has no
  Gurmukhi character, and the word overlap is weighted 60 throughout.
- **Doubled-vowel number words.** The vowel collapse runs before the
  punctuation filter, so `Gurbani.PlainTextDoubledVowelKeysInert` holds only
  on plain text. In `"do-oja"` the hyphen hides the doubled vowel from the
  collapse, the filter then removes the hyphen, and the `dooja` key turns
  the word into `"2"`.

## Model

| member | source | states |
|---|---|---|
| Gurbani.CollapseVowelRuns | src/util/gurbani.ts:8 | the result is no longer than the input, has no vowel immediately doubled, keeps the first character and introduces no character |
| Gurbani.CollapseKeepsUndoubled | src/util/gurbani.ts:8 | text without a doubled vowel is unchanged, so lone vowels survive |
| Gurbani.CollapseRunStep | src/util/gurbani.ts:8 | a doubled vowel loses one copy, so a run of one vowel ends as exactly one |
| Gurbani.CollapseKeepStep | src/util/gurbani.ts:8 | a character that does not start a doubled vowel is kept, in front of the collapsed rest |
| Gurbani.KeepTranscriptChars | src/util/gurbani.ts:10 | every surviving character comes from the input and is a Latin lower-case letter, a digit, whitespace or a Gurmukhi-block character; text made only of these is unchanged |
| Gurbani.CleanTranscript | src/util/gurbani.ts:6-42 | the stage-by-stage cleaning plus the number-map loop produce exactly the cleaned text, which is single-spaced: no leading or trailing space and no two spaces in a row |
| Gurbani.CleanTextSpacing | src/util/gurbani.ts:41 | any cleaned transcript is single-spaced |
| Gurbani.CleanTextAlphabet | src/util/gurbani.ts:10-41 | a cleaned transcript holds only ASCII lower-case letters, digits, single spaces and Gurmukhi characters outside the stripped-mark set |
| Gurbani.CleanTextKeepsLetters | src/util/gurbani.ts:7-41 | every Gurmukhi letter that is not a stripped mark occurs as often in the cleaned text as in the input; Iri, Ura and Ek Onkar (U+0A72 to U+0A74) included |
| Gurbani.PlainTextDoubledVowelKeysInert | src/util/gurbani.ts:8-39 | on text of letters, digits and spaces, a number-map key with a doubled vowel ("dooja", "teeja") replaces nothing, because the vowel collapse ran before the map |
| Gurbani.NumberMapExamples | src/util/gurbani.ts:29-39 | "one", "duja" and "four" clean to "1", "2" and "4"; "three" cleans to "thre" and is no longer a key; "someone" does not match the key "one" inside it |
| Gurbani.CleanBlank | src/util/gurbani.ts:6-42 | empty or whitespace-only text cleans to the empty string |
| Gurbani.AcronymOfCleanTokens | src/util/gurbani.ts:73-79 | the acronym has one character per token of the cleaned transcript, that token's first, in order; it is empty exactly when the cleaned transcript is |
| Gurbani.HasRunFrom | src/util/gurbani.ts:63 | true exactly when some character repeats four or more times in a row from the given position on |
| Gurbani.IsProbableNoise | src/util/gurbani.ts:47-68 | noise exactly when the trimmed lower-cased text has fewer than two characters, or more than half of its tokens are fillers, or it holds a run of four equal characters |
| Gurbani.MatchIndex | src/util/gurbani.ts:94 | the index of the first line whose id is the current match's id, or -1 exactly when there is no match id or no line has it |
| Gurbani.WindowEnd | src/util/gurbani.ts:97 | the look-ahead window ends within the shabad and not before its start |
| Gurbani.WindowBounds | src/util/gurbani.ts:94-97 | the window starts at the current line and reaches at most 15 lines ahead; when the current line is absent it starts at the first line and holds at most 14 |
| Gurbani.ScoreLine | src/util/gurbani.ts:111-126 | the loop counts the spoken words longer than one character that the line contains, and adds the 80-point word share and the 20-point acronym bonus |
| Gurbani.EmptyAcronymEarnsBonus | src/util/gurbani.ts:124 | the 20-point acronym bonus is given whenever the line acronym or the spoken acronym is empty |
| Gurbani.AttemptLocalMatch | src/util/gurbani.ts:85-134 | no shabad gives no match; otherwise there is no match exactly when no line in the window is accepted, and a match is the first accepted line in the window with its rounded score |
| Gurbani.AcceptedLineBounds | src/util/gurbani.ts:116-131 | an accepted line matched at least one spoken word and reports a confidence from 40 to 100 |
| Text.StripMatras | src/app/api/search/route.ts:33-36 | no stripped mark remains, no character is introduced, and text without marks is unchanged |
| Text.StripMatrasCount | src/app/api/search/route.ts:33-36 | every character outside the stripped set occurs as often after stripping as before |
| Text.StripMatrasIdempotent | src/app/api/search/route.ts:33-36 | stripping twice gives what stripping once gives |
| Text.StripMatrasSingle | src/app/api/search/route.ts:34-35 | a single character is removed exactly when it is in the stripped set; Iri, Ura and Ek Onkar are always kept |
| Normalize.KeepAlnumConcat | src/app/api/search/route.ts:29 | the final filter works piece by piece, so every ASCII lower-case letter and digit is kept, in order |
| Normalize.KeepAlnumSingle | src/app/api/search/route.ts:29 | a single character is kept exactly when it is an ASCII lower-case letter or a digit |
| Normalize.NormalizeAlphabet | src/app/api/search/route.ts:12-30 | the normalised text holds only ASCII letters and digits and never `w`, and is no longer than the input |
| Normalize.NormalizeNoLatin | src/app/api/search/route.ts:29 | text without Latin letters or digits (Gurmukhi, say) normalises to the empty string |
| Normalize.NormalizeRunOfA | src/app/api/search/route.ts:15 | a run of n letters `a` normalises to a run of (n + 1) / 2 (rounded down) letters `a`, because `aa` is replaced without overlap |
| Normalize.NormalizeNotIdempotent | src/app/api/search/route.ts:12-30 | on every run of three or more `a`, a second normalisation changes the result again |
| Catalog.EntryId | src/app/api/search/route.ts:140 | `b.id \|\| b.baniID \|\| b.ID`: the `id` when non-zero, and a non-zero result is one of the three fields |
| Catalog.GetBaniListStep | src/app/api/search/route.ts:75-102 | a download happens exactly when the cache is empty or 24 hours old; a fresh cache is served unchanged; a download replaces the list and the time; a failed one serves `[]` and keeps the state |
| Catalog.ServedWithinTimeToLive | src/app/api/search/route.ts:77-95 | after a download, every call within 24 hours serves the downloaded list without downloading |
| Catalog.NoStaleList | src/app/api/search/route.ts:77-101 | once the cache is 24 hours old, a failed download serves `[]`, not the old list |
| Catalog.FirstCallFetches | src/app/api/search/route.ts:8-9 | the first call always downloads |
| Catalog.BaniListCache.constructor | src/app/api/search/route.ts:8-9 | the cache starts empty with time 0 |
| Catalog.BaniListCache.GetBaniList | src/app/api/search/route.ts:75-102 | serves and stores what the cache step prescribes for the old state |
| Resolver.SortByLength | src/app/api/search/route.ts:127 | the keys sorted longest first, as many as given, with the same members |
| Resolver.SortPermutes | src/app/api/search/route.ts:127 | the sorted keys are a permutation of the table |
| Resolver.SortStable | src/app/api/search/route.ts:127 | the sort is stable: the keys of each length keep their table order, so ties between equally long keys go to the one listed first |
| Resolver.PriorityBaniId | src/app/api/search/route.ts:126-133 | the key scan returns the id of the first key, in longest-first order, that the query contains |
| Resolver.PriorityIsLongest | src/app/api/search/route.ts:127-133 | a priority hit belongs to a key the query contains and no longer contained key exists; there is no hit exactly when the query contains no key |
| Resolver.PriorityUnique | src/app/api/search/route.ts:127-133 | when every contained key agrees with one entry, the priority id is that entry's |
| Resolver.AnandExample | src/app/api/search/route.ts:49-50 | "anand bhaya meri maaye" resolves to bani 10, through the key "anand" |
| Resolver.PriorityPositive | src/app/api/search/route.ts:40-64 | every priority id is positive, so a priority hit always takes the `if (manualBaniId)` branch |
| Resolver.FindContainsMatch | src/app/api/search/route.ts:149-152 | the first catalogue entry whose lower-cased name is longer than 3 and is the query or a prefix of it followed by a space; none exactly when no entry qualifies |
| Resolver.EntryWithId | src/app/api/search/route.ts:140 | the chosen entry always carries the priority id; when some catalogue entry has that id it is the first such entry, and otherwise it is the `{ name: "Gurbani", id }` placeholder |
| Resolver.BaniPrecedence | src/app/api/search/route.ts:136-158 | a priority hit decides the bani id. Without one, the containment match wins over the fuzzy hit. With neither, or with an empty catalogue, no bani is chosen |
| Resolver.LookupOwn | src/app/api/search/route.ts:223-224 | a hit exactly when a key of the table equals the query, with that key's value |
| Resolver.KeywordShortcutExact | src/app/api/search/route.ts:67-72 | exactly "waheguru", "w w w", "www" and "simran" take the shortcut, all to shabad 31020 |
| Resolver.InheritedKeyHitsAsWritten | src/app/api/search/route.ts:223-224 | as written, "constructor" and "\_\_proto\_\_" read truthy inherited members, while the own-key lookup finds nothing |
| Resolver.AsWrittenAgreesElsewhere | src/app/api/search/route.ts:223-224 | for every other query the as-written lookup and the own-key lookup agree |
| Numbers.Ratio | src/app/api/search/route.ts:313 | `count / Math.max(total, 1)` is between 0 and 1 for a count within the total, positive for a positive count, and 1 for all of it |
| Scoring.RemoveWs | src/app/api/search/route.ts:283 | removing whitespace leaves no space and no new character |
| Scoring.RemoveWsConcat | src/app/api/search/route.ts:283 | removal works piece by piece, so every character that is not whitespace is kept, in order |
| Scoring.RemoveWsSingle | src/app/api/search/route.ts:283 | a single character is dropped exactly when it is whitespace |
| Scoring.LongWords | src/app/api/search/route.ts:319 | the kept query words are each at least the minimum length |
| Scoring.LongWordsConcat | src/app/api/search/route.ts:319 | the filter works piece by piece, so every long enough word is kept, in order |
| Scoring.LongWordsSingle | src/app/api/search/route.ts:319 | a single word is kept exactly when it has at least the minimum length |
| Scoring.WordHits | src/app/api/search/route.ts:320-324 | at most one hit per query word |
| Scoring.CountWordHits | src/app/api/search/route.ts:320-324 | the `forEach` loop counts the word hits |
| Scoring.AcronymModeScore | src/app/api/search/route.ts:305-313 | an acronym-mode candidate score lies between 0 and 1100 |
| Scoring.FullModeScore | src/app/api/search/route.ts:314-326 | a full-text candidate score lies between 0 and 1500 |
| Scoring.AcronymCandidateScore | src/app/api/search/route.ts:305-313 | the tiered acronym comparison plus the character-overlap loop give the acronym-mode score |
| Scoring.FullCandidateScore | src/app/api/search/route.ts:314-326 | the containment bonus plus the word-by-word loop give the full-text score |
| Scoring.CandidateScore | src/app/api/search/route.ts:286-326 | a candidate's selection score under the strategy's mode |
| Scoring.BestIndexIsFirstMax | src/app/api/search/route.ts:281-332 | the selected candidate has the highest selection score, and no candidate before it has that score |
| Scoring.SelectCandidate | src/app/api/search/route.ts:281-332 | the candidate loop keeps the first candidate of highest score |
| Scoring.AcronymEqualityDominates | src/app/api/search/route.ts:307-313 | an exact acronym scores at least 1100 and any other at most 600 |
| Scoring.ContainmentDominates | src/app/api/search/route.ts:316-325 | a transliteration that contains the normalised query scores at least 1000, and one that does not at most 500 |
| Scoring.SelectionPrefersExactAcronym | src/app/api/search/route.ts:305-332 | in acronym mode, when some candidate's acronym equals the query, the selected candidate's acronym equals it too |
| Scoring.SelectionPrefersContainment | src/app/api/search/route.ts:314-332 | in full mode, when some candidate contains the normalised query, the selected one contains it too |
| Scoring.GurmukhiQueryAlwaysContained | src/app/api/search/route.ts:316 | a query without Latin letters or digits normalises to the empty string, so every candidate gets the 1000-point containment bonus |
| Scoring.AcronymScore | src/app/api/search/route.ts:358-368 | 0 for a query acronym shorter than 3; otherwise 85 on equality, 70 when the line acronym starts with the query acronym, 50 when it only contains it, and at most 40 (the share of shared characters) when it does not contain it |
| Scoring.GurmukhiTextScore | src/app/api/search/route.ts:374-381 | on the matra-stripped texts: 95 on equality, 80 on containment either way without equality, and 0 when neither contains the other |
| Scoring.RomanTextScore | src/app/api/search/route.ts:382-395 | the Roman text score lies between 0 and 155 |
| Scoring.MaxScoreRounding | src/app/api/search/route.ts:369-399 | the rounded best score lies between 0 and 155; it is at least 80 when the text score is, at least 95 when the text score is, and at most 85 without a text score |
| Scoring.Confidence | src/app/api/search/route.ts:335-400 | confidence lies between 0 and 100. In acronym mode it is at most 85, and 0 when the query acronym is shorter than 3. In Roman full-text mode it is at least 80 on containment and 95 on equality. In Gurmukhi mode it is at least 80 on a text match and at least 95 when the matra-stripped texts are equal |
| Scoring.Threshold | src/app/api/search/route.ts:407 | the threshold is 45 exactly when the query is longer than 15 characters, and 55 otherwise |
| Scoring.ThresholdMonotone | src/app/api/search/route.ts:407 | a longer query never meets a higher threshold |
| Scoring.ShortAcronymNeverPasses | src/app/api/search/route.ts:352-368 | an acronym-mode candidate whose query acronym has fewer than 3 characters never clears the threshold |
| Argmax.FirstMaxIndex | src/app/api/search/route.ts:328-331 | the index holds the maximum and every earlier value is strictly smaller |
| Argmax.ScanForBest | src/app/api/search/route.ts:281-332 | the "replace only on strictly greater" scan ends at the first index of maximal score |
| Cascade.PlannedStrategies | src/app/api/search/route.ts:241-259 | gives the strategy list. An explicit acronym request gets two acronym strategies (types 1 and 0) on `acronym \|\| trimmedQuery`. Otherwise full text (type 4) and broad text (type 8) come first, and two acronym strategies on the initials are added exactly when the query has more than one word |
| Cascade.BuildStrategies | src/app/api/search/route.ts:236-259 | the pushes build exactly the planned strategies |
| Cascade.FullTextFirst | src/app/api/search/route.ts:248-258 | without an acronym request the first two strategies are scored in full-text mode and every later one in acronym mode |
| Cascade.AttemptSpec | src/app/api/search/route.ts:278-416 | a provider failure or an empty answer gives nothing. Otherwise the first best candidate is kept exactly when its confidence clears the threshold, and it is reported with that confidence and the strategy type |
| Cascade.CascadeIsFirstSuccess | src/app/api/search/route.ts:261-420 | the cascade's hit is the hit of the first strategy that has one, and no hit means no strategy had one |
| Cascade.CascadeHitConfidence | src/app/api/search/route.ts:404-411 | a kept hit's confidence lies between the threshold (itself at least 45) and 100, and its type is the type of one of the strategies |
| Cascade.ShortAcronymRequestFails | src/app/api/search/route.ts:243-246 | an explicit acronym request whose acronym has fewer than 3 characters never finds a match, whatever the provider answers |
| Cascade.SkippedStrategy | src/app/api/search/route.ts:417-419 | a strategy whose search throws or returns no verses is skipped, and the cascade moves to the next |
| Cascade.TryCandidates | src/app/api/search/route.ts:278-416 | one strategy's candidate selection and threshold test give that strategy's attempt |
| Cascade.RunCascade | src/app/api/search/route.ts:261-420 | the loop with its `break` returns the cascade's hit and the type of the strategy that produced it, or -1 |
| Cascade.LineById | src/app/api/search/route.ts:455-458 | the first line with the candidate's verse id when there is one, else the first line, and nothing only for an empty shabad |
| Cascade.FindId | src/app/api/search/route.ts:458 | the first position holding the id, or the length when no line has it |
| Cascade.SmartLineIsBest | src/app/api/search/route.ts:461-476 | the smart line has the most query-word hits, and no earlier line has as many |
| Cascade.SmartLineDefaultsToFirst | src/app/api/search/route.ts:184-203 | when no line has a hit, the first line is chosen |
| Cascade.SmartLineMatch | src/app/api/search/route.ts:461-476 | the nested loops choose the smart line |
| Verses.Displayable | src/app/api/search/route.ts:452 | only lines with Gurmukhi text remain, each an original line, and nothing is dropped when every line has Gurmukhi text |
| Verses.DisplayableConcat | src/app/api/search/route.ts:452 | the filter works piece by piece, so every line with Gurmukhi text is kept, in order |
| Verses.DisplayableSingle | src/app/api/search/route.ts:452 | a single line is kept exactly when its Gurmukhi text is not empty |
| SearchRoute.ShabadStageSpec | src/app/api/search/route.ts:427-488 | a shabad answer is given exactly for a shabad id with a downloaded body. It carries the displayable lines, the kept candidate's line (or the smart line without one), `confidence \|\| 100`, and the source title or "Gurbani". A throwing download answers 500; no id, or a body without verses, answers no match |
| SearchRoute.AnswerBani | src/app/api/search/route.ts:160-219 | the full-bani branch answers only for a detected bani with a non-empty download |
| SearchRoute.AnswerSearch | src/app/api/search/route.ts:221-488 | the keyword, cascade and shabad stages give the search answer |
| SearchRoute.Post | src/app/api/search/route.ts:104-494 | the handler's response and the new cache state are the request's answer from the old cache |
| SearchRoute.InvalidRequestsRejected | src/app/api/search/route.ts:106-112 | a body that is not JSON answers 500 and an empty or blank query answers 400, both without touching the cache |
| SearchRoute.CacheAdvancesOnce | src/app/api/search/route.ts:135 | a valid request moves the cache by exactly one catalogue step |
| SearchRoute.PriorityBaniAnswered | src/app/api/search/route.ts:126-214 | a query naming a priority bani, with a non-empty download, gets the full-bani answer with type 99 and that bani's id |
| SearchRoute.FailedBaniFallsThrough | src/app/api/search/route.ts:160-219 | a bani download that throws or has no verses leaves the answer to the keyword and search stages |
| SearchRoute.KeywordSkipsCascade | src/app/api/search/route.ts:222-232 | a keyword query's answer does not depend on any provider search; with a downloaded shabad it is shabad 31020, search type -1, confidence 100 and the smart line |
| SearchRoute.SearchAnswerFromCascade | src/app/api/search/route.ts:422-488 | without a keyword, a shabad answer comes from the cascade's hit: its shabad, its type, a confidence between the threshold and 100, and the line with its verse id |
| SearchRoute.NoHitNoMatch | src/app/api/search/route.ts:427-429 | without a keyword and without a cascade hit the answer is no match |
| SearchRoute.ReportedConfidenceRange | src/app/api/search/route.ts:482 | a shabad answer reports a confidence from 1 to 100 |

## Left out

- Network calls, timers and the response object are inputs of the model
  (`SearchRoute.Environment`). This covers `fetch`, `sleep(300)`,
  `AbortSignal.timeout(5000)`, `buildApiUrl` and `NextResponse.json`. The
  pacing delay and the per-call timeout are not modelled; a timed-out call
  is a thrown error.
- Fuse.js fuzzy search over the catalogue is an input: the best hit with a
  score below 0.4, or none. Its scoring is third-party code and is not part
  of this model.
- The unwrapping of the provider's nested verse JSON
  (`route.ts:169-178`, `442-451`) is not modelled; a shabad or bani arrives
  as a list of already formatted lines.
- The translation fields of a line are not modelled because no decision
  reads them.
- The catalogue body's `data.banis` unwrapping is not modelled; a download
  is a list of entries or a failure.
- A non-array body that is cached anyway is not modelled.
- A non-string `query` is not modelled; the outer `catch` for it is the
  same 500 as for a body that is not JSON.
- The outer `catch` reports `error.response.status` when the error carries
  one. The model always answers 500.
- Lower-casing and `\b` word boundaries cover ASCII only; Unicode case
  mapping is not modelled.
- JavaScript strings are sequences of code points here, not UTF-16 code
  units.
- Scores are exact rationals, not IEEE doubles. `Math.round` is
  `floor(x + 0.5)`, which agrees on the non-negative scores used.
- Console logging is not modelled (`route.ts:116-122`, `217`).
- Concurrency between requests sharing the catalogue cache is not
  modelled; each request is one atomic step of the cache.
- The React hooks, UI components and import scripts of the repository are
  not part of this model. They call into the two files modelled.
- SearchRoute.SearchStage, SearchRoute.AnswerSearch, SearchRoute.Post: use the own-key keyword lookup, not the inherited-member lookup of `route.ts:223-224`. For the queries `constructor` and `__proto__` the code skips the cascade and asks for a shabad whose id is a function or an object; the model runs the cascade for them. The code's behaviour is stated by `Resolver.KeywordLookupAsWritten` (see Findings).
- Scoring.RomanTextScore: states only its range; its tiers are stated
  through `Scoring.Confidence`.
- Cascade.SmartLineMatch: the inner `forEach` over query words is proved
  through the hit-count function, not through a loop of its own.

## Findings

| source | as written | input that shows it | evidently intended | confidence | as-written member | corrected member |
|---|---|---|---|---|---|---|
| src/app/api/search/route.ts:223-224 | `MANUAL_KEYWORD_MAP[trimmedQuery]` reads the members every object inherits, as well as the four keys of the table. | The query `constructor` reads the truthy `Object` function, so the handler skips the cascade and asks for a shabad whose id is that function. | Only the four own keys should take the keyword shortcut. | medium; not executed | Resolver.KeywordLookupAsWritten, shown by Resolver.InheritedKeyHitsAsWritten | Resolver.KeywordShortcut, proved by Resolver.KeywordShortcutExact and Resolver.AsWrittenAgreesElsewhere |
