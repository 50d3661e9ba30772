# QuizMapperJS response analyser and quiz wizard, in Dafny

This project models two parts of QuizMapperJS.

**The response analyser, `QuizAnalyzer`** (`src/utils/quiz/QuizMapperSystem.js`). A call
to `analyzeResponses` does the following:

- It creates a fresh analysis object.
- It folds the answers into that object one by one. Each answer updates, in place:
  - the raw responses;
  - the indicator set;
  - the running aspect scores;
  - the trait-value lists;
  - the category counts.
- It scores every result type of the catalog (thresholds, indicator overlap, custom rules).
- It keeps the best result type with a `reduce`.
- It derives a capped confidence and a HIGH / MEDIUM / LOW level.
- It builds a report that summarises each trait into a frequency table and a primary value.

**The quiz wizard of `DetailedQuizPage`** (`src/pages/DetailedQuizPage.jsx`). This part covers:

- the progress numbers (`totalQuestions`, `currentTotal`, `progress`);
- the (section, question) cursor, which `handleAnswer` advances and `handleBack` steps back;
- the answer slot `section * 5 + question`;
- the analyser configuration the page uses.

Layout:

- `quiz_types.dfy`: answers, result types, the analysis state, the configuration and the report, as values.
- `reduce.dfy`: `xs.reduce((a, b) => f(a) > f(b) ? a : b)`, which the source uses twice, and its characterisation.
- `accumulate.dfy`: the per-answer updates as functions on the analysis state. The fold over a list of answers is related to independent per-answer totals.
- `matching.dfy`: the match score, the main result, the confidence and the level.
- `summary.dfy`: frequency tables and the primary value.
- `analyzer.dfy`: the classes `Analysis` and `QuizAnalyzer`. Their methods update the analysis object in place and are proved against the functions above. It also has the whole-report lemmas and a scenario on the default catalog.
- `quiz_page.dfy`: the progress arithmetic, the cursor functions and their lemmas, and the class `QuizPage` with `HandleAnswer` and `HandleBack`. It also has the page's own content and analyser configuration, with lemmas about them.

Modelling conventions:

- Scores and weights are `real`.
- The result-type catalog, each definition's thresholds and each answer's trait entries are sequences of pairs, so their iteration order is explicit.
- The indicator `Set` is a sequence without duplicates, in insertion order.
- A missing answer, or one whose `value` is falsy, is `None`, or has `value == ""`.
- A falsy category is `""`.
- A custom rule is a total function returning `Option<real>`. `None` stands for any falsy result, which counts as 0.
- `UpdateScores` adds each contribution into a local copy of the score map and stores the copy once, at the end. Nothing reads the map in between, so the final object is the same as with the source's in-place additions.

**Ties.** Both `reduce` selections (the main result and each trait's primary value) keep the *later* element when two scores are equal. Lines 196 and 309-310 of `src/utils/quiz/QuizMapperSystem.js` keep the incoming element unless the accumulated one scores strictly higher:

- `Matching.MainResultIsLastBest` proves that the last maximal entry is chosen.
- `Summary.PrimaryIsLatestMode` proves that, among tied values, the one whose first occurrence comes latest is chosen.

## Model

| member | source | states |
|---|---|---|
| Reduce.ReduceBestIsLastMaximum | src/utils/quiz/QuizMapperSystem.js:196 | the selected element scores at least as high as every element, and every element after it scores strictly lower (the later element wins a tie) |
| Accumulate.InitialAnalysisWellFormed | src/utils/quiz/QuizMapperSystem.js:96-107 | the fresh analysis satisfies the invariant every later state keeps: score keys are exactly the configured aspects, no duplicate indicators, no empty trait list, positive category counts, no patterns |
| QuizMapperSystem.Analysis.constructor | src/utils/quiz/QuizMapperSystem.js:96-107 | every configured aspect starts at 0 and no other aspect has a score; indicators, trait lists, categories, patterns and raw responses start empty |
| Accumulate.AddIndicators | src/utils/quiz/QuizMapperSystem.js:122-124 | after adding the tags the set holds exactly the old members and the new tags; the old members keep their order at the front; no tag appears twice |
| Accumulate.AppendAttributesSpec | src/utils/quiz/QuizMapperSystem.js:151-160 | the keys become the old keys plus the answer's keys; each key's list is its old list followed by the answer's values for that key, in entry order; no list is empty |
| Accumulate.Step | src/utils/quiz/QuizMapperSystem.js:115-131 | a missing or valueless answer changes nothing; otherwise: the answer is appended to the raw responses; the indicators become old ∪ the answer's tags; only configured aspects move, each by exactly the answer's score; trait lists grow by the answer's values; only the answer's own category count rises, by one; the invariant is kept |
| Accumulate.ProcessAll | src/utils/quiz/QuizMapperSystem.js:77 | folding any answer list keeps the analysis invariant |
| Accumulate.ProcessAllRawResponses | src/utils/quiz/QuizMapperSystem.js:116-119 | after the fold the raw responses are the old ones followed by exactly the accepted answers, in input order |
| Accumulate.ProcessAllScores | src/utils/quiz/QuizMapperSystem.js:138-144 | after the fold each configured aspect's score is its start value plus the sum of the accepted answers' scores for it; unconfigured aspects and the key set never change |
| Accumulate.ProcessAllIndicators | src/utils/quiz/QuizMapperSystem.js:122-124 | after the fold a tag is in the set exactly when it was already there or some accepted answer carries it |
| Accumulate.ProcessAllCategories | src/utils/quiz/QuizMapperSystem.js:167-172 | after the fold each non-empty category's count has grown by the number of accepted answers carrying it |
| Accumulate.ProcessAllAttributes | src/utils/quiz/QuizMapperSystem.js:151-160 | after the fold each trait's list is its old list followed by the accepted answers' values for it, answer by answer and entry by entry |
| Matching.HitCount | src/utils/quiz/QuizMapperSystem.js:216-218 | the number of wanted indicators present never exceeds the number wanted |
| Matching.IndicatorTerm | src/utils/quiz/QuizMapperSystem.js:216-220 | the indicator term lies between 0 and 0.3 |
| Matching.HitCountExtremes | src/utils/quiz/QuizMapperSystem.js:216-218 | with every wanted indicator present the count is the list length; with none present it is 0 |
| Matching.IndicatorTermExtremes | src/utils/quiz/QuizMapperSystem.js:216-220 | with every wanted indicator present the term is the full 0.3; with none present it is 0 |
| Matching.UnconfiguredThresholdSkipped | src/utils/quiz/QuizMapperSystem.js:209-213 | a threshold on an aspect missing from the weights never adds to the match score, wherever it stands among configured ones: removing it leaves the threshold term unchanged |
| Matching.UnconfiguredThresholdsNeverPass | src/utils/quiz/QuizMapperSystem.js:209-213 | a threshold list that names only unconfigured aspects contributes 0 |
| Matching.ThresholdTermMonotone | src/utils/quiz/QuizMapperSystem.js:209-213 | with non-negative weights the threshold term is never negative, and raising scores never lowers it |
| Matching.TypeMatchNonNegative | src/utils/quiz/QuizMapperSystem.js:205-228 | without custom rules and with non-negative weights a match score is never negative |
| Matching.MainResult | src/utils/quiz/QuizMapperSystem.js:190-197 | there is no main result exactly when the catalog is empty (the reduce throws) |
| Matching.MainResultIsLastBest | src/utils/quiz/QuizMapperSystem.js:190-197 | the main result is the catalog entry at the last index with the highest match score: no entry scores higher and every later entry scores strictly lower |
| Matching.CalculateConfidence | src/utils/quiz/QuizMapperSystem.js:246-259 | confidence never exceeds 1, and is non-negative when the match score is |
| Matching.ConfidenceWithoutPatterns | src/utils/quiz/QuizMapperSystem.js:246-259 | with no patterns, confidence is min(match × responses / expected, 1) |
| Matching.ConfidenceFromCompleteness | src/utils/quiz/QuizMapperSystem.js:246-259 | for a non-negative match score, with no patterns and at most the expected number of responses, confidence is at most the match score; with exactly the expected number it is the match score capped at 1 |
| Matching.NegativeMatchGivesNegativeConfidence | src/utils/quiz/QuizMapperSystem.js:246-258 | there is no lower clamp: a negative match score with at least one accepted answer gives a negative confidence (with none it is 0) |
| Matching.ConfidenceLevel | src/utils/quiz/QuizMapperSystem.js:290-294 | HIGH if and only if the score is at least 0.8; MEDIUM if and only if it is in [0.6, 0.8); LOW if and only if it is below 0.6 |
| Summary.FrequenciesAreTable | src/utils/quiz/QuizMapperSystem.js:303-306 | the frequency table has distinct keys; it has exactly the values that occur; each value is counted exactly as often as it occurs; keys are in order of first occurrence |
| Summary.FrequenciesSumToLength | src/utils/quiz/QuizMapperSystem.js:303-306 | the frequencies add up to the number of observed values |
| Summary.PrimaryIsLatestMode | src/utils/quiz/QuizMapperSystem.js:309-310 | the primary value occurs; no value occurs more often; among values tied at the maximum it is the one whose first occurrence is latest |
| Summary.SummarizeAttributes | src/utils/quiz/QuizMapperSystem.js:301-316 | every trait key is summarised, and no other key |
| QuizMapperSystem.DetailedReport | src/utils/quiz/QuizMapperSystem.js:266-283 | the report summarises exactly the analysis's trait keys, and its level is HIGH exactly from confidence 0.8 and LOW exactly below 0.6 |
| QuizMapperSystem.QuizAnalyzer.constructor | src/utils/quiz/QuizMapperSystem.js:61-66 | each configuration option that is not given falls back to its default: the default weights, the default catalog, no custom rules |
| QuizMapperSystem.QuizAnalyzer.ProcessAnswer | src/utils/quiz/QuizMapperSystem.js:115-131 | updating the analysis object in place leaves it in exactly the state `Accumulate.Step` describes |
| QuizMapperSystem.QuizAnalyzer.AddIndicatorsTo | src/utils/quiz/QuizMapperSystem.js:122-124 | each tag is added to the indicator set in order, skipping tags already present, so the set becomes `Accumulate.AddIndicators` of the old set; all other fields are unchanged |
| QuizMapperSystem.QuizAnalyzer.UpdateScores | src/utils/quiz/QuizMapperSystem.js:138-144 | each configured aspect grows by the answer's score for it; all other fields are unchanged |
| QuizMapperSystem.QuizAnalyzer.UpdateAttributes | src/utils/quiz/QuizMapperSystem.js:151-160 | each entry's value is pushed onto its key's list, which is created when absent; all other fields are unchanged |
| QuizMapperSystem.QuizAnalyzer.UpdateCategories | src/utils/quiz/QuizMapperSystem.js:167-172 | an answer with a category counts it once more; all other fields are unchanged |
| QuizMapperSystem.QuizAnalyzer.CalculateTypeMatch | src/utils/quiz/QuizMapperSystem.js:205-228 | the running score the three loops accumulate equals `Matching.TypeMatch`: passed-threshold weights + 0.3 × indicator overlap + rule bonuses |
| QuizMapperSystem.QuizAnalyzer.DetermineMainResult | src/utils/quiz/QuizMapperSystem.js:190-197 | scoring each entry with `CalculateTypeMatch` and reducing gives `Matching.MainResult` |
| QuizMapperSystem.QuizAnalyzer.AnalyzeResponses | src/utils/quiz/QuizMapperSystem.js:73-90 | processing the answers one by one into a fresh analysis object and building the report gives `QuizMapperSystem.Analyze` |
| QuizMapperSystem.AnalyzeFailsOnlyOnEmptyCatalog | src/utils/quiz/QuizMapperSystem.js:196 | analysis produces a report for every answer list exactly when the catalog is non-empty |
| QuizMapperSystem.AnalyzeUnfolded | src/utils/quiz/QuizMapperSystem.js:73-90 | the report is built from the folded state and its main result; the confidence is computed with no patterns over the accepted answers |
| QuizMapperSystem.ReportResult | src/utils/quiz/QuizMapperSystem.js:266-283 | the reported title and description are those of the last best-scoring entry; there are no secondary matches; the metadata version is "2.0" |
| QuizMapperSystem.ReportConfidence | src/utils/quiz/QuizMapperSystem.js:246-259 | the reported confidence is the main match score's confidence over the accepted answers; it is at most 1; its level is HIGH exactly from 0.8 |
| QuizMapperSystem.NoAcceptedAnswersNoConfidence | src/utils/quiz/QuizMapperSystem.js:255-258 | with no accepted answer the confidence is 0 and the level LOW |
| QuizMapperSystem.ReportTotals | src/utils/quiz/QuizMapperSystem.js:272-276 | the reported score of each configured aspect is the sum over the accepted answers; the reported indicators are exactly the accepted answers' tags, each once; each category count is the number of accepted answers with that category |
| QuizMapperSystem.ReportAttribute | src/utils/quiz/QuizMapperSystem.js:273 | each reported trait summary is the summary of that trait's values over the accepted answers, in answer order |
| QuizMapperSystem.DefaultAnalyserScenario | src/utils/quiz/QuizMapperSystem.js:28-55 | with the default weights and catalog, one answer scoring primary 0.8 and secondary 0.5 with `indicator1` gives "Type A Result" with confidence 0.85, level HIGH, and its trait value as primary |
| DetailedQuizPage.ProgressInRange | src/pages/DetailedQuizPage.jsx:161-167 | for a cursor on an existing question, 1 ≤ currentTotal ≤ totalQuestions, so progress is in (0, 100] |
| DetailedQuizPage.CurrentTotalWithinSection | src/pages/DetailedQuizPage.jsx:164-166 | currentTotal lies after the questions of the earlier sections and within the cursor's own section |
| DetailedQuizPage.TotalQuestionsMonotone | src/pages/DetailedQuizPage.jsx:161-163 | a longer prefix of sections never has fewer questions |
| DetailedQuizPage.CurrentTotalInjective | src/pages/DetailedQuizPage.jsx:164-166 | two different cursors on existing questions never have the same currentTotal |
| DetailedQuizPage.AdvanceMovesForward | src/pages/DetailedQuizPage.jsx:207-214 | answering moves to the question whose currentTotal is one higher, still on an existing question; the quiz completes exactly at the last question |
| DetailedQuizPage.BackMovesBackward | src/pages/DetailedQuizPage.jsx:219-230 | going back moves to the question whose currentTotal is one lower; at the first question nothing changes; the cursor stays on an existing question |
| DetailedQuizPage.BackUndoesAdvance | src/pages/DetailedQuizPage.jsx:207-226 | away from the last question, going back after advancing returns to the same cursor |
| DetailedQuizPage.AdvanceUndoesBack | src/pages/DetailedQuizPage.jsx:207-226 | away from the first question, advancing after going back returns to the same cursor |
| DetailedQuizPage.SlotsDistinct | src/pages/DetailedQuizPage.jsx:202 | with at most five questions per section, different cursors write different answer slots |
| DetailedQuizPage.SlotsCollide | src/pages/DetailedQuizPage.jsx:202 | a section with six or more questions followed by another section: its sixth question and the next section's first question share a slot |
| DetailedQuizPage.WithAnswer | src/pages/DetailedQuizPage.jsx:201-203 | the copy holds the answer at its slot; every other slot is unchanged; slots past the old end are empty |
| DetailedQuizPage.CorrectedSubmissionKeepsFinalAnswer | src/pages/DetailedQuizPage.jsx:201-213 | when the final answer has a value, the analyser keeps it among the accepted answers, wherever its slot is |
| DetailedQuizPage.QuizPage.constructor | src/pages/DetailedQuizPage.jsx:154-156 | the page starts on the first question with no answers |
| DetailedQuizPage.QuizPage.HandleAnswer | src/pages/DetailedQuizPage.jsx:198-217 | the answer is written to its slot; the cursor advances as `Advance` says; at the last question the cursor stays and the report of the answers including this one is the outcome; the cursor stays on an existing question |
| DetailedQuizPage.QuizPage.HandleBack | src/pages/DetailedQuizPage.jsx:219-230 | the cursor moves as `Back` says; the answers are unchanged; the cursor stays on an existing question |
| DetailedQuizPage.PracticalLeaderCapped | src/pages/DetailedQuizPage.jsx:135-143 | `practical_leader`'s thresholds name unconfigured aspects, so its match score is its indicator term alone, at most 0.3 |
| DetailedQuizPage.EmptyQuizReport | src/pages/DetailedQuizPage.jsx:118-145 | with no answers both result types score 0; the report names the later-listed "Practical Leader", with confidence 0 |
| DetailedQuizPage.FinalAnswerLostAsWritten | src/pages/DetailedQuizPage.jsx:177-178 | on the default quiz, the array analysed as written leaves out the final answer: the `academic` total is 0 where it should be 0.4 |

## Left out

- Report metadata. `generateAnalysisId` and the ISO timestamp depend on the clock and on `Math.random`. The timestamp and the identifier are parameters of `Analyze` and `AnalyzeResponses`.
- QuizAnalyzer.constructor: nothing in the source assigns `this.expectedResponses`. Every confidence it computes is therefore NaN, with level LOW. The model takes the expected number of answers as a positive constructor parameter instead.
- Matching.IndicatorTerm: for a definition with an empty indicator list the source divides 0 by 0, giving NaN. The model makes the term 0 there.
- `detectPatterns` and `findSecondaryResults` do nothing. Patterns and secondary matches are therefore always empty, and the ×1.1 pattern bonus never applies. `CalculateConfidence` still keeps the bonus branch.
- `thresholdModifiers` and `CONFIDENCE_THRESHOLDS.LOW` are never read.
- The default template's `attributes` and `categories` are never read, so they are not kept.
- Custom rules are total functions. A rule that throws, or that returns a non-numeric truthy value, is not modelled.
- Floating point is modelled as exact reals. Left out: IEEE rounding, NaN from non-numeric scores, the `toFixed` display and `generateRecommendations`.
- JavaScript lists integer-like object keys first. The model keeps first-occurrence order for the category and frequency keys.
- An answer's trait entries come from a JavaScript object, so their keys are distinct. The model also allows repeated keys.
- Non-string answer values are left out. So are truthiness tests on non-string values; for example, `value: 0` is modelled as `""`.
- The array holes that a slot write past the end leaves are modelled as absent answers. `forEach` skips holes and `processAnswer` skips absent answers, so the analysis is the same.
- React rendering and framer-motion animation are left out. So are the `setTimeout` delays, the `isAnimating` gate, the intro screen, `navigate` and the component's default parameters. Each handler is one atomic step; apart from the stale `answers` below, deferring it with a timer does not change the result.
- Back, QuizPage.HandleBack: a section with no questions is not modelled. Every section must have a question, because the source would otherwise set the question index to −1 or render no question.
- Progress: a quiz with no questions (a division by zero in the source) is not modelled.
- `src/pages/ContactPage.jsx`, `src/pages/HomePage.jsx` and `src/App.jsx` are not part of this model.

## Findings

| source | as written | input that shows it | evidently intended | confidence | as-written member | corrected member |
|---|---|---|---|---|---|---|
| src/pages/DetailedQuizPage.jsx:177-213 | On the last question, `handleAnswer`'s timer calls the `completeQuiz` of the same render. That closure still holds the `answers` from before `setAnswers(newAnswers)`, so the final answer is never analysed. | The default two-section quiz, answered "analytical" and then "practical": the array analysed is `[analytical]`, so the report's `academic` total is 0. | Analyse the array that includes the final answer: `[analytical, _, _, _, _, practical]`, with `academic` total 0.4. | high; not executed | DetailedQuizPage.SubmittedAsWritten, DetailedQuizPage.FinalAnswerLostAsWritten | DetailedQuizPage.SubmittedCorrected, DetailedQuizPage.CorrectedSubmissionKeepsFinalAnswer, DetailedQuizPage.QuizPage.HandleAnswer |
