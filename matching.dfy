/** Scoring result types against an analysis (`calculateTypeMatch`), choosing the main
    result (`determineMainResult`), and the confidence value and level
    (`calculateConfidence`, `getConfidenceLevel`). */
module Matching {
  import opened QuizTypes
  import opened Reduce

  /** The factor applied to the indicator overlap ratio. */
  const IndicatorWeight: real := 0.3
  /** The factor applied when patterns were detected. */
  const PatternBonus: real := 1.1
  /** `CONFIDENCE_THRESHOLDS.HIGH` and `.MEDIUM` (`.LOW` is never read). */
  const HighThreshold: real := 0.8
  const MediumThreshold: real := 0.6

  // ---------------------------------------------------------------- match score

  /** The weight one (aspect, threshold) entry adds: the aspect's weight when its
      accumulated score reaches the threshold. An aspect with no score never passes
      (the source compares `undefined >= threshold`, which is false). */
  function ThresholdWeight(weights: map<string, real>, scores: map<string, real>, aspect: string, threshold: real): real {
    if aspect in scores && aspect in weights && scores[aspect] >= threshold then weights[aspect] else 0.0
  }

  /** The first loop of `calculateTypeMatch`: the weights of the passed thresholds. */
  function ThresholdTerm(weights: map<string, real>, scores: map<string, real>, thresholds: seq<(string, real)>): real {
    if thresholds == [] then 0.0
    else
      var (aspect, threshold) := thresholds[|thresholds| - 1];
      ThresholdTerm(weights, scores, thresholds[..|thresholds| - 1]) + ThresholdWeight(weights, scores, aspect, threshold)
  }

  /** `wanted.filter(indicator => present.has(indicator)).length`. */
  function HitCount(present: seq<string>, wanted: seq<string>): (n: nat)
    ensures n <= |wanted|
  {
    if wanted == [] then 0
    else HitCount(present, wanted[..|wanted| - 1]) + (if wanted[|wanted| - 1] in present then 1 else 0)
  }

  /** The indicator overlap ratio times 0.3. A definition with no indicators contributes
      0 here; the source divides 0 by 0 in that case. */
  function IndicatorTerm(present: seq<string>, wanted: seq<string>): (r: real)
    ensures 0.0 <= r <= IndicatorWeight
  {
    if |wanted| == 0 then 0.0
    else (HitCount(present, wanted) as real / |wanted| as real) * IndicatorWeight
  }

  /** `rule(analysis, definition) || 0`. */
  function RuleValue(v: Option<real>): real {
    if v.Some? then v.value else 0.0
  }

  /** The custom-rule loop of `calculateTypeMatch`, rules applied in order. */
  function RuleTerm(rules: seq<Rule>, st: AnalysisState, definition: ResultType): real {
    if rules == [] then 0.0
    else RuleTerm(rules[..|rules| - 1], st, definition) + RuleValue(rules[|rules| - 1](st, definition))
  }

  /** `calculateTypeMatch`: passed-threshold weights, plus the indicator term, plus the rule bonuses. */
  function TypeMatch(config: Config, st: AnalysisState, definition: ResultType): real {
    ThresholdTerm(config.aspectWeights, st.scores, definition.thresholds)
      + IndicatorTerm(st.indicators, definition.indicators)
      + RuleTerm(config.customRules, st, definition)
  }

  /** A threshold on an aspect that is not configured never contributes. */
  lemma {:induction false} UnconfiguredThresholdsNeverPass(weights: map<string, real>, scores: map<string, real>, thresholds: seq<(string, real)>)
    requires forall i | 0 <= i < |thresholds| :: thresholds[i].0 !in weights
    ensures ThresholdTerm(weights, scores, thresholds) == 0.0
  {
    if thresholds != [] {
      UnconfiguredThresholdsNeverPass(weights, scores, thresholds[..|thresholds| - 1]);
    }
  }

  /** A threshold on an aspect that is not configured adds nothing wherever it stands in
      the list: the term is the same with that entry removed. */
  lemma {:induction false} UnconfiguredThresholdSkipped(weights: map<string, real>, scores: map<string, real>,
                                                         thresholds: seq<(string, real)>, i: nat)
    requires i < |thresholds| && thresholds[i].0 !in weights
    ensures ThresholdTerm(weights, scores, thresholds) ==
      ThresholdTerm(weights, scores, thresholds[..i] + thresholds[i + 1..])
  {
    var n := |thresholds|;
    if i == n - 1 {
      assert thresholds[..i] + thresholds[i + 1..] == thresholds[..n - 1];
    } else {
      var init := thresholds[..n - 1];
      UnconfiguredThresholdSkipped(weights, scores, init, i);
      var rest := thresholds[..i] + thresholds[i + 1..];
      assert rest[..|rest| - 1] == init[..i] + init[i + 1..];
      assert rest[|rest| - 1] == thresholds[n - 1];
    }
  }

  predicate NonNegativeWeights(weights: map<string, real>) {
    forall a | a in weights :: weights[a] >= 0.0
  }

  /** Raising accumulated scores never lowers the threshold term (for non-negative weights),
      and the term is never negative. */
  lemma {:induction false} ThresholdTermMonotone(weights: map<string, real>, scores: map<string, real>, scores': map<string, real>, thresholds: seq<(string, real)>)
    requires NonNegativeWeights(weights)
    requires scores.Keys == scores'.Keys
    requires forall a | a in scores :: scores[a] <= scores'[a]
    ensures 0.0 <= ThresholdTerm(weights, scores, thresholds) <= ThresholdTerm(weights, scores', thresholds)
  {
    if thresholds != [] {
      ThresholdTermMonotone(weights, scores, scores', thresholds[..|thresholds| - 1]);
    }
  }

  /** Every indicator present gives the full 0.3; none present gives 0. */
  lemma {:induction false} IndicatorTermExtremes(present: seq<string>, wanted: seq<string>)
    ensures (forall i | 0 <= i < |wanted| :: wanted[i] in present) && wanted != [] ==> IndicatorTerm(present, wanted) == IndicatorWeight
    ensures (forall i | 0 <= i < |wanted| :: wanted[i] !in present) ==> IndicatorTerm(present, wanted) == 0.0
  {
    HitCountExtremes(present, wanted);
  }

  lemma {:induction false} HitCountExtremes(present: seq<string>, wanted: seq<string>)
    ensures (forall i | 0 <= i < |wanted| :: wanted[i] in present) ==> HitCount(present, wanted) == |wanted|
    ensures (forall i | 0 <= i < |wanted| :: wanted[i] !in present) ==> HitCount(present, wanted) == 0
  {
    if wanted != [] {
      var init := wanted[..|wanted| - 1];
      HitCountExtremes(present, init);
      assert forall i | 0 <= i < |init| :: init[i] == wanted[i];
    }
  }

  /** Without custom rules and with non-negative weights, a match score is never negative. */
  lemma TypeMatchNonNegative(config: Config, st: AnalysisState, definition: ResultType)
    requires NonNegativeWeights(config.aspectWeights) && config.customRules == []
    ensures TypeMatch(config, st, definition) >= 0.0
  {
    ThresholdTermMonotone(config.aspectWeights, st.scores, st.scores, definition.thresholds);
  }

  // ---------------------------------------------------------------- main result

  /** `Object.entries(this.resultTypes).map(...)`: every catalog entry with its match score. */
  function Matches(config: Config, st: AnalysisState): (ms: seq<Match>)
    ensures |ms| == |config.resultTypes|
    ensures forall i | 0 <= i < |ms| ::
      ms[i] == Match(config.resultTypes[i].0, TypeMatch(config, st, config.resultTypes[i].1), config.resultTypes[i].1)
  {
    seq(|config.resultTypes|, i requires 0 <= i < |config.resultTypes| =>
      Match(config.resultTypes[i].0, TypeMatch(config, st, config.resultTypes[i].1), config.resultTypes[i].1))
  }

  function MatchScore(m: Match): real {
    m.matchScore
  }

  /** `determineMainResult`: the reduce over the matches, which throws on an empty catalog
      (`None` here). */
  function MainResult(config: Config, st: AnalysisState): (r: Option<Match>)
    ensures r.None? <==> config.resultTypes == []
  {
    if config.resultTypes == [] then None
    else Some(ReduceBest(Matches(config, st), MatchScore))
  }

  /** The main result is the catalog entry at the LAST index whose match score is
      maximal: no entry scores higher, and every later entry scores strictly lower, so of
      two entries with equal scores the later-declared one is returned. */
  lemma MainResultIsLastBest(config: Config, st: AnalysisState) returns (k: nat)
    requires config.resultTypes != []
    ensures k < |config.resultTypes|
    ensures MainResult(config, st) ==
      Some(Match(config.resultTypes[k].0, TypeMatch(config, st, config.resultTypes[k].1), config.resultTypes[k].1))
    ensures forall j | 0 <= j < |config.resultTypes| ::
      TypeMatch(config, st, config.resultTypes[j].1) <= TypeMatch(config, st, config.resultTypes[k].1)
    ensures forall j | k < j < |config.resultTypes| ::
      TypeMatch(config, st, config.resultTypes[j].1) < TypeMatch(config, st, config.resultTypes[k].1)
  {
    var ms := Matches(config, st);
    k := ReduceBestIsLastMaximum(ms, MatchScore);
  }

  // ---------------------------------------------------------------- confidence

  /** The share of the expected answers that were given. */
  function Completeness(responseCount: nat, expected: Positive): real {
    responseCount as real / expected as real
  }

  /** `calculateConfidence`: the match score, times 1.1 when patterns were detected,
      times the completeness ratio, capped at 1 (there is no lower cap). */
  function CalculateConfidence(matchScore: real, patternCount: nat, responseCount: nat, expected: Positive): (r: real)
    ensures r <= 1.0
    ensures matchScore >= 0.0 ==> r >= 0.0
  {
    var adjusted := if patternCount > 0 then matchScore * PatternBonus else matchScore;
    var confidence := adjusted * Completeness(responseCount, expected);
    if confidence < 1.0 then confidence else 1.0
  }

  /** With no patterns and at most the expected number of responses, confidence never
      exceeds the match score; with exactly the expected number it equals the match score
      capped at 1. */
  lemma ConfidenceFromCompleteness(matchScore: real, responseCount: nat, expected: Positive)
    requires matchScore >= 0.0 && responseCount <= expected
    ensures CalculateConfidence(matchScore, 0, responseCount, expected) <= matchScore
    ensures responseCount == expected ==>
      CalculateConfidence(matchScore, 0, responseCount, expected) == (if matchScore < 1.0 then matchScore else 1.0)
  {
    var ratio := Completeness(responseCount, expected);
    assert ratio <= 1.0;
    assert matchScore * ratio <= matchScore * 1.0;
  }

  function Min(a: real, b: real): real {
    if a < b then a else b
  }

  /** Without patterns, confidence is the match score times the completeness ratio,
      capped at 1 above and not bounded below. */
  lemma ConfidenceWithoutPatterns(matchScore: real, responseCount: nat, expected: Positive)
    ensures CalculateConfidence(matchScore, 0, responseCount, expected) ==
      Min(matchScore * Completeness(responseCount, expected), 1.0)
  {
  }

  /** There is no lower clamp: a negative match score (a custom rule can produce one)
      gives a negative confidence as soon as at least one answer was accepted. */
  lemma NegativeMatchGivesNegativeConfidence(matchScore: real, responseCount: nat, expected: Positive)
    requires matchScore < 0.0 && responseCount > 0
    ensures CalculateConfidence(matchScore, 0, responseCount, expected) < 0.0
  {
    assert Completeness(responseCount, expected) > 0.0;
  }

  /** `getConfidenceLevel`. */
  function ConfidenceLevel(score: real): (l: Level)
    ensures l == High <==> score >= HighThreshold
    ensures l == Medium <==> MediumThreshold <= score < HighThreshold
    ensures l == Low <==> score < MediumThreshold
  {
    if score >= HighThreshold then High
    else if score >= MediumThreshold then Medium
    else Low
  }
}
