/** `QuizAnalyzer` itself: the analysis object that one call of `analyzeResponses` creates
    and updates answer by answer, the analyser's methods that update it in place or read
    it, and the report. Every method is proved against the value-level definitions of
    `Accumulate`, `Matching` and `Summary`; the lemmas at the end state what a whole
    report says about the answers it was built from. */
module QuizMapperSystem {
  import opened QuizTypes
  import opened Reduce
  import opened Accumulate
  import opened Matching
  import opened Summary

  /** `DEFAULT_ASPECT_WEIGHTS`. */
  const DefaultAspectWeights: map<string, real> :=
    map["primary" := 0.4, "secondary" := 0.3, "tertiary" := 0.2, "context" := 0.1]

  /** `DEFAULT_RESULT_TYPES` (the template's `attributes` and `categories` entries are
      never read by the analyser and are not kept). */
  const DefaultResultTypes: seq<(string, ResultType)> :=
    [("typeA", ResultType("Type A Result", "Description for Type A",
                          [("primary", 0.7), ("secondary", 0.5)], ["indicator1", "indicator2"]))]

  /** The report format version written into every report's metadata. */
  const ReportVersion: string := "2.0"

  /** `generateDetailedReport`, with the timestamp and the analysis identifier supplied by
      the caller (the source reads the clock and a random generator for them). */
  function DetailedReport(st: AnalysisState, primary: Match, secondary: seq<Match>, confidence: real,
                          timestamp: string, analysisId: string): (r: Report)
    requires forall k | k in st.attributes :: st.attributes[k] != []
    ensures r.attributes.Keys == st.attributes.Keys
    ensures r.confidenceLevel == High <==> confidence >= HighThreshold
    ensures r.confidenceLevel == Low <==> confidence < MediumThreshold
  {
    Report(primary.definition.title, primary.definition.description, confidence, ConfidenceLevel(confidence),
           st.scores, SummarizeAttributes(st.attributes), st.categories, secondary, st.indicators,
           Metadata(timestamp, ReportVersion, analysisId))
  }

  /** What `analyzeResponses` returns for `answers`, as a value: fold the answers into a
      fresh analysis, pick the main result, derive the confidence and build the report
      (no secondary matches and no patterns: both hooks are empty in the source). `None`
      stands for the exception the main-result reduce throws on an empty catalog. */
  function Analyze(config: Config, expected: Positive, answers: seq<Option<Answer>>,
                   timestamp: string, analysisId: string): Option<Report>
  {
    var w := config.aspectWeights;
    InitialAnalysisWellFormed(w);
    var st := ProcessAll(w, InitialAnalysis(w), answers);
    match MainResult(config, st)
    case None => None
    case Some(primary) =>
      Some(DetailedReport(st, primary, [],
                          CalculateConfidence(primary.matchScore, |st.patterns|, |st.rawResponses|, expected),
                          timestamp, analysisId))
  }

  /** The analysis object: running aspect totals, the indicator set, the trait values,
      the category counts, the (always empty) patterns and the accepted answers. */
  class Analysis {
    var scores: map<string, real>
    var indicators: seq<string>
    var attributes: map<string, seq<string>>
    var categories: map<string, nat>
    var patterns: seq<string>
    var rawResponses: seq<Answer>

    function State(): AnalysisState
      reads this
    {
      AnalysisState(scores, indicators, attributes, categories, patterns, rawResponses)
    }

    /** `initializeAnalysis`: every configured aspect at 0, everything else empty. */
    constructor (weights: map<string, real>)
      ensures State() == InitialAnalysis(weights)
      ensures scores.Keys == weights.Keys && forall a | a in scores :: scores[a] == 0.0
      ensures indicators == [] && attributes == map[] && categories == map[]
      ensures patterns == [] && rawResponses == []
    {
      scores := map a | a in weights :: 0.0;
      indicators := [];
      attributes := map[];
      categories := map[];
      patterns := [];
      rawResponses := [];
    }
  }

  class QuizAnalyzer {
    const config: Config
    /** The number of answers a complete quiz has. The source reads
        `this.expectedResponses`, which nothing assigns; here it is given. */
    const expectedResponses: Positive

    /** `new QuizAnalyzer(config)`: each missing option falls back to its default. */
    constructor (aspectWeights: Option<map<string, real>>, resultTypes: Option<seq<(string, ResultType)>>,
                 customRules: Option<seq<Rule>>, expectedResponses: Positive)
      ensures config.aspectWeights == (if aspectWeights.Some? then aspectWeights.value else DefaultAspectWeights)
      ensures config.resultTypes == (if resultTypes.Some? then resultTypes.value else DefaultResultTypes)
      ensures config.customRules == (if customRules.Some? then customRules.value else [])
      ensures this.expectedResponses == expectedResponses
    {
      config := Config(
        if aspectWeights.Some? then aspectWeights.value else DefaultAspectWeights,
        if resultTypes.Some? then resultTypes.value else DefaultResultTypes,
        if customRules.Some? then customRules.value else []);
      this.expectedResponses := expectedResponses;
    }

    /** `processAnswer`: skip an absent answer or one without a value; otherwise record it,
        add its tags to the indicator set and apply the score, attribute and category
        updates, all in place. */
    method ProcessAnswer(answer: Option<Answer>, analysis: Analysis)
      requires config.aspectWeights.Keys <= analysis.scores.Keys
      modifies analysis
      ensures analysis.State() == Step(config.aspectWeights, old(analysis.State()), answer)
    {
      if answer.None? || answer.value.value == "" {
        return;
      }
      var a := answer.value;
      ghost var start := analysis.State();
      StepAccepted(config.aspectWeights, start, a);
      analysis.rawResponses := analysis.rawResponses + [a];
      AddIndicatorsTo(a.indicators, analysis);
      UpdateScores(a, analysis);
      UpdateAttributes(a, analysis);
      UpdateCategories(a, analysis);
    }

    /** The indicator loop of `processAnswer`: `analysis.indicators.add(tag)` for each tag,
        in order. */
    method AddIndicatorsTo(tags: seq<string>, analysis: Analysis)
      modifies analysis
      ensures analysis.State() == old(analysis.State()).(indicators := AddIndicators(old(analysis.indicators), tags))
    {
      ghost var before := analysis.State();
      for i := 0 to |tags|
        invariant analysis.State() == before.(indicators := AddIndicators(before.indicators, tags[..i]))
      {
        if tags[i] !in analysis.indicators {
          analysis.indicators := analysis.indicators + [tags[i]];
        }
        assert tags[..i + 1][..i] == tags[..i];
      }
      assert tags[..|tags|] == tags;
    }

    /** `updateScores`: each configured aspect the answer scores grows by that score. */
    method UpdateScores(answer: Answer, analysis: Analysis)
      requires config.aspectWeights.Keys <= analysis.scores.Keys
      modifies analysis
      ensures analysis.State() ==
        old(analysis.State()).(scores := UpdatedScores(config.aspectWeights, old(analysis.scores), answer))
    {
      var weights := config.aspectWeights;
      var scores := analysis.scores;
      var todo := weights.Keys;
      while todo != {}
        invariant todo <= weights.Keys
        invariant scores.Keys == analysis.scores.Keys
        invariant forall a | a in analysis.scores ::
          scores[a] == (if a in weights && a !in todo then analysis.scores[a] + Contribution(answer, a) else analysis.scores[a])
        decreases |todo|
      {
        var aspect :| aspect in todo;
        if aspect in answer.scores && answer.scores[aspect] != 0.0 {
          scores := scores[aspect := scores[aspect] + answer.scores[aspect]];
        }
        todo := todo - {aspect};
      }
      UpdatedScoresPointwise(weights, analysis.scores, answer, scores);
      analysis.scores := scores;
    }

    /** `updateAttributes`: each (key, value) entry appends `value` to `key`'s list,
        creating the list first when the key is new. */
    method UpdateAttributes(answer: Answer, analysis: Analysis)
      modifies analysis
      ensures analysis.State() ==
        old(analysis.State()).(attributes := AppendAttributes(old(analysis.attributes), answer.attributes))
    {
      ghost var before := analysis.State();
      var pairs := answer.attributes;
      for i := 0 to |pairs|
        invariant analysis.State() == before.(attributes := AppendAttributes(before.attributes, pairs[..i]))
      {
        var (key, value) := pairs[i];
        if key !in analysis.attributes {
          analysis.attributes := analysis.attributes[key := []];
        }
        analysis.attributes := analysis.attributes[key := analysis.attributes[key] + [value]];
        assert pairs[..i + 1][..i] == pairs[..i];
      }
      assert pairs[..|pairs|] == pairs;
    }

    /** `updateCategories`: an answer with a category counts it once more. */
    method UpdateCategories(answer: Answer, analysis: Analysis)
      modifies analysis
      ensures analysis.State() == old(analysis.State()).(categories :=
        if answer.category != "" then BumpCategory(old(analysis.categories), answer.category)
        else old(analysis.categories))
    {
      var c := answer.category;
      if c != "" {
        var n := if c in analysis.categories then analysis.categories[c] else 0;
        analysis.categories := analysis.categories[c := n + 1];
      }
    }

    /** `calculateTypeMatch`: the passed thresholds' weights, then the indicator overlap,
        then the custom rules' bonuses, accumulated in one running score. */
    method CalculateTypeMatch(analysis: Analysis, definition: ResultType) returns (matchScore: real)
      ensures matchScore == TypeMatch(config, analysis.State(), definition)
    {
      matchScore := 0.0;
      var thresholds := definition.thresholds;
      for i := 0 to |thresholds|
        invariant matchScore == ThresholdTerm(config.aspectWeights, analysis.scores, thresholds[..i])
      {
        var (aspect, threshold) := thresholds[i];
        if aspect in analysis.scores && aspect in config.aspectWeights && analysis.scores[aspect] >= threshold {
          matchScore := matchScore + config.aspectWeights[aspect];
        }
        assert thresholds[..i + 1][..i] == thresholds[..i];
      }
      assert thresholds[..|thresholds|] == thresholds;

      var wanted := definition.indicators;
      var hits := 0;
      for i := 0 to |wanted|
        invariant hits == HitCount(analysis.indicators, wanted[..i])
      {
        if wanted[i] in analysis.indicators {
          hits := hits + 1;
        }
        assert wanted[..i + 1][..i] == wanted[..i];
      }
      assert wanted[..|wanted|] == wanted;
      if |wanted| > 0 {
        matchScore := matchScore + (hits as real / |wanted| as real) * IndicatorWeight;
      }

      ghost var fixedPart := matchScore;
      var rules := config.customRules;
      for i := 0 to |rules|
        invariant matchScore == fixedPart + RuleTerm(rules[..i], analysis.State(), definition)
      {
        var bonus := rules[i](analysis.State(), definition);
        if bonus.Some? {
          matchScore := matchScore + bonus.value;
        }
        assert rules[..i + 1][..i] == rules[..i];
      }
      assert rules[..|rules|] == rules;
    }

    /** `determineMainResult`: score every catalog entry in order, then keep the best
        with the reduce. */
    method DetermineMainResult(analysis: Analysis) returns (primary: Option<Match>)
      ensures primary == MainResult(config, analysis.State())
    {
      var matches: seq<Match> := [];
      for i := 0 to |config.resultTypes|
        invariant matches == Matches(config, analysis.State())[..i]
      {
        var (key, definition) := config.resultTypes[i];
        var m := CalculateTypeMatch(analysis, definition);
        matches := matches + [Match(key, m, definition)];
      }
      assert matches == Matches(config, analysis.State());
      if matches == [] {
        return None;
      }
      primary := Some(ReduceBest(matches, MatchScore));
    }

    /** `analyzeResponses`: a fresh analysis, every answer processed in order, then the
        main result, the confidence and the report. */
    method AnalyzeResponses(answers: seq<Option<Answer>>, timestamp: string, analysisId: string)
      returns (report: Option<Report>)
      ensures report == Analyze(config, expectedResponses, answers, timestamp, analysisId)
    {
      var weights := config.aspectWeights;
      var analysis := new Analysis(weights);
      InitialAnalysisWellFormed(weights);
      for i := 0 to |answers|
        invariant analysis.State() == ProcessAll(weights, InitialAnalysis(weights), answers[..i])
        invariant WellFormed(weights, analysis.State())
      {
        ProcessAnswer(answers[i], analysis);
        assert answers[..i + 1][..i] == answers[..i];
      }
      assert answers[..|answers|] == answers;
      var primary := DetermineMainResult(analysis);
      if primary.None? {
        return None;
      }
      var confidence := CalculateConfidence(primary.value.matchScore, |analysis.patterns|,
                                            |analysis.rawResponses|, expectedResponses);
      report := Some(DetailedReport(analysis.State(), primary.value, [], confidence, timestamp, analysisId));
    }
  }

  // ---------------------------------------------------------------- what a report says

  /** The state `analyzeResponses` builds before it scores the catalog. */
  function Folded(config: Config, answers: seq<Option<Answer>>): AnalysisState {
    ProcessAll(config.aspectWeights, InitialAnalysis(config.aspectWeights), answers)
  }

  /** Analysis fails exactly when the result-type catalog is empty. */
  lemma AnalyzeFailsOnlyOnEmptyCatalog(config: Config, expected: Positive, answers: seq<Option<Answer>>,
                                       timestamp: string, analysisId: string)
    ensures Analyze(config, expected, answers, timestamp, analysisId).None? <==> config.resultTypes == []
  {
  }

  /** With a non-empty catalog, the report is built from the folded state, its main
      result, and a confidence computed without patterns over the accepted answers. */
  lemma AnalyzeUnfolded(config: Config, expected: Positive, answers: seq<Option<Answer>>,
                        timestamp: string, analysisId: string)
    requires config.resultTypes != []
    ensures WellFormed(config.aspectWeights, Folded(config, answers))
    ensures var st := Folded(config, answers);
      var primary := MainResult(config, st).value;
      Analyze(config, expected, answers, timestamp, analysisId) ==
        Some(DetailedReport(st, primary, [],
                            CalculateConfidence(primary.matchScore, 0, |AcceptedAnswers(answers)|, expected),
                            timestamp, analysisId))
  {
    var w := config.aspectWeights;
    InitialAnalysisWellFormed(w);
    ProcessAllRawResponses(w, InitialAnalysis(w), answers);
    assert InitialAnalysis(w).rawResponses == [];
  }

  /** The reported result is the catalog entry at the last index with the highest match
      score; there are no secondary matches and the metadata carries version "2.0". */
  lemma ReportResult(config: Config, expected: Positive, answers: seq<Option<Answer>>,
                     timestamp: string, analysisId: string) returns (k: nat)
    requires config.resultTypes != []
    ensures k < |config.resultTypes|
    ensures var r := Analyze(config, expected, answers, timestamp, analysisId);
      var st := Folded(config, answers);
      var best := TypeMatch(config, st, config.resultTypes[k].1);
      && r.Some?
      && r.value.resultType == config.resultTypes[k].1.title
      && r.value.description == config.resultTypes[k].1.description
      && (forall j | 0 <= j < |config.resultTypes| :: TypeMatch(config, st, config.resultTypes[j].1) <= best)
      && (forall j | k < j < |config.resultTypes| :: TypeMatch(config, st, config.resultTypes[j].1) < best)
      && r.value.secondaryMatches == []
      && r.value.metadata == Metadata(timestamp, "2.0", analysisId)
  {
    AnalyzeUnfolded(config, expected, answers, timestamp, analysisId);
    k := MainResultIsLastBest(config, Folded(config, answers));
  }

  /** The reported confidence is `calculateConfidence` of the main result's match score
      with no patterns over the accepted answers (by `Matching.ConfidenceWithoutPatterns`,
      that score scaled by the share of expected answers given, capped at 1); so it never
      exceeds 1, and its level is HIGH exactly from 0.8 up. */
  lemma ReportConfidence(config: Config, expected: Positive, answers: seq<Option<Answer>>,
                         timestamp: string, analysisId: string)
    requires config.resultTypes != []
    ensures var r := Analyze(config, expected, answers, timestamp, analysisId);
      var best := MainResult(config, Folded(config, answers)).value.matchScore;
      && r.Some?
      && r.value.confidenceScore == CalculateConfidence(best, 0, |AcceptedAnswers(answers)|, expected)
      && r.value.confidenceScore <= 1.0
      && (r.value.confidenceLevel == High <==> r.value.confidenceScore >= 0.8)
  {
    AnalyzeUnfolded(config, expected, answers, timestamp, analysisId);
  }

  /** With no accepted answer the completeness is 0, so the confidence is 0 (level LOW)
      whatever the match score. */
  lemma NoAcceptedAnswersNoConfidence(config: Config, expected: Positive, answers: seq<Option<Answer>>,
                                      timestamp: string, analysisId: string)
    requires config.resultTypes != [] && AcceptedAnswers(answers) == []
    ensures var r := Analyze(config, expected, answers, timestamp, analysisId);
      r.Some? && r.value.confidenceScore == 0.0 && r.value.confidenceLevel == Low
  {
    ReportConfidence(config, expected, answers, timestamp, analysisId);
    var best := MainResult(config, Folded(config, answers)).value.matchScore;
    ConfidenceWithoutPatterns(best, 0, expected);
  }

  /** The reported totals: each configured aspect's score is the sum of the accepted
      answers' scores for it; the reported indicators are exactly the accepted answers'
      tags, each once; every non-empty category is counted once per accepted answer
      carrying it. */
  lemma ReportTotals(config: Config, expected: Positive, answers: seq<Option<Answer>>,
                     timestamp: string, analysisId: string)
    requires config.resultTypes != []
    ensures var r := Analyze(config, expected, answers, timestamp, analysisId);
      var accepted := AcceptedAnswers(answers);
      && r.Some?
      && r.value.scores.Keys == config.aspectWeights.Keys
      && (forall a | a in config.aspectWeights :: r.value.scores[a] == TotalScore(accepted, a))
      && NoDuplicates(r.value.indicators)
      && (forall x :: x in r.value.indicators <==> Carries(accepted, x))
      && (forall c | c != "" :: CountOf(r.value.categories, c) == CategoryTally(accepted, c))
  {
    var w := config.aspectWeights;
    var init := InitialAnalysis(w);
    InitialAnalysisWellFormed(w);
    ProcessAllScores(w, init, answers);
    ProcessAllIndicators(w, init, answers);
    ProcessAllCategories(w, init, answers);
    var st := Folded(config, answers);
    forall a | a in w ensures st.scores[a] == TotalScore(AcceptedAnswers(answers), a) {
      assert init.scores[a] == 0.0;
    }
    forall c | c != "" ensures CountOf(st.categories, c) == CategoryTally(AcceptedAnswers(answers), c) {
      assert CountOf(init.categories, c) == 0;
    }
  }

  /** Each reported trait summary is the summary of that trait's values over the accepted
      answers, in answer order; so its frequencies count those values exactly and its
      primary value is their latest-first-seen mode (see `Summary.PrimaryIsLatestMode`). */
  lemma ReportAttribute(config: Config, expected: Positive, answers: seq<Option<Answer>>,
                        timestamp: string, analysisId: string, key: string)
    requires config.resultTypes != []
    requires key in Folded(config, answers).attributes
    ensures AttributeValues(AcceptedAnswers(answers), key) != []
    ensures Analyze(config, expected, answers, timestamp, analysisId).Some?
    ensures key in Analyze(config, expected, answers, timestamp, analysisId).value.attributes
    ensures Analyze(config, expected, answers, timestamp, analysisId).value.attributes[key] ==
      Summarize(AttributeValues(AcceptedAnswers(answers), key))
  {
    var w := config.aspectWeights;
    AnalyzeUnfolded(config, expected, answers, timestamp, analysisId);
    ProcessAllAttributes(w, InitialAnalysis(w), answers, key);
    var st := Folded(config, answers);
    assert st.attributes[key] == AttributeValues(AcceptedAnswers(answers), key);
  }

  // ---------------------------------------------------------------- the default analyser

  /** The default analyser with no custom rules. */
  const DefaultConfig: Config := Config(DefaultAspectWeights, DefaultResultTypes, [])

  /** A complete answer for the default catalog. */
  const DetailAnswer: Answer :=
    Answer("detail-oriented", ["indicator1"], map["primary" := 0.8, "secondary" := 0.5], [("focus", "detail")], "")

  lemma DetailAnswerFold()
    ensures var st := Folded(DefaultConfig, [Some(DetailAnswer)]);
      && "primary" in st.scores && "secondary" in st.scores
      && st.scores["primary"] == 0.8 && st.scores["secondary"] == 0.5
      && st.indicators == ["indicator1"]
      && "focus" in st.attributes && st.attributes["focus"] == ["detail"]
      && |st.rawResponses| == 1 && st.patterns == []
  {
    DetailAnswerFolded();
    DetailAnswerStep(Folded(DefaultConfig, [Some(DetailAnswer)]));
  }

  lemma DetailAnswerStep(st: AnalysisState)
    requires st == Step(DefaultAspectWeights, InitialAnalysis(DefaultAspectWeights), Some(DetailAnswer))
    ensures "primary" in st.scores && "secondary" in st.scores
    ensures st.scores["primary"] == 0.8 && st.scores["secondary"] == 0.5
    ensures st.indicators == ["indicator1"]
    ensures "focus" in st.attributes && st.attributes["focus"] == ["detail"]
    ensures |st.rawResponses| == 1 && st.patterns == []
  {
    DetailAnswerScore(st, "primary");
    assert Contribution(DetailAnswer, "primary") == 0.8;
    DetailAnswerScore(st, "secondary");
    assert Contribution(DetailAnswer, "secondary") == 0.5;
    DetailAnswerIndicators(st);
    DetailAnswerAttributes(st);
  }

  lemma DetailAnswerFolded()
    ensures Folded(DefaultConfig, [Some(DetailAnswer)]) ==
      Step(DefaultAspectWeights, InitialAnalysis(DefaultAspectWeights), Some(DetailAnswer))
  {
    var w := DefaultAspectWeights;
    assert [Some(DetailAnswer)][..0] == [];
    assert ProcessAll(w, InitialAnalysis(w), []) == InitialAnalysis(w);
  }

  lemma DetailAnswerScore(st: AnalysisState, aspect: string)
    requires st == Step(DefaultAspectWeights, InitialAnalysis(DefaultAspectWeights), Some(DetailAnswer))
    requires aspect in DefaultAspectWeights
    ensures aspect in st.scores && st.scores[aspect] == Contribution(DetailAnswer, aspect)
  {
    var init := InitialAnalysis(DefaultAspectWeights);
    assert Accepted(Some(DetailAnswer));
    assert aspect in init.scores;
    assert st.scores[aspect] == init.scores[aspect] + Contribution(DetailAnswer, aspect);
  }

  lemma DetailAnswerIndicators(st: AnalysisState)
    requires st == Step(DefaultAspectWeights, InitialAnalysis(DefaultAspectWeights), Some(DetailAnswer))
    ensures st.indicators == ["indicator1"]
  {
    assert ["indicator1"][..0] == [];
    assert st.indicators == AddIndicators([], ["indicator1"]);
  }

  lemma DetailAnswerAttributes(st: AnalysisState)
    requires st == Step(DefaultAspectWeights, InitialAnalysis(DefaultAspectWeights), Some(DetailAnswer))
    ensures "focus" in st.attributes && st.attributes["focus"] == ["detail"]
  {
    var pairs := DetailAnswer.attributes;
    assert Accepted(Some(DetailAnswer));
    assert Lookup(st.attributes, "focus") == Lookup(map[], "focus") + ValuesFor(pairs, "focus");
    assert pairs[..0] == [];
    assert ValuesFor(pairs, "focus") == ["detail"];
  }

  lemma DetailAnswerMatch()
    ensures TypeMatch(DefaultConfig, Folded(DefaultConfig, [Some(DetailAnswer)]), DefaultResultTypes[0].1) == 0.85
  {
    DetailAnswerFold();
    DetailStateMatch(Folded(DefaultConfig, [Some(DetailAnswer)]));
  }

  lemma DetailStateMatch(st: AnalysisState)
    requires "primary" in st.scores && "secondary" in st.scores
    requires st.scores["primary"] == 0.8 && st.scores["secondary"] == 0.5
    requires st.indicators == ["indicator1"]
    ensures TypeMatch(DefaultConfig, st, DefaultResultTypes[0].1) == 0.85
  {
    DetailAnswerThresholds(st.scores);
    DetailAnswerHits(st.indicators);
  }

  lemma DetailAnswerThresholds(scores: map<string, real>)
    requires "primary" in scores && "secondary" in scores
    requires scores["primary"] == 0.8 && scores["secondary"] == 0.5
    ensures ThresholdTerm(DefaultAspectWeights, scores, DefaultResultTypes[0].1.thresholds) == 0.7
  {
    var w := DefaultAspectWeights;
    var thresholds := DefaultResultTypes[0].1.thresholds;
    assert thresholds[..1][..0] == [];
    assert ThresholdTerm(w, scores, thresholds[..1]) == 0.4;
    assert thresholds[..2] == thresholds;
  }

  lemma DetailAnswerHits(present: seq<string>)
    requires present == ["indicator1"]
    ensures HitCount(present, DefaultResultTypes[0].1.indicators) == 1
  {
    var wanted := DefaultResultTypes[0].1.indicators;
    assert wanted[..1][..0] == [];
    assert HitCount(present, wanted[..1]) == 1;
    assert wanted[..2] == wanted;
  }

  /** The default catalog scored against one complete answer (with one answer expected):
      both thresholds pass (0.4 + 0.3) and half the indicators are present (0.15), so the
      type-A result is reported with confidence 0.85, level HIGH, and the answer's trait
      value as primary. */
  lemma DefaultAnalyserScenario()
    ensures var r := Analyze(DefaultConfig, 1, [Some(DetailAnswer)], "t", "id");
      && r.Some?
      && r.value.resultType == "Type A Result"
      && r.value.confidenceScore == 0.85
      && r.value.confidenceLevel == High
      && "focus" in r.value.attributes
      && r.value.attributes["focus"].primary == "detail"
  {
    DetailAnswerFold();
    DetailAnswerMainResult();
    assert CalculateConfidence(0.85, 0, 1, 1) == 0.85;
    AnalyzeUnfolded(DefaultConfig, 1, [Some(DetailAnswer)], "t", "id");
    DetailAnswerSummary();
  }

  lemma DetailAnswerMainResult()
    ensures MainResult(DefaultConfig, Folded(DefaultConfig, [Some(DetailAnswer)])) ==
      Some(Match("typeA", 0.85, DefaultResultTypes[0].1))
  {
    DetailAnswerMatch();
    var st := Folded(DefaultConfig, [Some(DetailAnswer)]);
    assert Matches(DefaultConfig, st) == [Match("typeA", 0.85, DefaultResultTypes[0].1)];
  }

  lemma DetailAnswerSummary()
    ensures Summarize(["detail"]).primary == "detail"
  {
    assert ["detail"][..0] == [];
    assert Frequencies(["detail"]) == [("detail", 1)];
  }
}
