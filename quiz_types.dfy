/** The values the response analyser works on: answers, result-type definitions,
    the analyser's configuration, the per-call analysis state and the report. */
module QuizTypes {

  datatype Option<+T> = None | Some(value: T)

  /** One selected quiz option. The source reads these fields through optional keys;
      here a missing list or map is empty, and a missing, empty or otherwise falsy
      `value` or `category` is the empty string. `attributes` keeps the order in
      which the option's trait entries are listed. */
  datatype Answer = Answer(
    value: string,
    indicators: seq<string>,
    scores: map<string, real>,
    attributes: seq<(string, string)>,
    category: string)

  /** A candidate outcome: `thresholds` lists (aspect, minimum) entries in
      declaration order, `indicators` the tags it expects to see. */
  datatype ResultType = ResultType(
    title: string,
    description: string,
    thresholds: seq<(string, real)>,
    indicators: seq<string>)

  /** The accumulator of one analysis: running aspect totals, the indicator set
      (without duplicates, in insertion order), the observed trait values per key,
      the category counts, the detected patterns and the accepted answers. */
  datatype AnalysisState = AnalysisState(
    scores: map<string, real>,
    indicators: seq<string>,
    attributes: map<string, seq<string>>,
    categories: map<string, nat>,
    patterns: seq<string>,
    rawResponses: seq<Answer>)

  /** A custom scoring rule; `None` stands for any falsy result (undefined, null, 0). */
  type Rule = (AnalysisState, ResultType) -> Option<real>

  datatype Config = Config(
    aspectWeights: map<string, real>,
    resultTypes: seq<(string, ResultType)>,
    customRules: seq<Rule>)

  /** A scored candidate: its catalog key, its match score and its definition. */
  datatype Match = Match(key: string, matchScore: real, definition: ResultType)

  datatype Level = High | Medium | Low

  /** The summary of one attribute key: the reported primary value and the
      frequency table in first-occurrence order. */
  datatype AttributeSummary = AttributeSummary(primary: string, frequencies: seq<(string, nat)>)

  datatype Metadata = Metadata(timestamp: string, version: string, analysisId: string)

  datatype Report = Report(
    resultType: string,
    description: string,
    confidenceScore: real,
    confidenceLevel: Level,
    scores: map<string, real>,
    attributes: map<string, AttributeSummary>,
    categories: map<string, nat>,
    secondaryMatches: seq<Match>,
    indicators: seq<string>,
    metadata: Metadata)

  type Positive = n: nat | n > 0 witness 1
}
