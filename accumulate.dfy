/** The per-answer accumulation of `QuizAnalyzer` (`initializeAnalysis`, `processAnswer`,
    `updateScores`, `updateAttributes`, `updateCategories`) stated on values. The class
    `QuizMapperSystem.Analysis` updates its fields in place and is proved against these
    functions; the lemmas at the end relate the fold over a whole answer list to
    independent per-answer totals. */
module Accumulate {
  import opened QuizTypes

  /** `if (!answer || !answer.value) return;`: an absent answer or a falsy value is skipped. */
  predicate Accepted(answer: Option<Answer>) {
    answer.Some? && answer.value.value != ""
  }

  /** The state `initializeAnalysis` creates: every configured aspect at 0, all else empty. */
  function InitialAnalysis(weights: map<string, real>): AnalysisState {
    AnalysisState(map a | a in weights :: 0.0, [], map[], map[], [], [])
  }

  predicate NoDuplicates(s: seq<string>) {
    forall i, j | 0 <= i < j < |s| :: s[i] != s[j]
  }

  /** What holds of every state the analyser builds: the score keys are exactly the
      configured aspects, the indicator set has no duplicates, every attribute list
      is non-empty, every category count is positive, and no pattern is recorded
      (pattern detection is a no-op in the source). */
  predicate WellFormed(weights: map<string, real>, st: AnalysisState) {
    && st.scores.Keys == weights.Keys
    && NoDuplicates(st.indicators)
    && (forall k | k in st.attributes :: st.attributes[k] != [])
    && (forall c | c in st.categories :: st.categories[c] > 0)
    && st.patterns == []
  }

  lemma InitialAnalysisWellFormed(weights: map<string, real>)
    ensures WellFormed(weights, InitialAnalysis(weights))
  {
  }

  // ---------------------------------------------------------------- indicators

  /** `Set.prototype.add`: a new tag goes to the end, a known one changes nothing. */
  function AddIndicator(ind: seq<string>, x: string): seq<string> {
    if x in ind then ind else ind + [x]
  }

  /** `answer.indicators.forEach(indicator => analysis.indicators.add(indicator))`. */
  function AddIndicators(ind: seq<string>, xs: seq<string>): (r: seq<string>)
    ensures |ind| <= |r| && r[..|ind|] == ind
    ensures forall x :: x in r <==> x in ind || x in xs
    ensures NoDuplicates(ind) ==> NoDuplicates(r)
  {
    if xs == [] then ind
    else AddIndicator(AddIndicators(ind, xs[..|xs| - 1]), xs[|xs| - 1])
  }

  // ---------------------------------------------------------------- scores

  /** What an answer adds to one aspect: its own score, or nothing when it has none
      (a zero score is skipped by the source's truthiness test, which adds nothing too). */
  function Contribution(answer: Answer, aspect: string): real {
    if aspect in answer.scores then answer.scores[aspect] else 0.0
  }

  /** `updateScores`: every configured aspect's total grows by the answer's contribution. */
  function UpdatedScores(weights: map<string, real>, scores: map<string, real>, answer: Answer): map<string, real> {
    map a | a in scores :: if a in weights then scores[a] + Contribution(answer, a) else scores[a]
  }

  /** A score map that agrees with `UpdatedScores` on every aspect is `UpdatedScores`. */
  lemma UpdatedScoresPointwise(weights: map<string, real>, scores: map<string, real>, answer: Answer, r: map<string, real>)
    requires r.Keys == scores.Keys
    requires forall a | a in scores :: r[a] == (if a in weights then scores[a] + Contribution(answer, a) else scores[a])
    ensures r == UpdatedScores(weights, scores, answer)
  {
  }

  // ---------------------------------------------------------------- attributes

  function Lookup(attrs: map<string, seq<string>>, key: string): seq<string> {
    if key in attrs then attrs[key] else []
  }

  /** One step of `updateAttributes`: create the list if absent, then push the value. */
  function PushAttribute(attrs: map<string, seq<string>>, key: string, value: string): map<string, seq<string>> {
    attrs[key := Lookup(attrs, key) + [value]]
  }

  function PairKeys(pairs: seq<(string, string)>): set<string> {
    set i | 0 <= i < |pairs| :: pairs[i].0
  }

  /** The values listed under `key` in an answer's attribute entries, in order. */
  function ValuesFor(pairs: seq<(string, string)>, key: string): seq<string> {
    if pairs == [] then []
    else ValuesFor(pairs[..|pairs| - 1], key) + (if pairs[|pairs| - 1].0 == key then [pairs[|pairs| - 1].1] else [])
  }

  /** `updateAttributes`: push every entry's value onto its key's list, in entry order. */
  function AppendAttributes(attrs: map<string, seq<string>>, pairs: seq<(string, string)>): map<string, seq<string>> {
    if pairs == [] then attrs
    else PushAttribute(AppendAttributes(attrs, pairs[..|pairs| - 1]), pairs[|pairs| - 1].0, pairs[|pairs| - 1].1)
  }

  /** After `updateAttributes` the keys are the old keys plus the answer's keys; each
      key's list is its old list (or a new empty one) followed by the answer's values for
      that key, so keys the answer does not mention keep their lists; and no list is empty. */
  lemma {:induction false} AppendAttributesSpec(attrs: map<string, seq<string>>, pairs: seq<(string, string)>)
    ensures AppendAttributes(attrs, pairs).Keys == attrs.Keys + PairKeys(pairs)
    ensures forall k :: Lookup(AppendAttributes(attrs, pairs), k) == Lookup(attrs, k) + ValuesFor(pairs, k)
    ensures (forall k | k in attrs :: attrs[k] != []) ==>
      (forall k | k in AppendAttributes(attrs, pairs) :: AppendAttributes(attrs, pairs)[k] != [])
  {
    if pairs != [] {
      var init, last := pairs[..|pairs| - 1], pairs[|pairs| - 1];
      var r0 := AppendAttributes(attrs, init);
      var r := AppendAttributes(attrs, pairs);
      AppendAttributesSpec(attrs, init);
      assert r == PushAttribute(r0, last.0, last.1);
      assert init + [last] == pairs;
      PairKeysSnoc(init, last);
      PushAttributeLookups(attrs, init, last, r0, r);
      PushAttributeNonEmpty(r0, last, r);
    }
  }

  /** The lists after pushing one more entry, in terms of the entries so far. */
  lemma PushAttributeLookups(attrs: map<string, seq<string>>, init: seq<(string, string)>, last: (string, string),
                             r0: map<string, seq<string>>, r: map<string, seq<string>>)
    requires forall k :: Lookup(r0, k) == Lookup(attrs, k) + ValuesFor(init, k)
    requires r == PushAttribute(r0, last.0, last.1)
    ensures forall k :: Lookup(r, k) == Lookup(attrs, k) + ValuesFor(init + [last], k)
  {
    forall k ensures Lookup(r, k) == Lookup(attrs, k) + ValuesFor(init + [last], k) {
      PushAttributeLookupAt(attrs, init, last, r0, k);
    }
  }

  lemma PushAttributeLookupAt(attrs: map<string, seq<string>>, init: seq<(string, string)>, last: (string, string),
                              r0: map<string, seq<string>>, k: string)
    requires Lookup(r0, k) == Lookup(attrs, k) + ValuesFor(init, k)
    ensures Lookup(PushAttribute(r0, last.0, last.1), k) == Lookup(attrs, k) + ValuesFor(init + [last], k)
  {
    ValuesForSnoc(init, last, k);
    PushAttributeLookup(r0, last.0, last.1, k);
    var here := if k == last.0 then [last.1] else [];
    assert (Lookup(attrs, k) + ValuesFor(init, k)) + here == Lookup(attrs, k) + (ValuesFor(init, k) + here);
  }

  /** Pushing a value never leaves an empty list behind. */
  lemma PushAttributeNonEmpty(r0: map<string, seq<string>>, last: (string, string), r: map<string, seq<string>>)
    requires r == PushAttribute(r0, last.0, last.1)
    ensures (forall k | k in r0 :: r0[k] != []) ==> (forall k | k in r :: r[k] != [])
  {
  }

  lemma ValuesForSnoc(init: seq<(string, string)>, last: (string, string), k: string)
    ensures ValuesFor(init + [last], k) == ValuesFor(init, k) + (if k == last.0 then [last.1] else [])
  {
    assert (init + [last])[..|init|] == init;
  }

  lemma PushAttributeLookup(attrs: map<string, seq<string>>, key: string, value: string, k: string)
    ensures Lookup(PushAttribute(attrs, key, value), k) == Lookup(attrs, k) + (if k == key then [value] else [])
  {
  }

  lemma PairKeysSnoc(init: seq<(string, string)>, last: (string, string))
    ensures PairKeys(init + [last]) == PairKeys(init) + {last.0}
  {
    var pairs := init + [last];
    forall x | x in PairKeys(pairs) ensures x in PairKeys(init) + {last.0} {
      var i :| 0 <= i < |pairs| && pairs[i].0 == x;
      if i < |init| { assert init[i] == pairs[i]; }
    }
    assert pairs[|init|].0 == last.0;
    forall x | x in PairKeys(init) ensures x in PairKeys(pairs) {
      var i :| 0 <= i < |init| && init[i].0 == x;
      assert pairs[i] == init[i];
    }
  }

  // ---------------------------------------------------------------- categories

  function CountOf(cats: map<string, nat>, c: string): nat {
    if c in cats then cats[c] else 0
  }

  /** `updateCategories`: `categories[c] = (categories[c] || 0) + 1`. */
  function BumpCategory(cats: map<string, nat>, c: string): map<string, nat> {
    cats[c := CountOf(cats, c) + 1]
  }

  // ---------------------------------------------------------------- one answer

  /** `processAnswer`: a skipped answer leaves the state as it is; an accepted one is
      appended to the raw responses, its tags join the indicator set, its scores are
      added to the configured aspects, its attribute values are appended and its
      category (when set) is counted once. */
  function Step(weights: map<string, real>, st: AnalysisState, answer: Option<Answer>): (r: AnalysisState)
    ensures !Accepted(answer) ==> r == st
    ensures Accepted(answer) ==> r.rawResponses == st.rawResponses + [answer.value]
    ensures forall x :: x in r.indicators <==> x in st.indicators || (Accepted(answer) && x in answer.value.indicators)
    ensures |st.indicators| <= |r.indicators| && r.indicators[..|st.indicators|] == st.indicators
    ensures r.scores.Keys == st.scores.Keys
    ensures forall a | a in st.scores ::
      r.scores[a] == st.scores[a] + (if Accepted(answer) && a in weights then Contribution(answer.value, a) else 0.0)
    ensures forall k :: Lookup(r.attributes, k) == Lookup(st.attributes, k) + (if Accepted(answer) then ValuesFor(answer.value.attributes, k) else [])
    ensures forall c ::
      CountOf(r.categories, c) == CountOf(st.categories, c) + (if Accepted(answer) && c != "" && c == answer.value.category then 1 else 0)
    ensures r.patterns == st.patterns
    ensures WellFormed(weights, st) ==> WellFormed(weights, r)
  {
    if !Accepted(answer) then st
    else
      var a := answer.value;
      AppendAttributesSpec(st.attributes, a.attributes);
      st.(rawResponses := st.rawResponses + [a],
          indicators := AddIndicators(st.indicators, a.indicators),
          scores := UpdatedScores(weights, st.scores, a),
          attributes := AppendAttributes(st.attributes, a.attributes),
          categories := if a.category != "" then BumpCategory(st.categories, a.category) else st.categories)
  }

  /** One accepted answer, field by field: the order in which `processAnswer` applies its
      updates to the analysis object. */
  lemma StepAccepted(weights: map<string, real>, st: AnalysisState, a: Answer)
    requires a.value != ""
    ensures Step(weights, st, Some(a)) ==
      st.(rawResponses := st.rawResponses + [a],
          indicators := AddIndicators(st.indicators, a.indicators),
          scores := UpdatedScores(weights, st.scores, a),
          attributes := AppendAttributes(st.attributes, a.attributes),
          categories := if a.category != "" then BumpCategory(st.categories, a.category) else st.categories)
  {
  }

  /** `answers.forEach(answer => this.processAnswer(answer, analysis))`. */
  function ProcessAll(weights: map<string, real>, st: AnalysisState, answers: seq<Option<Answer>>): (r: AnalysisState)
    ensures WellFormed(weights, st) ==> WellFormed(weights, r)
  {
    if answers == [] then st
    else Step(weights, ProcessAll(weights, st, answers[..|answers| - 1]), answers[|answers| - 1])
  }

  // ---------------------------------------------------------------- reference totals

  /** The answers `processAnswer` does not skip, in input order. */
  function AcceptedAnswers(answers: seq<Option<Answer>>): seq<Answer> {
    if answers == [] then []
    else
      var last := answers[|answers| - 1];
      AcceptedAnswers(answers[..|answers| - 1]) + (if Accepted(last) then [last.value] else [])
  }

  /** The sum of the answers' contributions to one aspect. */
  function TotalScore(answers: seq<Answer>, aspect: string): real {
    if answers == [] then 0.0
    else TotalScore(answers[..|answers| - 1], aspect) + Contribution(answers[|answers| - 1], aspect)
  }

  /** Whether any of the answers carries tag `x`. */
  predicate Carries(answers: seq<Answer>, x: string) {
    if answers == [] then false
    else Carries(answers[..|answers| - 1], x) || x in answers[|answers| - 1].indicators
  }

  /** How many of the answers carry the (non-empty) category `c`. */
  function CategoryTally(answers: seq<Answer>, c: string): nat {
    if answers == [] then 0
    else CategoryTally(answers[..|answers| - 1], c) + (if c != "" && answers[|answers| - 1].category == c then 1 else 0)
  }

  /** The values the answers give for trait `key`, answer by answer and entry by entry. */
  function AttributeValues(answers: seq<Answer>, key: string): seq<string> {
    if answers == [] then []
    else AttributeValues(answers[..|answers| - 1], key) + ValuesFor(answers[|answers| - 1].attributes, key)
  }

  /** Folding a list of answers keeps exactly the accepted ones, in order, as raw responses. */
  lemma {:induction false} ProcessAllRawResponses(weights: map<string, real>, st: AnalysisState, answers: seq<Option<Answer>>)
    ensures ProcessAll(weights, st, answers).rawResponses == st.rawResponses + AcceptedAnswers(answers)
  {
    if answers != [] {
      ProcessAllRawResponses(weights, st, answers[..|answers| - 1]);
    }
  }

  /** Each configured aspect's total is its starting value plus the sum of the accepted
      answers' contributions; aspects outside the configuration never move. */
  lemma {:induction false} ProcessAllScores(weights: map<string, real>, st: AnalysisState, answers: seq<Option<Answer>>)
    ensures ProcessAll(weights, st, answers).scores.Keys == st.scores.Keys
    ensures forall a | a in st.scores ::
      ProcessAll(weights, st, answers).scores[a] ==
        st.scores[a] + (if a in weights then TotalScore(AcceptedAnswers(answers), a) else 0.0)
  {
    if answers != [] {
      var init, last := answers[..|answers| - 1], answers[|answers| - 1];
      ProcessAllScores(weights, st, init);
      var r0, acc := ProcessAll(weights, st, init), AcceptedAnswers(init);
      assert ProcessAll(weights, st, answers) == Step(weights, r0, last);
      if Accepted(last) {
        var acc' := acc + [last.value];
        assert AcceptedAnswers(answers) == acc';
        assert acc'[..|acc|] == acc;
        forall a | a in st.scores && a in weights
          ensures ProcessAll(weights, st, answers).scores[a] == st.scores[a] + TotalScore(acc', a)
        {
          assert TotalScore(acc', a) == TotalScore(acc, a) + Contribution(last.value, a);
          assert r0.scores[a] == st.scores[a] + TotalScore(acc, a);
        }
      } else {
        assert AcceptedAnswers(answers) == acc;
      }
    }
  }

  /** The indicator set is the starting set together with every accepted answer's tags. */
  lemma {:induction false} ProcessAllIndicators(weights: map<string, real>, st: AnalysisState, answers: seq<Option<Answer>>)
    ensures forall x :: x in ProcessAll(weights, st, answers).indicators <==>
      x in st.indicators || Carries(AcceptedAnswers(answers), x)
  {
    if answers != [] {
      var init, last := answers[..|answers| - 1], answers[|answers| - 1];
      ProcessAllIndicators(weights, st, init);
      var r0, acc := ProcessAll(weights, st, init), AcceptedAnswers(init);
      assert ProcessAll(weights, st, answers) == Step(weights, r0, last);
      if Accepted(last) {
        var acc' := acc + [last.value];
        assert AcceptedAnswers(answers) == acc';
        assert acc'[..|acc|] == acc;
        forall x ensures x in ProcessAll(weights, st, answers).indicators <==> x in st.indicators || Carries(acc', x) {
          assert Carries(acc', x) == (Carries(acc, x) || x in last.value.indicators);
        }
      } else {
        assert AcceptedAnswers(answers) == acc;
      }
    }
  }

  /** Each non-empty category is counted once per accepted answer that carries it. */
  lemma {:induction false} ProcessAllCategories(weights: map<string, real>, st: AnalysisState, answers: seq<Option<Answer>>)
    ensures forall c | c != "" ::
      CountOf(ProcessAll(weights, st, answers).categories, c) == CountOf(st.categories, c) + CategoryTally(AcceptedAnswers(answers), c)
  {
    if answers != [] {
      var init, last := answers[..|answers| - 1], answers[|answers| - 1];
      ProcessAllCategories(weights, st, init);
      var r0, acc := ProcessAll(weights, st, init), AcceptedAnswers(init);
      assert ProcessAll(weights, st, answers) == Step(weights, r0, last);
      if Accepted(last) {
        var acc' := acc + [last.value];
        assert AcceptedAnswers(answers) == acc';
        assert acc'[..|acc|] == acc;
        forall c | c != ""
          ensures CountOf(ProcessAll(weights, st, answers).categories, c) == CountOf(st.categories, c) + CategoryTally(acc', c)
        {
          assert CategoryTally(acc', c) == CategoryTally(acc, c) + (if last.value.category == c then 1 else 0);
          assert CountOf(r0.categories, c) == CountOf(st.categories, c) + CategoryTally(acc, c);
        }
      } else {
        assert AcceptedAnswers(answers) == acc;
      }
    }
  }

  /** Each trait key's list is its starting list followed by the accepted answers'
      values for that key, in input order (the order the primary value's tie rule sees). */
  lemma {:induction false} ProcessAllAttributes(weights: map<string, real>, st: AnalysisState, answers: seq<Option<Answer>>, key: string)
    ensures Lookup(ProcessAll(weights, st, answers).attributes, key) == Lookup(st.attributes, key) + AttributeValues(AcceptedAnswers(answers), key)
  {
    if answers != [] {
      var init, last := answers[..|answers| - 1], answers[|answers| - 1];
      ProcessAllAttributes(weights, st, init, key);
      var r0, acc := ProcessAll(weights, st, init), AcceptedAnswers(init);
      assert ProcessAll(weights, st, answers) == Step(weights, r0, last);
      if Accepted(last) {
        var acc' := acc + [last.value];
        assert AcceptedAnswers(answers) == acc';
        assert acc'[..|acc|] == acc;
        var before, here := AttributeValues(acc, key), ValuesFor(last.value.attributes, key);
        assert AttributeValues(acc', key) == before + here;
        assert (Lookup(st.attributes, key) + before) + here == Lookup(st.attributes, key) + (before + here);
      } else {
        assert AcceptedAnswers(answers) == acc;
      }
    }
  }
}
