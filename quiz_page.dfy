/** The quiz wizard of `DetailedQuizPage`: the progress arithmetic, the cursor over
    (section, question) that `handleAnswer` advances and `handleBack` steps back, the
    answer slot each answer is written to, and the analyser configuration the page uses.
    Rendering, animation and timers are not modelled; the page's state transitions are
    the methods of `QuizPage`. */
module DetailedQuizPage {
  import opened QuizTypes
  import opened Accumulate
  import opened Matching
  import opened QuizMapperSystem

  datatype Question = Question(text: string, options: seq<Answer>)

  datatype Section = Section(title: string, questions: seq<Question>)

  /** A position in the quiz: a section index and a question index within it. */
  datatype Cursor = Cursor(section: nat, question: nat)

  // ---------------------------------------------------------------- progress

  /** `totalQuestions`: `sections.reduce((acc, section) => acc + section.questions.length, 0)`. */
  function TotalQuestions(sections: seq<Section>): nat {
    if sections == [] then 0
    else TotalQuestions(sections[..|sections| - 1]) + |sections[|sections| - 1].questions|
  }

  /** `currentTotal`: the questions of the sections before the cursor's (`slice` clamps
      at the end), plus the question index, plus one. */
  function CurrentTotal(sections: seq<Section>, c: Cursor): nat {
    TotalQuestions(sections[..if c.section <= |sections| then c.section else |sections|]) + c.question + 1
  }

  /** `progress`, in percent. */
  function Progress(sections: seq<Section>, c: Cursor): real
    requires TotalQuestions(sections) > 0
  {
    (CurrentTotal(sections, c) as real / TotalQuestions(sections) as real) * 100.0
  }

  predicate InRange(sections: seq<Section>, c: Cursor) {
    c.section < |sections| && c.question < |sections[c.section].questions|
  }

  predicate NoEmptySection(sections: seq<Section>) {
    forall i | 0 <= i < |sections| :: sections[i].questions != []
  }

  lemma TotalQuestionsStep(sections: seq<Section>, i: nat)
    requires i < |sections|
    ensures TotalQuestions(sections[..i + 1]) == TotalQuestions(sections[..i]) + |sections[i].questions|
  {
    assert sections[..i + 1][..i] == sections[..i];
  }

  lemma {:induction false} TotalQuestionsMonotone(sections: seq<Section>, i: nat, j: nat)
    requires i <= j <= |sections|
    ensures TotalQuestions(sections[..i]) <= TotalQuestions(sections[..j])
  {
    if i < j {
      TotalQuestionsMonotone(sections, i, j - 1);
      TotalQuestionsStep(sections, j - 1);
    }
  }

  /** An in-range cursor's running number lies between the questions before its section
      (exclusive) and the questions up to and including its section. */
  lemma CurrentTotalWithinSection(sections: seq<Section>, c: Cursor)
    requires InRange(sections, c)
    ensures TotalQuestions(sections[..c.section]) < CurrentTotal(sections, c) <= TotalQuestions(sections[..c.section + 1])
  {
    TotalQuestionsStep(sections, c.section);
  }

  /** For an in-range cursor, `currentTotal` is between 1 and `totalQuestions`, so the
      progress is above 0 and at most 100 percent. */
  lemma ProgressInRange(sections: seq<Section>, c: Cursor)
    requires InRange(sections, c)
    ensures 1 <= CurrentTotal(sections, c) <= TotalQuestions(sections)
    ensures TotalQuestions(sections) > 0 && 0.0 < Progress(sections, c) <= 100.0
  {
    CurrentTotalWithinSection(sections, c);
    TotalQuestionsMonotone(sections, c.section + 1, |sections|);
    assert sections[..|sections|] == sections;
    PercentInRange(CurrentTotal(sections, c), TotalQuestions(sections));
  }

  lemma PercentInRange(n: nat, t: nat)
    requires 1 <= n <= t
    ensures 0.0 < (n as real / t as real) * 100.0 <= 100.0
  {
    var x, y := n as real, t as real;
    assert x / y * y == x;
    assert x / y <= 1.0;
  }

  /** Different in-range cursors have different running numbers: `currentTotal` numbers
      the questions in reading order. */
  lemma CurrentTotalInjective(sections: seq<Section>, c1: Cursor, c2: Cursor)
    requires InRange(sections, c1) && InRange(sections, c2)
    requires CurrentTotal(sections, c1) == CurrentTotal(sections, c2)
    ensures c1 == c2
  {
    CurrentTotalWithinSection(sections, c1);
    CurrentTotalWithinSection(sections, c2);
    if c1.section < c2.section {
      TotalQuestionsMonotone(sections, c1.section + 1, c2.section);
    } else if c2.section < c1.section {
      TotalQuestionsMonotone(sections, c2.section + 1, c1.section);
    }
  }

  // ---------------------------------------------------------------- navigation

  /** The advance step of `handleAnswer`: the next question of the section, else the first
      question of the next section, else `None` (the quiz completes; the cursor stays). */
  function Advance(sections: seq<Section>, c: Cursor): Option<Cursor>
    requires InRange(sections, c)
  {
    if c.question < |sections[c.section].questions| - 1 then Some(Cursor(c.section, c.question + 1))
    else if c.section < |sections| - 1 then Some(Cursor(c.section + 1, 0))
    else None
  }

  /** `handleBack`: the previous question of the section, else the last question of the
      previous section, else (at the very first question) no move. */
  function Back(sections: seq<Section>, c: Cursor): Cursor
    requires InRange(sections, c) && NoEmptySection(sections)
  {
    if c.question > 0 then Cursor(c.section, c.question - 1)
    else if c.section > 0 then Cursor(c.section - 1, |sections[c.section - 1].questions| - 1)
    else c
  }

  /** Advancing moves to the next question in reading order and stays in range; it
      completes exactly at the last question. */
  lemma AdvanceMovesForward(sections: seq<Section>, c: Cursor)
    requires InRange(sections, c) && NoEmptySection(sections)
    ensures Advance(sections, c).Some? ==>
      InRange(sections, Advance(sections, c).value) &&
      CurrentTotal(sections, Advance(sections, c).value) == CurrentTotal(sections, c) + 1
    ensures Advance(sections, c).None? <==> CurrentTotal(sections, c) == TotalQuestions(sections)
  {
    TotalQuestionsStep(sections, c.section);
    ProgressInRange(sections, c);
    var r := Advance(sections, c);
    if r.Some? {
      ProgressInRange(sections, r.value);
    } else {
      assert sections[..c.section + 1] == sections;
    }
  }

  /** Stepping back moves to the previous question in reading order and stays in range;
      at the first question it changes nothing. */
  lemma BackMovesBackward(sections: seq<Section>, c: Cursor)
    requires InRange(sections, c) && NoEmptySection(sections)
    ensures InRange(sections, Back(sections, c))
    ensures c == Cursor(0, 0) ==> Back(sections, c) == c
    ensures c != Cursor(0, 0) ==> CurrentTotal(sections, Back(sections, c)) + 1 == CurrentTotal(sections, c)
  {
    if c.question == 0 && c.section > 0 {
      TotalQuestionsStep(sections, c.section - 1);
    }
  }

  /** Away from the last question, stepping back after advancing returns to the same cursor. */
  lemma BackUndoesAdvance(sections: seq<Section>, c: Cursor)
    requires InRange(sections, c) && NoEmptySection(sections) && Advance(sections, c).Some?
    ensures InRange(sections, Advance(sections, c).value)
    ensures Back(sections, Advance(sections, c).value) == c
  {
    AdvanceMovesForward(sections, c);
  }

  /** Away from the first question, advancing after stepping back returns to the same cursor. */
  lemma AdvanceUndoesBack(sections: seq<Section>, c: Cursor)
    requires InRange(sections, c) && NoEmptySection(sections) && c != Cursor(0, 0)
    ensures InRange(sections, Back(sections, c))
    ensures Advance(sections, Back(sections, c)) == Some(c)
  {
    BackMovesBackward(sections, c);
  }

  // ---------------------------------------------------------------- answer slots

  /** `currentSection * 5 + currentQuestion`: where the answer at cursor `c` is stored. */
  function AnswerSlot(c: Cursor): nat {
    c.section * 5 + c.question
  }

  predicate AtMostFivePerSection(sections: seq<Section>) {
    forall i | 0 <= i < |sections| :: |sections[i].questions| <= 5
  }

  /** With at most five questions per section, different positions use different slots. */
  lemma SlotsDistinct(sections: seq<Section>, c1: Cursor, c2: Cursor)
    requires AtMostFivePerSection(sections)
    requires InRange(sections, c1) && InRange(sections, c2) && c1 != c2
    ensures AnswerSlot(c1) != AnswerSlot(c2)
  {
    assert c1.question < 5 && c2.question < 5;
    if c1.section < c2.section {
      assert AnswerSlot(c1) < (c1.section + 1) * 5 <= AnswerSlot(c2);
    } else if c2.section < c1.section {
      assert AnswerSlot(c2) < (c2.section + 1) * 5 <= AnswerSlot(c1);
    }
  }

  /** A section with six or more questions followed by another section: its sixth
      question and the next section's first question share a slot, so answering one
      overwrites the other. */
  lemma SlotsCollide(sections: seq<Section>, i: nat)
    requires i + 1 < |sections| && |sections[i].questions| >= 6 && sections[i + 1].questions != []
    ensures InRange(sections, Cursor(i, 5)) && InRange(sections, Cursor(i + 1, 0))
    ensures AnswerSlot(Cursor(i, 5)) == AnswerSlot(Cursor(i + 1, 0))
  {
  }

  /** `newAnswers = [...answers]; newAnswers[slot] = answer`: the copy holds the answer at
      the slot and is otherwise unchanged; a slot past the end grows the array, with holes
      (absent answers) in between. */
  function WithAnswer(answers: seq<Option<Answer>>, slot: nat, answer: Answer): (r: seq<Option<Answer>>)
    ensures |r| == if slot < |answers| then |answers| else slot + 1
    ensures r[slot] == Some(answer)
    ensures forall j | 0 <= j < |r| && j != slot :: r[j] == if j < |answers| then answers[j] else None
  {
    if slot < |answers| then answers[slot := Some(answer)]
    else answers + seq(slot - |answers|, _ => None) + [Some(answer)]
  }

  /** An accepted answer anywhere in the list is among the answers the analyser keeps. */
  lemma {:induction false} AcceptedAnswersContain(answers: seq<Option<Answer>>, j: nat)
    requires j < |answers| && Accepted(answers[j])
    ensures answers[j].value in AcceptedAnswers(answers)
  {
    var init := answers[..|answers| - 1];
    if j < |answers| - 1 {
      AcceptedAnswersContain(init, j);
      assert init[j] == answers[j];
    }
  }

  // ---------------------------------------------------------------- completing

  /** The answers `completeQuiz` analyses when the answer to the last question is given
      at `c`, as written: the timer callback of `handleAnswer` calls the `completeQuiz`
      of the same render, which still sees the `answers` from before this answer's
      `setAnswers`. */
  function SubmittedAsWritten(rendered: seq<Option<Answer>>, c: Cursor, option: Answer): seq<Option<Answer>> {
    rendered
  }

  /** The answers that should be analysed: the ones just written, final answer included. */
  function SubmittedCorrected(rendered: seq<Option<Answer>>, c: Cursor, option: Answer): seq<Option<Answer>> {
    WithAnswer(rendered, AnswerSlot(c), option)
  }

  /** The corrected submission always contains the final answer, so the analyser counts
      it (when it has a value). */
  lemma CorrectedSubmissionKeepsFinalAnswer(rendered: seq<Option<Answer>>, c: Cursor, option: Answer)
    requires option.value != ""
    ensures option in AcceptedAnswers(SubmittedCorrected(rendered, c, option))
  {
    AcceptedAnswersContain(SubmittedCorrected(rendered, c, option), AnswerSlot(c));
  }

  datatype Outcome = Advanced | Completed(report: Option<Report>)

  /** The page state: the fixed content and analyser, the cursor and the answers so far. */
  class QuizPage {
    const sections: seq<Section>
    const analyzer: QuizAnalyzer
    var currentSection: nat
    var currentQuestion: nat
    var answers: seq<Option<Answer>>

    function Position(): Cursor
      reads this
    {
      Cursor(currentSection, currentQuestion)
    }

    /** The cursor is on an existing question. */
    predicate Valid()
      reads this
    {
      NoEmptySection(sections) && InRange(sections, Position())
    }

    /** The page's initial state: first question, no answers. */
    constructor (sections: seq<Section>, analyzer: QuizAnalyzer)
      requires sections != [] && NoEmptySection(sections)
      ensures Valid() && Position() == Cursor(0, 0) && answers == []
      ensures this.sections == sections && this.analyzer == analyzer
    {
      this.sections := sections;
      this.analyzer := analyzer;
      currentSection := 0;
      currentQuestion := 0;
      answers := [];
    }

    /** `handleAnswer`: store the answer in its slot, then advance; at the last question
        analyse the answers instead, including the one just given. */
    method HandleAnswer(option: Answer, timestamp: string, analysisId: string) returns (outcome: Outcome)
      requires Valid()
      modifies this
      ensures Valid()
      ensures answers == WithAnswer(old(answers), AnswerSlot(old(Position())), option)
      ensures Advance(sections, old(Position())).Some? ==>
        Position() == Advance(sections, old(Position())).value && outcome == Advanced
      ensures Advance(sections, old(Position())).None? ==>
        Position() == old(Position()) &&
        outcome == Completed(Analyze(analyzer.config, analyzer.expectedResponses,
                                     SubmittedCorrected(old(answers), old(Position()), option), timestamp, analysisId))
    {
      AdvanceMovesForward(sections, Position());
      answers := WithAnswer(answers, currentSection * 5 + currentQuestion, option);
      if currentQuestion < |sections[currentSection].questions| - 1 {
        currentQuestion := currentQuestion + 1;
        outcome := Advanced;
      } else if currentSection < |sections| - 1 {
        currentSection := currentSection + 1;
        currentQuestion := 0;
        outcome := Advanced;
      } else {
        var report := analyzer.AnalyzeResponses(answers, timestamp, analysisId);
        outcome := Completed(report);
      }
    }

    /** `handleBack`. */
    method HandleBack()
      requires Valid()
      modifies this
      ensures Valid() && answers == old(answers)
      ensures Position() == Back(sections, old(Position()))
    {
      BackMovesBackward(sections, Position());
      if currentQuestion > 0 {
        currentQuestion := currentQuestion - 1;
      } else if currentSection > 0 {
        currentSection := currentSection - 1;
        currentQuestion := |sections[currentSection].questions| - 1;
      }
    }
  }

  // ---------------------------------------------------------------- the page's content

  const Analytical: Answer :=
    Answer("analytical", ["analytical", "methodical"], map["technical" := 0.8, "creative" := 0.2],
           [("problem_solving", "systematic")], "")
  const Creative: Answer :=
    Answer("creative", ["creative", "intuitive"], map["creative" := 0.9, "technical" := 0.3],
           [("problem_solving", "intuitive")], "")
  const Collaborative: Answer :=
    Answer("collaborative", ["collaborative", "social"], map["social" := 0.8, "leadership" := 0.6],
           [("problem_solving", "collaborative")], "")
  const Theoretical: Answer :=
    Answer("theoretical", ["research", "independent"], map["academic" := 0.8, "practical" := 0.3],
           [("learning", "theoretical")], "")
  const Practical: Answer :=
    Answer("practical", ["practical", "experiential"], map["practical" := 0.9, "academic" := 0.4],
           [("learning", "practical")], "")
  const Project: Answer :=
    Answer("project", ["project_focused", "goal_oriented"], map["practical" := 0.7, "planning" := 0.8],
           [("learning", "project_based")], "")

  /** `defaultQuizContent.sections`: two sections of one question each. */
  const DefaultSections: seq<Section> := [
    Section("Cognitive Style", [Question("When solving complex problems, what's your preferred approach?",
                                         [Analytical, Creative, Collaborative])]),
    Section("Learning Style", [Question("How do you best learn new concepts?",
                                        [Theoretical, Practical, Project])])]

  /** The page's `quizAnalyzer` configuration. */
  const PageWeights: map<string, real> := map["technical" := 0.3, "creative" := 0.3, "social" := 0.2, "academic" := 0.2]
  const TechnicalCreative: ResultType :=
    ResultType("Technical Creative", "You blend analytical thinking with creative problem-solving",
               [("technical", 0.6), ("creative", 0.6)], ["analytical", "creative", "innovative"])
  const PracticalLeader: ResultType :=
    ResultType("Practical Leader", "You excel at hands-on work and guiding others",
               [("practical", 0.7), ("leadership", 0.6)], ["practical", "leadership", "collaborative"])
  const PageConfig: Config :=
    Config(PageWeights, [("technical_creative", TechnicalCreative), ("practical_leader", PracticalLeader)], [])

  /** Neither of `practical_leader`'s threshold aspects is a configured aspect, so its match
      score is its indicator term alone, at most 0.3, whatever the answers. */
  lemma PracticalLeaderCapped(st: AnalysisState)
    ensures TypeMatch(PageConfig, st, PracticalLeader) == IndicatorTerm(st.indicators, PracticalLeader.indicators)
    ensures TypeMatch(PageConfig, st, PracticalLeader) <= 0.3
  {
    UnconfiguredThresholdsNeverPass(PageWeights, st.scores, PracticalLeader.thresholds);
  }

  /** Submitting no answers to the page's analyser reports "Practical Leader" (the tie
      rule at work) with confidence 0. */
  lemma EmptyQuizReport(expected: Positive)
    ensures Analyze(PageConfig, expected, [], "t", "id").Some?
    ensures Analyze(PageConfig, expected, [], "t", "id").value.resultType == "Practical Leader"
    ensures Analyze(PageConfig, expected, [], "t", "id").value.confidenceScore == 0.0
  {
    var st := Folded(PageConfig, []);
    assert st == InitialAnalysis(PageWeights);
    UnconfiguredThresholdsNeverPass(PageWeights, st.scores, PracticalLeader.thresholds);
    assert TechnicalCreative.thresholds[..1][..0] == [];
    assert ThresholdTerm(PageWeights, st.scores, TechnicalCreative.thresholds) == 0.0;
    HitCountExtremes(st.indicators, TechnicalCreative.indicators);
    HitCountExtremes(st.indicators, PracticalLeader.indicators);
    var k := ReportResult(PageConfig, expected, [], "t", "id");
    assert TypeMatch(PageConfig, st, PageConfig.resultTypes[0].1) == TypeMatch(PageConfig, st, PageConfig.resultTypes[1].1);
    assert k == 1;
    NoAcceptedAnswersNoConfidence(PageConfig, expected, [], "t", "id");
  }

  /** The default quiz answered "analytical" then "practical": the final answer goes to
      slot 5 and completes the quiz. As written, the analysed array is the one from before
      that write, so only the first answer is analysed and the report's `academic` total
      is 0; the corrected submission analyses both answers and reports 0.4. */
  lemma FinalAnswerLostAsWritten()
    ensures InRange(DefaultSections, Cursor(1, 0)) && Advance(DefaultSections, Cursor(1, 0)).None?
    ensures AcceptedAnswers(SubmittedAsWritten([Some(Analytical)], Cursor(1, 0), Practical)) == [Analytical]
    ensures AcceptedAnswers(SubmittedCorrected([Some(Analytical)], Cursor(1, 0), Practical)) == [Analytical, Practical]
    ensures var r := Analyze(PageConfig, 2, SubmittedAsWritten([Some(Analytical)], Cursor(1, 0), Practical), "t", "id");
      r.Some? && "academic" in r.value.scores && r.value.scores["academic"] == 0.0
    ensures var r := Analyze(PageConfig, 2, SubmittedCorrected([Some(Analytical)], Cursor(1, 0), Practical), "t", "id");
      r.Some? && "academic" in r.value.scores && r.value.scores["academic"] == 0.4
  {
    var written := [Some(Analytical)];
    var corrected := SubmittedCorrected(written, Cursor(1, 0), Practical);
    DefaultQuizSubmissions();
    ReportTotals(PageConfig, 2, written, "t", "id");
    ReportTotals(PageConfig, 2, corrected, "t", "id");
    DefaultQuizAcademicTotals();
  }

  /** The accepted answers of the two submissions of the default quiz. */
  lemma DefaultQuizSubmissions()
    ensures AcceptedAnswers([Some(Analytical)]) == [Analytical]
    ensures AcceptedAnswers(SubmittedCorrected([Some(Analytical)], Cursor(1, 0), Practical)) == [Analytical, Practical]
  {
    var written := [Some(Analytical)];
    var corrected := SubmittedCorrected(written, Cursor(1, 0), Practical);
    assert corrected == [Some(Analytical), None, None, None, None, Some(Practical)];
    assert written[..0] == [];
    assert AcceptedAnswers(written) == [Analytical];
    assert corrected[..1] == written;
    assert corrected[..2] == written + [None];
    assert AcceptedAnswers(corrected[..2]) == [Analytical];
    assert corrected[..3] == corrected[..2] + [None];
    assert AcceptedAnswers(corrected[..3]) == [Analytical];
    assert corrected[..4] == corrected[..3] + [None];
    assert AcceptedAnswers(corrected[..4]) == [Analytical];
    assert corrected[..5] == corrected[..4] + [None];
    assert AcceptedAnswers(corrected[..5]) == [Analytical];
  }

  /** The `academic` totals of the two submissions' accepted answers. */
  lemma DefaultQuizAcademicTotals()
    ensures TotalScore([Analytical], "academic") == 0.0
    ensures TotalScore([Analytical, Practical], "academic") == 0.4
  {
    assert [Analytical][..0] == [];
    assert [Analytical, Practical][..1] == [Analytical];
  }
}
