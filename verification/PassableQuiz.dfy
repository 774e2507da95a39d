/** Which of the quizzes that validation accepts can be passed once they are stored. */
module PassableQuiz {
  import opened Basics
  import opened Text
  import opened StringLists
  import opened JsonKeys
  import opened JsonDocs
  import opened QuestionConfig
  import opened StoredConfig
  import opened QuizValidation
  import opened Grading
  import opened GradingTheorems

  /** The questions as stored: the accepted payloads with the ids the database gave them, and the points and
      the configuration as their columns keep them. */
  function Stored(payloads: seq<Payload>, ids: seq<string>): seq<Question>
    requires |payloads| == |ids|
  {
    seq(|payloads|, i requires 0 <= i < |payloads| =>
      Question(ids[i], payloads[i].kind, RoundToTwo(payloads[i].points), StoredRaw(payloads[i].config)))
  }

  /** All points fit their column, so the quiz can be stored. */
  predicate CanBeStored(payloads: seq<Payload>) {
    forall p :: p in payloads ==> PointsFit(p.points)
  }

  predicate UsableQuestionIds(ids: seq<string>) {
    && (forall i :: 0 <= i < |ids| ==> ids[i] != "" && Trim(ids[i]) == ids[i])
    && (forall i, j :: 0 <= i < j < |ids| ==> ids[i] != ids[j])
  }

  predicate Sound(kind: QuestionType, config: Raw) {
    !kind.OtherType? && ConfigErrors(kind, config) == []
  }

  // ---------- Questions that can be answered ----------

  /** Grading reads an answer out of the configuration. */
  predicate Answerable(q: Question) {
    match q.kind
    case SingleChoice => CorrectIds(q.config).Some? && |CorrectIds(q.config).value| == 1
    case MultipleChoice => CorrectIds(q.config).Some?
    case TrueFalse => CorrectBoolean(q.config).Some?
    case OtherType(_) => false
    case _ => AcceptedAnswers(q.config).Some? && AcceptedAnswers(q.config).value != []
  }

  lemma FoldedIsNormalized(answers: seq<string>)
    ensures Folded(answers) == [] <==> NormalizeSlice(answers) == []
  {
    NormalizeSliceContents(answers);
    if x :| x in Folded(answers) {
      FoldedContents(answers, x);
      var a :| a in answers && x == Lower(Trim(a));
      assert Trim(a) in ToSet(NormalizeSlice(answers));
    }
    if NormalizeSlice(answers) != [] {
      var text := NormalizeSlice(answers)[0];
      assert text in ToSet(NormalizeSlice(answers));
      var a :| a in answers && Trim(a) != "" && Trim(a) == text;
      FoldedContents(answers, Lower(text));
      assert |Lower(text)| == |text|;
    }
    if Folded(answers) != [] {
      assert Folded(answers)[0] in Folded(answers);
    }
  }

  /** The answer that selects the correct options, or gives the boolean or the first accepted text. */
  function PerfectAnswer(q: Question): Answer {
    if !Answerable(q) then Answer(q.id, [], None, None)
    else
      match q.kind
      case SingleChoice => Answer(q.id, CorrectIds(q.config).value, None, None)
      case MultipleChoice => Answer(q.id, CorrectIds(q.config).value, None, None)
      case TrueFalse => Answer(q.id, [], None, CorrectBoolean(q.config))
      case OtherType(_) => Answer(q.id, [], None, None)
      case _ =>
        FoldedIsNormalized(AcceptedOf(q.config).value);
        Answer(q.id, [], Some(NormalizeSlice(AcceptedOf(q.config).value)[0]), None)
  }

  lemma PerfectTextEarns(q: Question)
    requires Answerable(q) && (q.kind.ShortAnswer? || q.kind.FillBlank?)
    ensures Earns(q, NormalizeAnswer(PerfectAnswer(q)))
  {
    var accepted := AcceptedOf(q.config).value;
    FoldedIsNormalized(accepted);
    var text := NormalizeSlice(accepted)[0];
    NormalizeSliceContents(accepted);
    assert text in ToSet(NormalizeSlice(accepted));
    var a :| a in accepted && Trim(a) != "" && Trim(a) == text;
    TrimIdempotent(a);
    assert |Lower(text)| == |text|;
    FoldedContents(accepted, Lower(text));
  }

  lemma PerfectAnswerEarns(q: Question)
    requires Answerable(q)
    ensures Earns(q, NormalizeAnswer(PerfectAnswer(q)))
  {
    match q.kind {
      case SingleChoice =>
        NormalizeSliceIdempotent(FlaggedIds(OptionsOf(q.config).value));
      case MultipleChoice =>
        NormalizeSliceIdempotent(FlaggedIds(OptionsOf(q.config).value));
      case TrueFalse =>
      case _ =>
        PerfectTextEarns(q);
    }
  }

  /** A question can earn its points exactly when grading reads an answer out of it. */
  lemma AnswerableExactly(q: Question)
    ensures Answerable(q) <==> exists a :: Earns(q, NormalizeAnswer(a))
  {
    if Answerable(q) {
      PerfectAnswerEarns(q);
    }
  }

  function AnswerablePoints(questions: seq<Question>): real {
    if questions == [] then 0.0
    else
      var last := questions[|questions| - 1];
      AnswerablePoints(questions[..|questions| - 1]) + (if Answerable(last) then last.points else 0.0)
  }

  /** No sheet earns more than the points of the questions that can be answered. */
  lemma {:induction false} EarnedWithinAnswerable(questions: seq<Question>, index: map<string, Answer>)
    requires NonNegative(questions)
    ensures TotalEarned(questions, index) <= AnswerablePoints(questions) <= TotalMax(questions)
  {
    if questions != [] {
      var init, last := questions[..|questions| - 1], questions[|questions| - 1];
      assert last in questions && forall q :: q in init ==> q in questions;
      EarnedWithinAnswerable(init, index);
    }
  }

  function PerfectSheet(questions: seq<Question>): seq<Answer> {
    seq(|questions|, i requires 0 <= i < |questions| => PerfectAnswer(questions[i]))
  }

  lemma {:induction false} AnswerableEarned(questions: seq<Question>, index: map<string, Answer>)
    requires forall q :: q in questions ==> EarnedBy(q, index) == if Answerable(q) then q.points else 0.0
    ensures TotalEarned(questions, index) == AnswerablePoints(questions)
  {
    if questions != [] {
      assert questions[|questions| - 1] in questions;
      assert forall q :: q in questions[..|questions| - 1] ==> q in questions;
      AnswerableEarned(questions[..|questions| - 1], index);
    }
  }

  /** Handing in the perfect sheet earns all these points. */
  lemma {:induction false} PerfectSheetEarns(questions: seq<Question>, ids: seq<string>)
    requires questions != [] && |ids| == |questions| && UsableQuestionIds(ids)
    requires forall i :: 0 <= i < |ids| ==> questions[i].id == ids[i]
    ensures NormalizeSheet(PerfectSheet(questions)).Ok?
    ensures TotalEarned(questions, AnswerMap(NormalizeSheet(PerfectSheet(questions)).value))
         == AnswerablePoints(questions)
  {
    var sheet := PerfectSheet(questions);
    assert forall i :: 0 <= i < |questions| ==> sheet[i].questionId == ids[i];
    DistinctSheetAccepted(sheet);
    NormalizedSheetMeaning(sheet);
    var clean := NormalizeSheet(sheet).value;
    forall q | q in questions ensures EarnedBy(q, AnswerMap(clean)) == if Answerable(q) then q.points else 0.0 {
      var i :| 0 <= i < |questions| && questions[i] == q;
      AnswerMapOfDistinct(clean, i);
      AnswerableExactly(q);
      if Answerable(q) {
        PerfectAnswerEarns(q);
      }
      assert clean[i].questionId == ids[i];
    }
    AnswerableEarned(questions, AnswerMap(clean));
  }

  // ---------- Quizzes that can be passed ----------

  /** Handing in `sheet` is accepted, its result can be stored, and it passes. */
  predicate PassingSheet(questions: seq<Question>, sheet: seq<Answer>, passPercent: int) {
    && NormalizeSheet(sheet).Ok?
    && var earned, max := TotalEarned(questions, AnswerMap(NormalizeSheet(sheet).value)), TotalMax(questions);
    && ResultFits(RoundToTwo(earned), RoundToTwo(max), ScorePercent(earned, max))
    && Passes(earned, max, passPercent)
  }

  /** The sheet also earns every point and scores exactly 100. */
  predicate FullMarks(questions: seq<Question>, sheet: seq<Answer>, passPercent: int) {
    && PassingSheet(questions, sheet, passPercent)
    && var earned, max := TotalEarned(questions, AnswerMap(NormalizeSheet(sheet).value)), TotalMax(questions);
    && earned == max > 0.0 && ScorePercent(earned, max) == 100.0
  }

  /** The quiz is worth something, not so much that no result can be stored, and the questions that can be
      answered carry the pass mark. */
  predicate Winnable(questions: seq<Question>, passPercent: int) {
    var max := TotalMax(questions);
    && max > 0.0 && RoundToTwo(max) < 1000000.0
    && AnswerablePoints(questions) / max * 100.0 >= passPercent as real - 0.005
  }

  lemma PercentPasses(questions: seq<Question>, earned: real, passPercent: int)
    requires 0.0 <= earned <= TotalMax(questions) && TotalMax(questions) > 0.0 && passPercent >= 1
    ensures 0.0 <= ScorePercent(earned, TotalMax(questions)) <= 100.0
    ensures Passes(earned, TotalMax(questions), passPercent) <==>
              earned / TotalMax(questions) * 100.0 >= passPercent as real - 0.005
  {
    PercentBounds(earned, TotalMax(questions));
    RoundedThreshold(earned / TotalMax(questions) * 100.0, passPercent);
  }

  lemma PassingSheetWins(questions: seq<Question>, sheet: seq<Answer>, passPercent: int)
    requires NonNegative(questions) && passPercent >= 1 && PassingSheet(questions, sheet, passPercent)
    ensures Winnable(questions, passPercent)
  {
    var index := AnswerMap(NormalizeSheet(sheet).value);
    var earned, max := TotalEarned(questions, index), TotalMax(questions);
    EarnedWithinMax(questions, index);
    EarnedWithinAnswerable(questions, index);
    PercentPasses(questions, earned, passPercent);
    DivideMonotone(earned, AnswerablePoints(questions), max);
  }

  lemma PerfectSheetWins(questions: seq<Question>, ids: seq<string>, passPercent: int)
    requires |ids| == |questions| && UsableQuestionIds(ids) && NonNegative(questions) && passPercent >= 1
    requires forall i :: 0 <= i < |ids| ==> questions[i].id == ids[i]
    requires Winnable(questions, passPercent)
    ensures PassingSheet(questions, PerfectSheet(questions), passPercent)
  {
    var earned, max := AnswerablePoints(questions), TotalMax(questions);
    assert questions != [];
    PerfectSheetEarns(questions, ids);
    EarnedWithinMax(questions, AnswerMap(NormalizeSheet(PerfectSheet(questions)).value));
    EarnedWithinAnswerable(questions, map[]);
    PercentPasses(questions, earned, passPercent);
    RoundMonotone(0.0, earned);
    RoundMonotone(earned, max);
  }

  // ---------- Quizzes whose configurations spell each tag once ----------

  /** Some question is worth at least half a hundredth of a point. */
  predicate HasPoints(payloads: seq<Payload>) {
    exists p :: p in payloads && p.points >= 0.005
  }

  predicate AllSpeltOnce(payloads: seq<Payload>) {
    forall p :: p in payloads ==> OneSpelling(p.config)
  }

  /** What a quiz must be worth to be passed: something, and not so much that no result can be stored. */
  predicate Worthwhile(payloads: seq<Payload>, ids: seq<string>)
    requires |payloads| == |ids|
  {
    HasPoints(payloads) && RoundToTwo(TotalMax(Stored(payloads, ids))) < 1000000.0
  }

  lemma {:induction false} PositiveMax(questions: seq<Question>)
    requires forall q :: q in questions ==> q.points >= 0.0
    ensures TotalMax(questions) >= 0.0
    ensures TotalMax(questions) > 0.0 <==> exists q :: q in questions && q.points > 0.0
  {
    if questions != [] {
      var init, last := questions[..|questions| - 1], questions[|questions| - 1];
      assert questions == init + [last];
      assert forall q :: q in questions <==> q in init || q == last;
      PositiveMax(init);
    }
  }

  /** A points column has six digits, two of them after the point: it takes positive points up to the one that would
      round to ten thousand. */
  lemma PointsFitExactly(points: real)
    requires points > 0.0
    ensures PointsFit(points) <==> points < 9999.995
  {
    var n := (points * 100.0 + 0.5).Floor;
    assert RoundToTwo(points) == n as real / 100.0;
    assert n < 1000000 <==> points * 100.0 + 0.5 < 1000000.0;
  }

  /** The column keeps positive points positive from half a hundredth on. */
  lemma KeptPoints(points: real)
    requires points > 0.0
    ensures RoundToTwo(points) >= 0.0
    ensures RoundToTwo(points) > 0.0 <==> points >= 0.005
  {
    var n := (points * 100.0 + 0.5).Floor;
    assert RoundToTwo(points) == n as real / 100.0;
  }

  /** A sound configuration that spells each tag once can be answered after it was stored. */
  lemma SoundIsAnswerable(q: Question, given: Raw)
    requires Sound(q.kind, given) && OneSpelling(given) && q.config == StoredRaw(given)
    ensures Answerable(q)
  {
    StoredReading(given);
    match q.kind {
      case SingleChoice =>
        ScanCount(OptionsOf(given).value);
      case ShortAnswer =>
        FoldedIsNormalized(AcceptedOf(given).value);
      case FillBlank =>
        FoldedIsNormalized(AcceptedOf(given).value);
      case _ =>
    }
  }

  /** What acceptance gives for the stored questions. */
  lemma StoredQuestions(payloads: seq<Payload>, ids: seq<string>)
    requires NormalizeQuestions(payloads).Ok? && |ids| == |NormalizeQuestions(payloads).value|
    ensures var accepted := NormalizeQuestions(payloads).value;
            && NonNegative(Stored(accepted, ids))
            && (TotalMax(Stored(accepted, ids)) > 0.0 <==> HasPoints(accepted))
            && (AllSpeltOnce(accepted) ==> forall q :: q in Stored(accepted, ids) ==> Answerable(q))
  {
    AcceptanceMeaning(payloads);
    var accepted := NormalizeQuestions(payloads).value;
    var questions := Stored(accepted, ids);
    forall i | 0 <= i < |questions|
      ensures questions[i].points >= 0.0 && (questions[i].points > 0.0 <==> accepted[i].points >= 0.005)
      ensures OneSpelling(accepted[i].config) ==> Answerable(questions[i])
    {
      assert QuestionErrors(payloads[i], i) == [];
      KeptPoints(accepted[i].points);
      if OneSpelling(accepted[i].config) {
        SoundIsAnswerable(questions[i], accepted[i].config);
      }
    }
    forall q | q in questions
      ensures q.points >= 0.0 && (q.points > 0.0 ==> HasPoints(accepted))
      ensures AllSpeltOnce(accepted) ==> Answerable(q)
    {
      var i :| 0 <= i < |questions| && questions[i] == q;
      assert accepted[i] in accepted;
    }
    if HasPoints(accepted) {
      var p :| p in accepted && p.points >= 0.005;
      var i :| 0 <= i < |accepted| && accepted[i] == p;
      assert questions[i] in questions;
    }
    PositiveMax(questions);
  }

  lemma {:induction false} AllAnswerable(questions: seq<Question>)
    requires forall q :: q in questions ==> Answerable(q)
    ensures AnswerablePoints(questions) == TotalMax(questions)
  {
    if questions != [] {
      assert questions[|questions| - 1] in questions;
      assert forall q :: q in questions[..|questions| - 1] ==> q in questions;
      AllAnswerable(questions[..|questions| - 1]);
    }
  }

  lemma FullScore(max: real)
    requires max > 0.0
    ensures max / max * 100.0 == 100.0 && ScorePercent(max, max) == 100.0
  {
    assert max / max == 1.0;
    assert Round(100.0 * 100.0) == 10000;
  }

  lemma AnswerableQuizWins(questions: seq<Question>, ids: seq<string>, passPercent: int)
    requires |ids| == |questions| && UsableQuestionIds(ids) && NonNegative(questions) && 1 <= passPercent <= 100
    requires forall i :: 0 <= i < |ids| ==> questions[i].id == ids[i]
    requires forall q :: q in questions ==> Answerable(q)
    ensures Winnable(questions, passPercent) <==>
              TotalMax(questions) > 0.0 && RoundToTwo(TotalMax(questions)) < 1000000.0
    ensures Winnable(questions, passPercent) ==> FullMarks(questions, PerfectSheet(questions), passPercent)
  {
    AllAnswerable(questions);
    if TotalMax(questions) > 0.0 && RoundToTwo(TotalMax(questions)) < 1000000.0 {
      assert questions != [];
      FullScore(TotalMax(questions));
      PerfectSheetWins(questions, ids, passPercent);
      PerfectSheetEarns(questions, ids);
    }
  }

  /** A quiz that validation accepts and the database stores can be passed if and only if it is winnable as
      stored. If no configuration spells a tag twice, that means: some question is worth at least half
      a hundredth of a point and the maximum stays below a million; and then some sheet earns every point
      and scores exactly 100. */
  lemma AcceptedQuizPassableExactly(given: Settings, payloads: seq<Payload>, ids: seq<string>)
    requires AcceptedSettings(SettingsWithDefaults(given))
    requires NormalizeQuestions(payloads).Ok? && |NormalizeQuestions(payloads).value| == |ids|
    requires CanBeStored(NormalizeQuestions(payloads).value) && UsableQuestionIds(ids)
    ensures var accepted := NormalizeQuestions(payloads).value;
            var questions, passPercent := Stored(accepted, ids), SettingsWithDefaults(given).passPercent;
            && ((exists sheet :: PassingSheet(questions, sheet, passPercent)) <==> Winnable(questions, passPercent))
            && (AllSpeltOnce(accepted) ==>
                  && (Winnable(questions, passPercent) <==> Worthwhile(accepted, ids))
                  && (Worthwhile(accepted, ids) ==> exists sheet :: FullMarks(questions, sheet, passPercent)))
  {
    StoredQuestions(payloads, ids);
    var accepted := NormalizeQuestions(payloads).value;
    var questions, passPercent := Stored(accepted, ids), SettingsWithDefaults(given).passPercent;
    if Winnable(questions, passPercent) {
      PerfectSheetWins(questions, ids, passPercent);
    }
    if sheet :| PassingSheet(questions, sheet, passPercent) {
      PassingSheetWins(questions, sheet, passPercent);
    }
    if AllSpeltOnce(accepted) {
      AnswerableQuizWins(questions, ids, passPercent);
    }
  }

  // ---------- Quizzes of one question ----------

  function TrueFalseQuestion(points: real, config: Doc): Payload {
    Payload(1, TrueFalse, Prompt("a", "a"), points, Parsed(config))
  }

  /** A configuration that says only whether the statement is true. */
  function TrueFalseConfig(correct: bool): Doc {
    ObjDoc([Entry("correct", BoolDoc(correct))])
  }

  lemma OneEntryRead(key: string, correct: bool)
    requires Spells(key, "correct")
    ensures CorrectOf(Parsed(ObjDoc([Entry(key, BoolDoc(correct))]))) == Some(Some(correct))
    ensures SpeltOnce(ObjDoc([Entry(key, BoolDoc(correct))]))
  {
    var e := Entry(key, BoolDoc(correct));
    ValuesOfOne(e, "correct", SeesAll);
    OneOver(None, BoolDoc(correct), PointerOver);
    forall tag ensures |FieldValues(ObjDoc([e]), tag, SeesAll)| <= 1 {
      ValuesOfOne(e, tag, SeesAll);
    }
  }

  lemma TrueFalseConfigDecodes(correct: bool)
    ensures Decodes(Parsed(TrueFalseConfig(correct)))
            && CorrectOf(Parsed(TrueFalseConfig(correct))) == Some(Some(correct))
    ensures OneSpelling(Parsed(TrueFalseConfig(correct)))
  {
    SpellingsOfCorrect();
    OneEntryRead("correct", correct);
    NothingElseRead(TrueFalseConfig(correct));
    NoOtherTag("correct", "options");
    ValuesOfOne(Entry("correct", BoolDoc(correct)), "options", SeesAll);
  }

  lemma AloneAccepted(p: Payload)
    requires QuestionErrors(p, 0) == [] && WithDefaults(p, 0) == p
    ensures NormalizeQuestions([p]) == Ok([p])
  {
    var payloads, none: seq<Payload> := [p], [];
    assert payloads[..|payloads| - 1] == none;
    assert NormalizeQuestions(none) == Ok(none);
    assert none + [p] == [p];
  }

  lemma BooleanIsEnough(config: Doc)
    requires Decodes(Parsed(config)) && CorrectOf(Parsed(config)).value.Some?
    ensures ConfigErrors(TrueFalse, Parsed(config)) == []
  {
  }

  lemma TrueFalseQuestionIsAccepted(points: real, config: Doc)
    requires points > 0.0 && Decodes(Parsed(config)) && CorrectOf(Parsed(config)).value.Some?
    ensures NormalizeQuestions([TrueFalseQuestion(points, config)]) == Ok([TrueFalseQuestion(points, config)])
  {
    TrimOfTrimmed("a");
    BooleanIsEnough(config);
    assert QuestionErrors(TrueFalseQuestion(points, config), 0) == [];
    AloneAccepted(TrueFalseQuestion(points, config));
  }

  /** Validation accepts a question worth a thousandth of a point, the database stores it, and no sheet
      passes: its points are stored as zero. */
  lemma TinyQuestionCannotBePassed(given: Settings, id: string, sheet: seq<Answer>)
    requires AcceptedSettings(SettingsWithDefaults(given)) && Trim(id) == id != ""
    ensures var tiny := [TrueFalseQuestion(0.001, TrueFalseConfig(true))];
            && NormalizeQuestions(tiny) == Ok(tiny) && CanBeStored(tiny)
            && !PassingSheet(Stored(tiny, [id]), sheet, SettingsWithDefaults(given).passPercent)
  {
    TrueFalseConfigDecodes(true);
    TrueFalseQuestionIsAccepted(0.001, TrueFalseConfig(true));
    KeptPoints(0.001);
    StoredQuestions([TrueFalseQuestion(0.001, TrueFalseConfig(true))], [id]);
  }

  lemma WholePoint()
    ensures RoundToTwo(1.0) == 1.0
  {
    assert Round(100.0) == 100;
  }

  lemma UnanswerableCannotBePassed(questions: seq<Question>, sheet: seq<Answer>, passPercent: int)
    requires |questions| == 1 && questions[0].points >= 0.0 && !Answerable(questions[0]) && passPercent >= 1
    ensures !PassingSheet(questions, sheet, passPercent)
  {
    assert questions[..0] == [] && AnswerablePoints(questions) == 0.0;
    if PassingSheet(questions, sheet, passPercent) {
      PassingSheetWins(questions, sheet, passPercent);
    }
  }

  lemma WholePointIsWorthwhile(p: Payload, id: string)
    requires p.points == 1.0
    ensures CanBeStored([p]) && Worthwhile([p], [id]) && TotalMax(Stored([p], [id])) == 1.0
  {
    WholePoint();
    var questions := Stored([p], [id]);
    assert questions[..0] == [] && TotalMax(questions) == 1.0;
    assert [p][0] in [p];
  }

  /** A true-false question whose boolean the database clears. */
  lemma ClearedCannotBePassed(given: Settings, id: string, config: Doc, sheet: seq<Answer>)
    requires AcceptedSettings(SettingsWithDefaults(given))
    requires Decodes(Parsed(config)) && CorrectOf(Parsed(config)).value.Some?
    requires CorrectOf(StoredRaw(Parsed(config))) == Some(None)
    ensures var p := TrueFalseQuestion(1.0, config);
            && NormalizeQuestions([p]) == Ok([p]) && CanBeStored([p]) && Worthwhile([p], [id])
            && !PassingSheet(Stored([p], [id]), sheet, SettingsWithDefaults(given).passPercent)
  {
    var p := TrueFalseQuestion(1.0, config);
    TrueFalseQuestionIsAccepted(1.0, config);
    WholePointIsWorthwhile(p, id);
    WholePoint();
    var questions := Stored([p], [id]);
    assert questions[0].config == StoredRaw(p.config);
    UnanswerableCannotBePassed(questions, sheet, SettingsWithDefaults(given).passPercent);
  }

  /** Validation accepts `{"correct": null, "Correct": true}` (or false) for a question worth a whole point, and
      no sheet passes: as stored, the null comes last and clears the answer. */
  lemma TwoSpellingsCannotBePassed(given: Settings, id: string, correct: bool, sheet: seq<Answer>)
    requires AcceptedSettings(SettingsWithDefaults(given))
    ensures var twice := [TrueFalseQuestion(1.0, TwoSpellings(correct))];
            && NormalizeQuestions(twice) == Ok(twice) && CanBeStored(twice) && Worthwhile(twice, [id])
            && !PassingSheet(Stored(twice, [id]), sheet, SettingsWithDefaults(given).passPercent)
  {
    TwoSpellingsRead(correct);
    ClearedCannotBePassed(given, id, TwoSpellings(correct), sheet);
  }

  /** A question worth a whole point that spells its tag once can be passed. */
  lemma WholePointCanBePassed(given: Settings, id: string) returns (sheet: seq<Answer>)
    requires AcceptedSettings(SettingsWithDefaults(given)) && Trim(id) == id != ""
    ensures FullMarks(Stored([TrueFalseQuestion(1.0, TrueFalseConfig(true))], [id]), sheet,
                      SettingsWithDefaults(given).passPercent)
  {
    var payloads := [TrueFalseQuestion(1.0, TrueFalseConfig(true))];
    TrueFalseConfigDecodes(true);
    TrueFalseQuestionIsAccepted(1.0, TrueFalseConfig(true));
    WholePointIsWorthwhile(payloads[0], id);
    AcceptedQuizPassableExactly(given, payloads, [id]);
    sheet :| FullMarks(Stored(payloads, [id]), sheet, SettingsWithDefaults(given).passPercent);
  }
}
