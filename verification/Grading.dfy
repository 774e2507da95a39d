/** Grading an answer sheet: `normalizeSubmitAttemptParams`, `evaluateAttempt`,
    `evaluateQuestion` and the pass mark. Points and percentages are real numbers. */
module Grading {
  import opened Basics
  import opened Text
  import opened StringLists
  import opened JsonDocs
  import opened QuestionConfig
  import opened QuizValidation

  datatype Question = Question(id: string, kind: QuestionType, points: real, config: Raw)

  datatype Answer = Answer(questionId: string, selected: seq<string>, text: Option<string>, boolean: Option<bool>)

  // ---------- Cleaning up a sheet ----------

  datatype SheetError = NoAnswers | MissingQuestionId | DuplicateAnswer

  function NormalizeAnswer(a: Answer): Answer {
    Answer(Trim(a.questionId), NormalizeSlice(a.selected), NormalizeOptional(a.text), a.boolean)
  }

  function QuestionIds(answers: seq<Answer>): set<string> {
    set a | a in answers :: a.questionId
  }

  function WithAnswer(done: seq<Answer>, a: Answer): Result<seq<Answer>, SheetError> {
    if a.questionId == "" then Err(MissingQuestionId)
    else if a.questionId in QuestionIds(done) then Err(DuplicateAnswer)
    else Ok(done + [a])
  }

  function NormalizeAnswers(answers: seq<Answer>): Result<seq<Answer>, SheetError> {
    if answers == [] then Ok([])
    else
      var before := NormalizeAnswers(answers[..|answers| - 1]);
      if before.Err? then before else WithAnswer(before.value, NormalizeAnswer(answers[|answers| - 1]))
  }

  function NormalizeSheet(answers: seq<Answer>): Result<seq<Answer>, SheetError> {
    if answers == [] then Err(NoAnswers) else NormalizeAnswers(answers)
  }

  lemma {:induction false} FirstSheetErrorStands(answers: seq<Answer>, i: nat)
    requires i <= |answers| && NormalizeAnswers(answers[..i]).Err?
    ensures NormalizeAnswers(answers) == NormalizeAnswers(answers[..i])
  {
    if i < |answers| {
      var init := answers[..|answers| - 1];
      assert init[..i] == answers[..i];
      FirstSheetErrorStands(init, i);
    } else {
      assert answers[..i] == answers;
    }
  }

  lemma OneMoreAnswer(answers: seq<Answer>, i: nat, done: seq<Answer>)
    requires i < |answers| && NormalizeAnswers(answers[..i]) == Ok(done)
    ensures NormalizeAnswers(answers[..i + 1]) == WithAnswer(done, NormalizeAnswer(answers[i]))
    ensures WithAnswer(done, NormalizeAnswer(answers[i])).Err? ==>
              NormalizeAnswers(answers) == WithAnswer(done, NormalizeAnswer(answers[i]))
  {
    assert answers[..i + 1][..i] == answers[..i];
    if NormalizeAnswers(answers[..i + 1]).Err? {
      FirstSheetErrorStands(answers, i + 1);
    }
  }

  lemma QuestionIdsMore(answers: seq<Answer>, a: Answer)
    ensures QuestionIds(answers + [a]) == QuestionIds(answers) + {a.questionId}
  {
  }

  method NormalizeSubmittedAnswers(answers: seq<Answer>) returns (r: Result<seq<Answer>, SheetError>)
    ensures r == NormalizeSheet(answers)
  {
    if |answers| == 0 {
      return Err(NoAnswers);
    }
    var normalized: seq<Answer> := [];
    var seen: set<string> := {};
    assert answers[..0] == [];
    for i := 0 to |answers|
      invariant NormalizeAnswers(answers[..i]) == Ok(normalized)
      invariant seen == QuestionIds(normalized)
    {
      OneMoreAnswer(answers, i, normalized);
      var selected := NormalizeStringSlice(answers[i].selected);
      var answer := Answer(Trim(answers[i].questionId), selected, NormalizeOptional(answers[i].text),
                           answers[i].boolean);
      if answer.questionId == "" {
        return Err(MissingQuestionId);
      }
      if answer.questionId in seen {
        return Err(DuplicateAnswer);
      }
      QuestionIdsMore(normalized, answer);
      seen := seen + {answer.questionId};
      normalized := normalized + [answer];
    }
    assert answers[..|answers|] == answers;
    return Ok(normalized);
  }

  lemma {:induction false} NormalizedSheetShape(answers: seq<Answer>)
    requires NormalizeAnswers(answers).Ok?
    ensures |NormalizeAnswers(answers).value| == |answers|
    ensures forall i :: 0 <= i < |answers| ==> NormalizeAnswers(answers).value[i] == NormalizeAnswer(answers[i])
  {
    if answers != [] {
      NormalizedSheetShape(answers[..|answers| - 1]);
    }
  }

  /** An accepted sheet is the given one, answer by answer, and answers no question twice. */
  lemma {:induction false} NormalizedSheetMeaning(answers: seq<Answer>)
    requires NormalizeAnswers(answers).Ok?
    ensures |NormalizeAnswers(answers).value| == |answers|
    ensures forall i :: 0 <= i < |answers| ==> NormalizeAnswers(answers).value[i] == NormalizeAnswer(answers[i])
    ensures forall i, j :: 0 <= i < j < |answers| ==> Trim(answers[i].questionId) != Trim(answers[j].questionId)
    ensures forall i :: 0 <= i < |answers| ==> Trim(answers[i].questionId) != ""
  {
    NormalizedSheetShape(answers);
    if answers != [] {
      var init, last := answers[..|answers| - 1], answers[|answers| - 1];
      NormalizedSheetMeaning(init);
      var done := NormalizeAnswers(init).value;
      assert NormalizeAnswer(last).questionId !in QuestionIds(done);
      forall i | 0 <= i < |init| ensures Trim(answers[i].questionId) != Trim(last.questionId) {
        assert done[i] in done && done[i].questionId in QuestionIds(done);
      }
    }
  }

  /** A sheet that names every question once, by its trimmed id, is accepted. */
  lemma {:induction false} DistinctSheetAccepted(answers: seq<Answer>)
    requires forall i :: 0 <= i < |answers| ==> Trim(answers[i].questionId) != ""
    requires forall i, j :: 0 <= i < j < |answers| ==> Trim(answers[i].questionId) != Trim(answers[j].questionId)
    ensures NormalizeAnswers(answers).Ok?
  {
    if answers != [] {
      var init, last := answers[..|answers| - 1], answers[|answers| - 1];
      DistinctSheetAccepted(init);
      NormalizedSheetMeaning(init);
      var done := NormalizeAnswers(init).value;
      forall a | a in done ensures a.questionId != Trim(last.questionId) {
        var i :| 0 <= i < |done| && done[i] == a;
        assert Trim(answers[i].questionId) != Trim(last.questionId);
      }
    }
  }

  /** A sheet is accepted exactly when it answers something and names, with white space trimmed, each question once
      and none by a blank id. */
  lemma SheetAcceptedExactly(answers: seq<Answer>)
    ensures NormalizeSheet(answers).Ok? <==>
              && answers != []
              && (forall i :: 0 <= i < |answers| ==> Trim(answers[i].questionId) != "")
              && (forall i, j :: 0 <= i < j < |answers| ==> Trim(answers[i].questionId) != Trim(answers[j].questionId))
  {
    if NormalizeSheet(answers).Ok? {
      NormalizedSheetMeaning(answers);
    }
    if (forall i :: 0 <= i < |answers| ==> Trim(answers[i].questionId) != "")
       && (forall i, j :: 0 <= i < j < |answers| ==> Trim(answers[i].questionId) != Trim(answers[j].questionId))
    {
      DistinctSheetAccepted(answers);
    }
  }

  // ---------- One question ----------

  predicate Earns(q: Question, a: Answer) {
    match q.kind
    case SingleChoice =>
      var correct := CorrectIds(q.config);
      correct.Some? && |correct.value| == 1 && |a.selected| == 1 && correct.value[0] == a.selected[0]
    case MultipleChoice =>
      var correct := CorrectIds(q.config);
      correct.Some? && SameStrings(correct.value, NormalizeSlice(a.selected))
    case TrueFalse =>
      var correct := CorrectBoolean(q.config);
      correct.Some? && a.boolean == correct
    case OtherType(_) => false
    case _ =>
      var accepted := AcceptedAnswers(q.config);
      accepted.Some? && a.text.Some? && Lower(Trim(a.text.value)) in accepted.value
  }

  function Earned(q: Question, a: Answer): real {
    if Earns(q, a) then q.points else 0.0
  }

  /** The loop over the accepted texts. */
  method OneEquals(accepted: seq<string>, candidate: string) returns (found: bool)
    ensures found == (candidate in accepted)
  {
    for i := 0 to |accepted|
      invariant candidate !in accepted[..i]
    {
      if candidate == accepted[i] {
        return true;
      }
    }
    assert accepted[..|accepted|] == accepted;
    return false;
  }

  method EvaluateQuestion(q: Question, a: Answer) returns (earned: real)
    ensures earned == Earned(q, a)
  {
    match q.kind {
      case SingleChoice =>
        var correct := ExtractCorrectOptionIDs(q.config);
        if correct.None? || |correct.value| != 1 || |a.selected| != 1 {
          return 0.0;
        }
        return if correct.value[0] == a.selected[0] then q.points else 0.0;
      case MultipleChoice =>
        var correct := ExtractCorrectOptionIDs(q.config);
        if correct.None? {
          return 0.0;
        }
        var selected := NormalizeStringSlice(a.selected);
        var same := SameStringSet(correct.value, selected);
        return if same then q.points else 0.0;
      case TrueFalse =>
        var correct := CorrectBoolean(q.config);
        if correct.None? || a.boolean.None? {
          return 0.0;
        }
        return if correct.value == a.boolean.value then q.points else 0.0;
      case OtherType(_) =>
        return 0.0;
      case _ =>
        var accepted := ExtractAcceptedAnswers(q.config);
        if accepted.None? || a.text.None? {
          return 0.0;
        }
        var found := OneEquals(accepted.value, Lower(Trim(a.text.value)));
        return if found then q.points else 0.0;
    }
  }

  // ---------- The whole sheet ----------

  /** The answer index: a later answer to the same question replaces an earlier one. */
  function AnswerMap(answers: seq<Answer>): map<string, Answer> {
    if answers == [] then map[]
    else
      var last := answers[|answers| - 1];
      AnswerMap(answers[..|answers| - 1])[last.questionId := last]
  }

  function EarnedBy(q: Question, index: map<string, Answer>): real {
    if q.id in index then Earned(q, index[q.id]) else 0.0
  }

  function TotalEarned(questions: seq<Question>, index: map<string, Answer>): real {
    if questions == [] then 0.0
    else TotalEarned(questions[..|questions| - 1], index) + EarnedBy(questions[|questions| - 1], index)
  }

  function TotalMax(questions: seq<Question>): real {
    if questions == [] then 0.0
    else TotalMax(questions[..|questions| - 1]) + questions[|questions| - 1].points
  }

  method EvaluateAttempt(questions: seq<Question>, answers: seq<Answer>) returns (totalEarned: real, totalMax: real)
    ensures totalEarned == TotalEarned(questions, AnswerMap(answers))
    ensures totalMax == TotalMax(questions)
  {
    var index: map<string, Answer> := map[];
    assert answers[..0] == [];
    for i := 0 to |answers|
      invariant index == AnswerMap(answers[..i])
    {
      assert answers[..i + 1][..i] == answers[..i];
      index := index[answers[i].questionId := answers[i]];
    }
    assert answers[..|answers|] == answers;
    totalEarned, totalMax := 0.0, 0.0;
    assert questions[..0] == [];
    for i := 0 to |questions|
      invariant totalEarned == TotalEarned(questions[..i], index)
      invariant totalMax == TotalMax(questions[..i])
    {
      assert questions[..i + 1][..i] == questions[..i];
      totalMax := totalMax + questions[i].points;
      if questions[i].id !in index {
        continue;
      }
      var earned := EvaluateQuestion(questions[i], index[questions[i].id]);
      totalEarned := totalEarned + earned;
    }
    assert questions[..|questions|] == questions;
  }

  // ---------- The pass mark ----------

  /** math.Round: to the nearest integer, halves away from zero. */
  function Round(x: real): int {
    if x >= 0.0 then (x + 0.5).Floor else -((0.5 - x).Floor)
  }

  function RoundToTwo(x: real): real {
    Round(x * 100.0) as real / 100.0
  }

  function ScorePercent(earned: real, max: real): real {
    if max > 0.0 then RoundToTwo(earned / max * 100.0) else 0.0
  }

  function EffectivePassPercent(passPercent: int): int {
    if passPercent > 0 then passPercent else DEFAULT_PASS_PERCENT
  }

  predicate Passes(earned: real, max: real, passPercent: int) {
    ScorePercent(earned, max) >= EffectivePassPercent(passPercent) as real
  }

  // ---------- What the database keeps ----------

  /** A points column holds two decimals and less than ten thousand (NUMERIC(6,2)). */
  predicate PointsFit(points: real) {
    -10000.0 < RoundToTwo(points) < 10000.0
  }

  /** A total column holds two decimals and less than a million (NUMERIC(8,2)), the score column less
      than a thousand (NUMERIC(5,2)). The totals are rounded before they are written. */
  predicate ResultFits(totalEarned: real, totalMax: real, score: real) {
    && -1000000.0 < totalEarned < 1000000.0
    && -1000000.0 < totalMax < 1000000.0
    && -1000.0 < score < 1000.0
  }
}
