/** What evaluation promises as a whole. */
module GradingTheorems {
  import opened Text
  import opened StringLists
  import opened QuestionConfig
  import opened Grading

  // ---------- The pass threshold ----------

  ghost predicate NonNegative(questions: seq<Question>) {
    forall q :: q in questions ==> q.points >= 0.0
  }

  lemma {:induction false} EarnedWithinMax(questions: seq<Question>, index: map<string, Answer>)
    requires NonNegative(questions)
    ensures 0.0 <= TotalEarned(questions, index) <= TotalMax(questions)
  {
    if questions != [] {
      var init := questions[..|questions| - 1];
      assert forall q :: q in init ==> q in questions;
      assert questions[|questions| - 1] in questions;
      EarnedWithinMax(init, index);
    }
  }

  lemma PercentBounds(earned: real, max: real)
    requires 0.0 <= earned <= max && max > 0.0
    ensures 0.0 <= earned / max * 100.0 <= 100.0
  {
    assert earned / max <= 1.0;
  }

  lemma RoundedThreshold(x: real, p: int)
    requires 0.0 <= x <= 100.0
    ensures 0.0 <= RoundToTwo(x) <= 100.0
    ensures RoundToTwo(x) >= p as real <==> x >= p as real - 0.005
  {
    var n := (x * 100.0 + 0.5).Floor;
    assert n as real <= x * 100.0 + 0.5 < n as real + 1.0;
    assert RoundToTwo(x) == n as real / 100.0;
    if x >= p as real - 0.005 {
      assert x * 100.0 + 0.5 >= (100 * p) as real;
      assert n >= 100 * p;
    }
    if n as real / 100.0 >= p as real {
      assert n as real >= 100.0 * p as real;
    }
  }

  /** The score lies between 0 and 100; the attempt passes exactly when the unrounded percentage
      reaches the pass mark less half a hundredth; a quiz without points is never passed. */
  lemma PassThreshold(questions: seq<Question>, index: map<string, Answer>, passPercent: int)
    requires NonNegative(questions)
    ensures var earned, max := TotalEarned(questions, index), TotalMax(questions);
            && 0.0 <= ScorePercent(earned, max) <= 100.0
            && (max > 0.0 ==> (Passes(earned, max, passPercent) <==>
                               earned / max * 100.0 >= EffectivePassPercent(passPercent) as real - 0.005))
            && (max == 0.0 ==> !Passes(earned, max, passPercent))
  {
    EarnedWithinMax(questions, index);
    var earned, max := TotalEarned(questions, index), TotalMax(questions);
    if max > 0.0 {
      PercentBounds(earned, max);
      RoundedThreshold(earned / max * 100.0, EffectivePassPercent(passPercent));
    }
  }

  lemma {:induction false} EarnedMonotone(questions: seq<Question>, before: map<string, Answer>,
                                          after: map<string, Answer>)
    requires forall q :: q in questions ==> EarnedBy(q, before) <= EarnedBy(q, after)
    ensures TotalEarned(questions, before) <= TotalEarned(questions, after)
  {
    if questions != [] {
      var init := questions[..|questions| - 1];
      assert forall q :: q in init ==> q in questions;
      assert questions[|questions| - 1] in questions;
      EarnedMonotone(init, before, after);
    }
  }

  lemma RoundMonotone(x: real, y: real)
    requires 0.0 <= x <= y
    ensures RoundToTwo(x) <= RoundToTwo(y)
  {
    assert (x * 100.0 + 0.5).Floor <= (y * 100.0 + 0.5).Floor;
  }

  lemma DivideMonotone(x: real, y: real, d: real)
    requires x <= y && d > 0.0
    ensures x / d * 100.0 <= y / d * 100.0
  {
    assert x / d <= y / d;
  }

  lemma ScoreMonotone(x: real, y: real, max: real)
    requires 0.0 <= x <= y <= max
    ensures ScorePercent(x, max) <= ScorePercent(y, max)
  {
    if max > 0.0 {
      PercentBounds(x, max);
      DivideMonotone(x, y, max);
      RoundMonotone(x / max * 100.0, y / max * 100.0);
    }
  }

  /** A sheet that earns at least as much on every question never fails where the other passed;
      in particular correcting one more answer never turns a pass into a fail. */
  lemma BetterSheetStillPasses(questions: seq<Question>, before: map<string, Answer>, after: map<string, Answer>,
                               passPercent: int)
    requires NonNegative(questions)
    requires forall q :: q in questions ==> EarnedBy(q, before) <= EarnedBy(q, after)
    requires Passes(TotalEarned(questions, before), TotalMax(questions), passPercent)
    ensures Passes(TotalEarned(questions, after), TotalMax(questions), passPercent)
  {
    EarnedMonotone(questions, before, after);
    EarnedWithinMax(questions, before);
    EarnedWithinMax(questions, after);
    ScoreMonotone(TotalEarned(questions, before), TotalEarned(questions, after), TotalMax(questions));
  }

  lemma CorrectingOneAnswer(questions: seq<Question>, index: map<string, Answer>, a: Answer, passPercent: int)
    requires NonNegative(questions)
    requires forall q :: q in questions && q.id == a.questionId ==> Earns(q, a)
    requires Passes(TotalEarned(questions, index), TotalMax(questions), passPercent)
    ensures Passes(TotalEarned(questions, index[a.questionId := a]), TotalMax(questions), passPercent)
  {
    BetterSheetStillPasses(questions, index, index[a.questionId := a], passPercent);
  }

  // ---------- What of a sheet matters ----------

  /** Multiple choice is set equality: an answer earns the points exactly when the selected ids
      are the correct ids, as sets of trimmed texts. */
  lemma MultipleChoiceIsSetEquality(q: Question, a: Answer)
    requires q.kind.MultipleChoice?
    ensures Earns(q, a) <==> CorrectIds(q.config).Some? && ToSet(CorrectIds(q.config).value) == TrimmedSet(a.selected)
  {
    NormalizeSliceContents(a.selected);
    if CorrectIds(q.config).Some? {
      var flagged := FlaggedIds(OptionsOf(q.config).value);
      NormalizeSliceContents(flagged);
      SameStringsIsSetEquality(NormalizeSlice(flagged), NormalizeSlice(a.selected));
    }
  }

  /** The same answer up to order, repetition and white space of the selected options. */
  ghost predicate SameAnswer(a: Answer, b: Answer) {
    a.text == b.text && a.boolean == b.boolean && TrimmedSet(a.selected) == TrimmedSet(b.selected)
  }

  lemma SameAnswerEarnsSame(q: Question, a: Answer, b: Answer)
    requires SameAnswer(a, b)
    ensures Earns(q, NormalizeAnswer(a)) == Earns(q, NormalizeAnswer(b))
  {
    var x, y := NormalizeSlice(a.selected), NormalizeSlice(b.selected);
    NormalizeSliceContents(a.selected);
    NormalizeSliceContents(b.selected);
    if q.kind.MultipleChoice? {
      MultipleChoiceIsSetEquality(q, NormalizeAnswer(a));
      MultipleChoiceIsSetEquality(q, NormalizeAnswer(b));
      NormalizeSliceIdempotent(a.selected);
      NormalizeSliceIdempotent(b.selected);
      NormalizeSliceContents(x);
      NormalizeSliceContents(y);
    } else if q.kind.SingleChoice? {
      DistinctCardinality(x);
      DistinctCardinality(y);
      if |x| == 1 {
        assert x[0] in ToSet(y);
      }
    }
  }

  lemma {:induction false} TotalDependsOnPoints(questions: seq<Question>, one: map<string, Answer>,
                                                two: map<string, Answer>)
    requires forall q :: q in questions ==> EarnedBy(q, one) == EarnedBy(q, two)
    ensures TotalEarned(questions, one) == TotalEarned(questions, two)
  {
    EarnedMonotone(questions, one, two);
    EarnedMonotone(questions, two, one);
  }

  /** The answer that an accepted sheet gives to a question, if any. */
  lemma {:induction false} AnswerMapOfDistinct(answers: seq<Answer>, i: nat)
    requires forall i, j :: 0 <= i < j < |answers| ==> answers[i].questionId != answers[j].questionId
    requires i < |answers|
    ensures answers[i].questionId in AnswerMap(answers) && AnswerMap(answers)[answers[i].questionId] == answers[i]
  {
    if i < |answers| - 1 {
      AnswerMapOfDistinct(answers[..|answers| - 1], i);
    }
  }

  lemma {:induction false} AnswerMapKeys(answers: seq<Answer>, id: string) returns (i: nat)
    requires id in AnswerMap(answers)
    ensures i < |answers| && answers[i].questionId == id && AnswerMap(answers)[id] == answers[i]
  {
    if answers[|answers| - 1].questionId == id {
      i := |answers| - 1;
    } else {
      i := AnswerMapKeys(answers[..|answers| - 1], id);
    }
  }

  /** `b` answers every question of the quiz that `a` answers, in the same way. */
  ghost predicate Covers(questions: seq<Question>, a: seq<Answer>, b: seq<Answer>) {
    forall q, i :: q in questions && 0 <= i < |a| && Trim(a[i].questionId) == q.id ==>
      exists j :: 0 <= j < |b| && Trim(b[j].questionId) == q.id && SameAnswer(a[i], b[j])
  }

  lemma CoveredQuestion(questions: seq<Question>, a: seq<Answer>, b: seq<Answer>, q: Question)
    requires NormalizeAnswers(a).Ok? && NormalizeAnswers(b).Ok? && Covers(questions, a, b) && q in questions
    ensures q.id in AnswerMap(NormalizeAnswers(a).value) ==>
              && q.id in AnswerMap(NormalizeAnswers(b).value)
              && EarnedBy(q, AnswerMap(NormalizeAnswers(a).value)) == EarnedBy(q, AnswerMap(NormalizeAnswers(b).value))
  {
    NormalizedSheetMeaning(a);
    NormalizedSheetMeaning(b);
    var x, y := NormalizeAnswers(a).value, NormalizeAnswers(b).value;
    if q.id in AnswerMap(x) {
      var i := AnswerMapKeys(x, q.id);
      var j :| 0 <= j < |b| && Trim(b[j].questionId) == q.id && SameAnswer(a[i], b[j]);
      AnswerMapOfDistinct(y, j);
      SameAnswerEarnsSame(q, a[i], b[j]);
    }
  }

  /** The total depends only on what is answered to the questions of the quiz: reordering the
      answers, reordering or repeating selected options, and answering unknown questions change
      nothing. */
  lemma TotalIgnoresPresentation(questions: seq<Question>, a: seq<Answer>, b: seq<Answer>)
    requires NormalizeAnswers(a).Ok? && NormalizeAnswers(b).Ok?
    requires Covers(questions, a, b) && Covers(questions, b, a)
    ensures TotalEarned(questions, AnswerMap(NormalizeAnswers(a).value))
         == TotalEarned(questions, AnswerMap(NormalizeAnswers(b).value))
  {
    var x, y := AnswerMap(NormalizeAnswers(a).value), AnswerMap(NormalizeAnswers(b).value);
    forall q | q in questions ensures EarnedBy(q, x) == EarnedBy(q, y) {
      CoveredQuestion(questions, a, b, q);
      CoveredQuestion(questions, b, a, q);
    }
    TotalDependsOnPoints(questions, x, y);
  }

  /** Handing in the same answers in another order. */
  lemma TotalIgnoresOrder(questions: seq<Question>, a: seq<Answer>, b: seq<Answer>)
    requires multiset(a) == multiset(b) && NormalizeAnswers(a).Ok? && NormalizeAnswers(b).Ok?
    ensures TotalEarned(questions, AnswerMap(NormalizeAnswers(a).value))
         == TotalEarned(questions, AnswerMap(NormalizeAnswers(b).value))
  {
    forall i | 0 <= i < |a| ensures exists j :: 0 <= j < |b| && b[j] == a[i] {
      assert a[i] in multiset(b);
    }
    forall i | 0 <= i < |b| ensures exists j :: 0 <= j < |a| && a[j] == b[i] {
      assert b[i] in multiset(a);
    }
    TotalIgnoresPresentation(questions, a, b);
  }

  // ---------- The totals as sums ----------

  /** The sheet has an answer to the question that earns its points. */
  predicate AnsweredRight(q: Question, sheet: seq<Answer>) {
    exists a :: a in sheet && a.questionId == q.id && Earns(q, a)
  }

  function RightOnes(questions: seq<Question>, sheet: seq<Answer>): seq<Question> {
    if questions == [] then []
    else
      var last := questions[|questions| - 1];
      RightOnes(questions[..|questions| - 1], sheet) + (if AnsweredRight(last, sheet) then [last] else [])
  }

  lemma EarnedIfRight(q: Question, sheet: seq<Answer>)
    requires forall i, j :: 0 <= i < j < |sheet| ==> sheet[i].questionId != sheet[j].questionId
    ensures EarnedBy(q, AnswerMap(sheet)) == if AnsweredRight(q, sheet) then q.points else 0.0
  {
    if q.id in AnswerMap(sheet) {
      var i := AnswerMapKeys(sheet, q.id);
      forall a | a in sheet && a.questionId == q.id ensures a == sheet[i] {
        var j :| 0 <= j < |sheet| && sheet[j] == a;
      }
    } else if AnsweredRight(q, sheet) {
      var a :| a in sheet && a.questionId == q.id && Earns(q, a);
      var i :| 0 <= i < |sheet| && sheet[i] == a;
      AnswerMapOfDistinct(sheet, i);
    }
  }

  lemma TotalMaxMore(questions: seq<Question>, q: Question)
    ensures TotalMax(questions + [q]) == TotalMax(questions) + q.points
  {
    assert (questions + [q])[..|questions|] == questions;
  }

  /** The earned total is the sum of the points of the questions that the sheet answers rightly. */
  lemma {:induction false} EarnedIsSumOfRight(questions: seq<Question>, sheet: seq<Answer>)
    requires forall i, j :: 0 <= i < j < |sheet| ==> sheet[i].questionId != sheet[j].questionId
    ensures TotalEarned(questions, AnswerMap(sheet)) == TotalMax(RightOnes(questions, sheet))
  {
    if questions != [] {
      var init, last := questions[..|questions| - 1], questions[|questions| - 1];
      EarnedIsSumOfRight(init, sheet);
      EarnedIfRight(last, sheet);
      if AnsweredRight(last, sheet) {
        TotalMaxMore(RightOnes(init, sheet), last);
      } else {
        assert RightOnes(questions, sheet) == RightOnes(init, sheet);
      }
    }
  }

  /** Rounding gives the nearest hundredth, the upper one of two that are equally near. */
  lemma RoundToTwoIsNearest(x: real) returns (n: int)
    requires x >= 0.0
    ensures RoundToTwo(x) == n as real / 100.0
    ensures RoundToTwo(x) - 0.005 <= x < RoundToTwo(x) + 0.005
  {
    n := (x * 100.0 + 0.5).Floor;
    assert RoundToTwo(x) * 100.0 == n as real;
  }
}
