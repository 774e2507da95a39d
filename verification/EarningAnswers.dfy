/** Which answers earn the points of an accepted question once it is stored, told by what its configuration
    says. */
module EarningAnswers {
  import opened Basics
  import opened Text
  import opened StringLists
  import opened JsonDocs
  import opened QuestionConfig
  import opened StoredConfig
  import opened ConfigMeaning
  import opened QuizValidation
  import opened Grading
  import opened GradingTheorems
  import opened PassableQuiz

  /** The question was accepted from the given configuration, which spells each tag once, and stored. */
  predicate StoredFrom(q: Question, given: Raw) {
    Sound(q.kind, given) && OneSpelling(given) && q.config == StoredRaw(given)
  }

  lemma StoredFlaggedIds(q: Question, given: Raw)
    requires StoredFrom(q, given) && (q.kind.SingleChoice? || q.kind.MultipleChoice?)
    ensures CorrectIds(q.config) == Some(FlaggedIds(OptionsOf(given).value))
  {
    StoredReading(given);
    ScanCount(OptionsOf(given).value);
  }

  lemma SelectedAlone(q: Question, correct: string)
    requires q.kind.SingleChoice? && CorrectIds(q.config) == Some([correct])
    ensures forall a :: Earns(q, a) <==> a.selected == [correct]
  {
  }

  /** An accepted single-choice question has one correct option, and an answer earns the points
      exactly when it selects that option alone. */
  lemma SingleChoiceHasOneAnswer(q: Question, given: Raw) returns (correct: Choice)
    requires q.kind.SingleChoice? && StoredFrom(q, given)
    ensures correct in OptionsOf(given).value && Flagged(correct)
    ensures forall a :: Earns(q, a) <==> a.selected == [Trim(correct.id)]
  {
    var options := OptionsOf(given).value;
    StoredFlaggedIds(q, given);
    ScanCount(options);
    var id := FlaggedIds(options)[0];
    FlaggedIdsContents(options, id);
    correct :| correct in options && Flagged(correct) && id == Trim(correct.id);
    assert FlaggedIds(options) == [id];
    SelectedAlone(q, id);
  }

  function CorrectOptions(options: seq<Choice>): set<string> {
    set c | c in options && Flagged(c) :: Trim(c.id)
  }

  lemma FlaggedIdsAsSet(options: seq<Choice>)
    ensures ToSet(FlaggedIds(options)) == CorrectOptions(options)
  {
    forall id ensures id in ToSet(FlaggedIds(options)) <==> id in CorrectOptions(options) {
      FlaggedIdsContents(options, id);
    }
  }

  /** An answer to an accepted multiple-choice question earns the points exactly when the options it selects are
      the correct ones. */
  lemma MultipleChoiceAnswers(q: Question, given: Raw, a: Answer)
    requires q.kind.MultipleChoice? && StoredFrom(q, given)
    ensures Earns(q, a) <==> TrimmedSet(a.selected) == CorrectOptions(OptionsOf(given).value)
  {
    StoredFlaggedIds(q, given);
    MultipleChoiceIsSetEquality(q, a);
    FlaggedIdsAsSet(OptionsOf(given).value);
  }

  lemma BooleanEarns(q: Question, correct: bool)
    requires q.kind.TrueFalse? && CorrectOf(q.config) == Some(Some(correct))
    ensures forall a :: Earns(q, a) <==> a.boolean == Some(correct)
  {
  }

  lemma SoundBoolean(given: Raw) returns (correct: bool)
    requires Sound(TrueFalse, given) && OneSpelling(given)
    ensures CorrectOf(given) == Some(Some(correct))
    ensures Says(given.doc, "correct", BoolDoc(correct)) && !Says(given.doc, "correct", BoolDoc(!correct))
  {
    correct := CorrectOf(given).value.value;
    CorrectMeaning(given.doc, correct);
    CorrectMeaning(given.doc, !correct);
  }

  /** An accepted true-false question says one boolean, and exactly the answers that give it earn the points. */
  lemma TrueFalseHasOneAnswer(q: Question, given: Raw) returns (correct: bool)
    requires q.kind.TrueFalse? && StoredFrom(q, given)
    ensures Says(given.doc, "correct", BoolDoc(correct)) && !Says(given.doc, "correct", BoolDoc(!correct))
    ensures forall a :: Earns(q, a) <==> a.boolean == Some(correct)
  {
    StoredReading(given);
    correct := SoundBoolean(given);
    BooleanEarns(q, correct);
  }

  lemma LowerOfBlank(s: string)
    ensures Lower(s) == "" <==> s == ""
  {
    assert |Lower(s)| == |s|;
  }

  /** Up to letter case and white space around them, the two texts are the same, and not blank. */
  predicate SameText(s: string, text: string) {
    Trim(s) != "" && Lower(Trim(s)) == Lower(Trim(text))
  }

  lemma SameAsListed(accepted: seq<string>, text: string)
    ensures Lower(Trim(text)) in Folded(accepted) <==> exists s :: s in accepted && SameText(s, text)
  {
    FoldedContents(accepted, Lower(Trim(text)));
    LowerOfBlank(Trim(text));
    forall s | s in accepted && Lower(Trim(text)) == Lower(Trim(s)) ensures Lower(Trim(text)) != "" <==> Trim(s) != "" {
      LowerOfBlank(Trim(s));
    }
  }

  lemma TextEarns(q: Question, accepted: seq<string>, a: Answer)
    requires (q.kind.ShortAnswer? || q.kind.FillBlank?) && AcceptedAnswers(q.config) == Some(Folded(accepted))
    ensures Earns(q, a) <==> a.text.Some? && exists s :: s in accepted && SameText(s, a.text.value)
  {
    if a.text.Some? {
      SameAsListed(accepted, a.text.value);
    }
  }

  /** An answer to an accepted text question earns the points exactly when its text is, up to letter case and white
      space around it, one of the listed answers that are not blank. */
  lemma TextAnswers(q: Question, given: Raw, a: Answer)
    requires (q.kind.ShortAnswer? || q.kind.FillBlank?) && StoredFrom(q, given)
    ensures Earns(q, a) <==> a.text.Some? && exists s :: ListsAnswer(given.doc, s) && SameText(s, a.text.value)
  {
    StoredReading(given);
    var accepted := AcceptedOf(given).value;
    TextEarns(q, accepted, a);
    assert Trim("") == "";
    forall s | Trim(s) != "" ensures s in accepted <==> ListsAnswer(given.doc, s) {
      AcceptedMeaning(given.doc, s);
    }
  }
}
