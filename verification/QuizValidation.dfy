/** Which quizzes a course may have: the checks and defaults of `normalizeQuestionPayloads`
    and `normalizeQuizScoringAndAttempts`. */
module QuizValidation {
  import opened Basics
  import opened Text
  import opened StringLists
  import opened JsonDocs
  import opened QuestionConfig

  datatype QuestionType = SingleChoice | MultipleChoice | TrueFalse | ShortAnswer | FillBlank | OtherType(name: string)

  datatype Prompt = Prompt(ru: string, tj: string)

  datatype Payload = Payload(position: int, kind: QuestionType, prompt: Prompt, points: real, config: Raw)

  datatype FieldError = FieldError(field: string, code: string)

  /** The first question that was refused, and why. */
  datatype Rejection = Rejection(index: nat, errors: seq<FieldError>)

  // ---------- Options ----------

  function TrimmedIds(options: seq<Choice>): set<string> {
    set c | c in options :: Trim(c.id)
  }

  /** The scan over the options: correct ones counted up to the first blank or repeated id. */
  function ScanOptions(options: seq<Choice>): (nat, bool) {
    if options == [] then (0, true)
    else
      var init, last := options[..|options| - 1], options[|options| - 1];
      var (count, ok) := ScanOptions(init);
      var id := Trim(last.id);
      if !ok || id == "" || id in TrimmedIds(init) then (count, false)
      else (count + (if Flagged(last) then 1 else 0), true)
  }

  lemma {:induction false} ScanStopsAtFirstBad(options: seq<Choice>, i: nat)
    requires i <= |options| && !ScanOptions(options[..i]).1
    ensures ScanOptions(options) == ScanOptions(options[..i])
  {
    if i < |options| {
      var init := options[..|options| - 1];
      assert init[..i] == options[..i];
      ScanStopsAtFirstBad(init, i);
    } else {
      assert options[..i] == options;
    }
  }

  lemma TrimmedIdsMore(init: seq<Choice>, last: Choice)
    ensures TrimmedIds(init + [last]) == TrimmedIds(init) + {Trim(last.id)}
  {
  }

  /** The scan so far, after one more option. */
  function ScannedWith(count: nat, seen: set<string>, last: Choice): (nat, bool) {
    if Trim(last.id) == "" || Trim(last.id) in seen then (count, false)
    else (count + (if Flagged(last) then 1 else 0), true)
  }

  lemma ScanMore(init: seq<Choice>, last: Choice, count: nat)
    requires ScanOptions(init) == (count, true)
    ensures ScanOptions(init + [last]) == ScannedWith(count, TrimmedIds(init), last)
  {
    assert (init + [last])[..|init|] == init;
  }

  lemma ScanOneMore(options: seq<Choice>, i: nat, count: nat)
    requires i < |options| && ScanOptions(options[..i]) == (count, true)
    ensures TrimmedIds(options[..i + 1]) == TrimmedIds(options[..i]) + {Trim(options[i].id)}
    ensures ScanOptions(options[..i + 1]) == ScannedWith(count, TrimmedIds(options[..i]), options[i])
  {
    assert options[..i + 1] == options[..i] + [options[i]];
    TrimmedIdsMore(options[..i], options[i]);
    ScanMore(options[..i], options[i], count);
  }

  method ValidateChoiceOptions(options: seq<Choice>) returns (correctCount: nat, ok: bool)
    ensures ok == (options != [] && ScanOptions(options).1)
    ensures correctCount == if options == [] then 0 else ScanOptions(options).0
  {
    if |options| == 0 {
      return 0, false;
    }
    correctCount := 0;
    var seenIDs: set<string> := {};
    for i := 0 to |options|
      invariant ScanOptions(options[..i]) == (correctCount, true)
      invariant seenIDs == TrimmedIds(options[..i])
    {
      ScanOneMore(options, i, correctCount);
      var id := Trim(options[i].id);
      if id == "" || id in seenIDs {
        ScanStopsAtFirstBad(options, i + 1);
        return correctCount, false;
      }
      seenIDs := seenIDs + {id};
      if Flagged(options[i]) {
        correctCount := correctCount + 1;
      }
    }
    assert options[..|options|] == options;
    return correctCount, true;
  }

  ghost predicate UsableIds(options: seq<Choice>) {
    && (forall i :: 0 <= i < |options| ==> Trim(options[i].id) != "")
    && (forall i, j :: 0 <= i < j < |options| ==> Trim(options[i].id) != Trim(options[j].id))
  }

  lemma UsableIdsMore(init: seq<Choice>, last: Choice)
    ensures UsableIds(init + [last]) <==> UsableIds(init) && Trim(last.id) != "" && Trim(last.id) !in TrimmedIds(init)
  {
    var all := init + [last];
    assert all[|init|] == last && forall i :: 0 <= i < |init| ==> all[i] == init[i];
    if UsableIds(all) {
      forall c | c in init ensures Trim(c.id) != Trim(last.id) {
        var k :| 0 <= k < |init| && init[k] == c;
        assert Trim(all[k].id) != Trim(all[|init|].id);
      }
    }
    if Trim(last.id) !in TrimmedIds(init) {
      assert forall i :: 0 <= i < |init| ==> init[i] in init && Trim(init[i].id) in TrimmedIds(init);
    }
  }

  /** The scan accepts exactly the option lists with non-blank distinct ids. */
  lemma {:induction false} ScanMeaning(options: seq<Choice>)
    ensures ScanOptions(options).1 <==> UsableIds(options)
  {
    if options != [] {
      var init, last := options[..|options| - 1], options[|options| - 1];
      assert options == init + [last];
      ScanMeaning(init);
      UsableIdsMore(init, last);
    }
  }

  /** On an accepted list the count is the number of distinct correct ids that evaluation extracts. */
  lemma {:induction false} ScanCount(options: seq<Choice>)
    requires ScanOptions(options).1
    ensures NormalizeSlice(FlaggedIds(options)) == FlaggedIds(options)
    ensures |FlaggedIds(options)| == ScanOptions(options).0
    ensures forall x :: x in FlaggedIds(options) ==> x in TrimmedIds(options)
  {
    if options != [] {
      var init, last := options[..|options| - 1], options[|options| - 1];
      assert options == init + [last];
      ScanCount(init);
      TrimIdempotent(last.id);
      var flagged, id := FlaggedIds(init), Trim(last.id);
      if Flagged(last) {
        assert (flagged + [id])[..|flagged|] == flagged;
        assert id !in flagged;
      } else {
        assert FlaggedIds(options) == flagged;
      }
    }
  }

  // ---------- One question ----------

  function ChoiceErrors(options: seq<Choice>, exactlyOne: bool): seq<FieldError> {
    var ok := options != [] && ScanOptions(options).1;
    var count := if options == [] then 0 else ScanOptions(options).0;
    (if ok then [] else [FieldError("options", "required")])
    + (if (exactlyOne && count != 1) || count < 1 then [FieldError("options", "invalid_correct_count")] else [])
  }

  /** Validation decodes the whole configuration at once. */
  predicate Decodes(raw: Raw) {
    OptionsOf(raw).Some? && CorrectOf(raw).Some? && AcceptedOf(raw).Some?
  }

  function TextErrors(accepted: seq<string>): seq<FieldError> {
    if NormalizeSlice(accepted) == [] then [FieldError("accepted_answers", "required")] else []
  }

  function ConfigErrors(kind: QuestionType, raw: Raw): seq<FieldError> {
    if !Decodes(raw) then [FieldError("", "invalid_json")]
    else
      match kind
      case SingleChoice => ChoiceErrors(OptionsOf(raw).value, true)
      case MultipleChoice => ChoiceErrors(OptionsOf(raw).value, false)
      case TrueFalse => if CorrectOf(raw).value.None? then [FieldError("correct", "required")] else []
      case ShortAnswer => TextErrors(AcceptedOf(raw).value)
      case FillBlank => TextErrors(AcceptedOf(raw).value)
      case OtherType(_) => []
  }

  method ValidateQuestionConfig(kind: QuestionType, raw: Raw) returns (errors: seq<FieldError>)
    ensures errors == ConfigErrors(kind, raw)
  {
    if !Decodes(raw) {
      return [FieldError("", "invalid_json")];
    }
    errors := [];
    match kind {
      case SingleChoice =>
        var correctCount, optionsOK := ValidateChoiceOptions(OptionsOf(raw).value);
        if !optionsOK {
          errors := errors + [FieldError("options", "required")];
        }
        if correctCount != 1 {
          errors := errors + [FieldError("options", "invalid_correct_count")];
        }
      case MultipleChoice =>
        var correctCount, optionsOK := ValidateChoiceOptions(OptionsOf(raw).value);
        if !optionsOK {
          errors := errors + [FieldError("options", "required")];
        }
        if correctCount < 1 {
          errors := errors + [FieldError("options", "invalid_correct_count")];
        }
      case TrueFalse =>
        if CorrectOf(raw).value.None? {
          errors := errors + [FieldError("correct", "required")];
        }
      case OtherType(_) =>
      case _ =>
        var accepted := NormalizeStringSlice(AcceptedOf(raw).value);
        if |accepted| == 0 {
          errors := errors + [FieldError("accepted_answers", "required")];
        }
    }
  }

  function PromptErrors(prompt: Prompt): seq<FieldError> {
    (if Trim(prompt.ru) == "" then [FieldError("prompt.ru", "required")] else [])
    + (if Trim(prompt.tj) == "" then [FieldError("prompt.tj", "required")] else [])
  }

  function PositionOf(q: Payload, index: nat): int {
    if q.position <= 0 then index + 1 else q.position
  }

  /** The defaults: position by index, one point, an empty configuration. */
  function WithDefaults(q: Payload, index: nat): Payload {
    q.(position := PositionOf(q, index),
       points := if q.points <= 0.0 then 1.0 else q.points,
       config := if q.config.Empty? then Parsed(EMPTY_DOC) else q.config)
  }

  /** What is wrong with the question itself; the first failing check is reported alone. */
  function QuestionErrors(q: Payload, index: nat): seq<FieldError> {
    if q.kind.OtherType? then [FieldError("type", "invalid_enum")]
    else if PromptErrors(q.prompt) != [] then PromptErrors(q.prompt)
    else ConfigErrors(q.kind, WithDefaults(q, index).config)
  }

  // ---------- The whole list ----------

  function Positions(questions: seq<Payload>): set<int> {
    set q | q in questions :: q.position
  }

  /** The list with one more question accepted, or the reason why it is not. */
  function Extended(done: seq<Payload>, q: Payload, index: nat): Result<seq<Payload>, Rejection> {
    if PositionOf(q, index) in Positions(done) then Err(Rejection(index, [FieldError("position", "duplicate")]))
    else if QuestionErrors(q, index) != [] then Err(Rejection(index, QuestionErrors(q, index)))
    else Ok(done + [WithDefaults(q, index)])
  }

  function NormalizeQuestions(payloads: seq<Payload>): Result<seq<Payload>, Rejection> {
    if payloads == [] then Ok([])
    else
      var index := |payloads| - 1;
      var before := NormalizeQuestions(payloads[..index]);
      if before.Err? then before else Extended(before.value, payloads[index], index)
  }

  lemma {:induction false} FirstRejectionStands(payloads: seq<Payload>, i: nat)
    requires i <= |payloads| && NormalizeQuestions(payloads[..i]).Err?
    ensures NormalizeQuestions(payloads) == NormalizeQuestions(payloads[..i])
  {
    if i < |payloads| {
      var init := payloads[..|payloads| - 1];
      assert init[..i] == payloads[..i];
      FirstRejectionStands(init, i);
    } else {
      assert payloads[..i] == payloads;
    }
  }

  lemma PositionsMore(questions: seq<Payload>, q: Payload)
    ensures Positions(questions + [q]) == Positions(questions) + {q.position}
  {
  }

  lemma OneMoreQuestion(payloads: seq<Payload>, index: nat, done: seq<Payload>)
    requires index < |payloads| && NormalizeQuestions(payloads[..index]) == Ok(done)
    ensures NormalizeQuestions(payloads[..index + 1]) == Extended(done, payloads[index], index)
    ensures Extended(done, payloads[index], index).Err? ==>
            NormalizeQuestions(payloads) == Extended(done, payloads[index], index)
  {
    assert payloads[..index + 1][..index] == payloads[..index];
    if NormalizeQuestions(payloads[..index + 1]).Err? {
      FirstRejectionStands(payloads, index + 1);
    }
  }

  /** The loop body. `positions` is the index of the positions taken so far. */
  method NormalizeQuestion(normalized: seq<Payload>, positions: set<int>, given: Payload, index: nat)
    returns (r: Result<seq<Payload>, Rejection>)
    requires positions == Positions(normalized)
    ensures r == Extended(normalized, given, index)
  {
    var question := given;
    if question.position <= 0 {
      question := question.(position := index + 1);
    }
    if question.position in positions {
      return Err(Rejection(index, [FieldError("position", "duplicate")]));
    }
    if question.kind.OtherType? {
      return Err(Rejection(index, [FieldError("type", "invalid_enum")]));
    }
    if PromptErrors(question.prompt) != [] {
      return Err(Rejection(index, PromptErrors(question.prompt)));
    }
    if question.points <= 0.0 {
      question := question.(points := 1.0);
    }
    if question.config.Empty? {
      question := question.(config := Parsed(EMPTY_DOC));
    }
    var errors := ValidateQuestionConfig(question.kind, question.config);
    if errors != [] {
      return Err(Rejection(index, errors));
    }
    return Ok(normalized + [question]);
  }

  method NormalizeQuestionPayloads(payloads: seq<Payload>) returns (r: Result<seq<Payload>, Rejection>)
    ensures r == NormalizeQuestions(payloads)
  {
    var normalized: seq<Payload> := [];
    var positions: set<int> := {};
    assert payloads[..0] == [];
    for index := 0 to |payloads|
      invariant NormalizeQuestions(payloads[..index]) == Ok(normalized)
      invariant positions == Positions(normalized)
    {
      OneMoreQuestion(payloads, index, normalized);
      var next := NormalizeQuestion(normalized, positions, payloads[index], index);
      if next.Err? {
        return next;
      }
      PositionsMore(normalized, WithDefaults(payloads[index], index));
      positions := positions + {PositionOf(payloads[index], index)};
      normalized := next.value;
    }
    assert payloads[..|payloads|] == payloads;
    return Ok(normalized);
  }

  ghost predicate DistinctPositions(payloads: seq<Payload>) {
    forall i, j :: 0 <= i < j < |payloads| ==> PositionOf(payloads[i], i) != PositionOf(payloads[j], j)
  }

  ghost predicate AllSound(payloads: seq<Payload>) {
    forall i :: 0 <= i < |payloads| ==> QuestionErrors(payloads[i], i) == []
  }

  ghost predicate AllWithDefaults(payloads: seq<Payload>, done: seq<Payload>) {
    |done| == |payloads| && forall i :: 0 <= i < |payloads| ==> done[i] == WithDefaults(payloads[i], i)
  }

  /** What acceptance means for the outcome `r` of a list. */
  ghost predicate AcceptedAs(payloads: seq<Payload>, r: Result<seq<Payload>, Rejection>) {
    && (r.Ok? <==> AllSound(payloads) && DistinctPositions(payloads))
    && (r.Ok? ==> AllWithDefaults(payloads, r.value))
  }

  lemma DefaultsOneMore(payloads: seq<Payload>, done: seq<Payload>)
    requires payloads != [] && AllWithDefaults(payloads[..|payloads| - 1], done)
    ensures AllWithDefaults(payloads, done + [WithDefaults(payloads[|payloads| - 1], |payloads| - 1)])
  {
  }

  lemma SoundOneMore(payloads: seq<Payload>)
    requires payloads != []
    ensures var index := |payloads| - 1;
            AllSound(payloads) <==> AllSound(payloads[..index]) && QuestionErrors(payloads[index], index) == []
  {
    var index := |payloads| - 1;
    assert payloads == payloads[..index] + [payloads[index]];
  }

  lemma PositionsOfDone(payloads: seq<Payload>, done: seq<Payload>)
    requires payloads != [] && |done| == |payloads| - 1 && DistinctPositions(payloads[..|payloads| - 1])
    requires forall i :: 0 <= i < |done| ==> done[i] == WithDefaults(payloads[i], i)
    ensures DistinctPositions(payloads) <==> PositionOf(payloads[|done|], |done|) !in Positions(done)
  {
    var p := PositionOf(payloads[|done|], |done|);
    if p in Positions(done) {
      var q :| q in done && q.position == p;
      var i :| 0 <= i < |done| && done[i] == q;
      assert PositionOf(payloads[i], i) == PositionOf(payloads[|done|], |done|);
    } else {
      forall i, j | 0 <= i < j < |payloads| ensures PositionOf(payloads[i], i) != PositionOf(payloads[j], j) {
        assert done[i] in done && done[i].position in Positions(done);
        if j < |done| {
          assert payloads[..|payloads| - 1][i] == payloads[i] && payloads[..|payloads| - 1][j] == payloads[j];
        }
      }
    }
  }

  lemma ExtendedAccepts(payloads: seq<Payload>, done: seq<Payload>)
    requires payloads != [] && AcceptedAs(payloads[..|payloads| - 1], Ok(done))
    ensures AcceptedAs(payloads, Extended(done, payloads[|payloads| - 1], |payloads| - 1))
  {
    SoundOneMore(payloads);
    PositionsOfDone(payloads, done);
    DefaultsOneMore(payloads, done);
  }

  lemma PositionsOfPrefix(payloads: seq<Payload>)
    requires payloads != []
    ensures DistinctPositions(payloads) ==> DistinctPositions(payloads[..|payloads| - 1])
  {
  }

  lemma AcceptedOneMore(payloads: seq<Payload>, before: Result<seq<Payload>, Rejection>)
    requires payloads != [] && AcceptedAs(payloads[..|payloads| - 1], before)
    ensures var index := |payloads| - 1;
            AcceptedAs(payloads, if before.Err? then before else Extended(before.value, payloads[index], index))
  {
    if before.Ok? {
      ExtendedAccepts(payloads, before.value);
    } else {
      PositionsOfPrefix(payloads);
      SoundOneMore(payloads);
    }
  }

  /** A list is accepted exactly when every question is sound on its own and no two questions end
      up at the same position; the accepted list is the input with the defaults filled in. */
  lemma {:induction false} AcceptanceMeaning(payloads: seq<Payload>)
    ensures NormalizeQuestions(payloads).Ok? <==> AllSound(payloads) && DistinctPositions(payloads)
    ensures NormalizeQuestions(payloads).Ok? ==> AllWithDefaults(payloads, NormalizeQuestions(payloads).value)
  {
    if payloads != [] {
      var init := payloads[..|payloads| - 1];
      AcceptanceMeaning(init);
      AcceptedOneMore(payloads, NormalizeQuestions(init));
    }
  }

  // ---------- What acceptance means ----------

  lemma {:induction false} FlaggedIdsNone(options: seq<Choice>)
    ensures FlaggedIds(options) == [] <==> forall c :: c in options ==> !Flagged(c)
  {
    if options != [] {
      var init, last := options[..|options| - 1], options[|options| - 1];
      assert options == init + [last];
      FlaggedIdsNone(init);
    }
  }

  predicate FlaggedAt(options: seq<Choice>, i: int) {
    0 <= i < |options| && Flagged(options[i])
  }

  /** Exactly one of the options is correct. */
  ghost predicate OneFlagged(options: seq<Choice>) {
    exists i :: FlaggedAt(options, i) && forall j :: 0 <= j < |options| && j != i ==> !Flagged(options[j])
  }

  lemma OneFlaggedMore(init: seq<Choice>, last: Choice)
    ensures OneFlagged(init + [last]) <==>
              if Flagged(last) then forall c :: c in init ==> !Flagged(c) else OneFlagged(init)
  {
    var options := init + [last];
    assert forall j :: 0 <= j < |init| ==> options[j] == init[j];
    if Flagged(last) {
      assert FlaggedAt(options, |init|);
    }
    if OneFlagged(init) {
      var i :| FlaggedAt(init, i) && forall j :: 0 <= j < |init| && j != i ==> !Flagged(init[j]);
      assert FlaggedAt(options, i);
    }
    if OneFlagged(options) {
      var i :| FlaggedAt(options, i) && forall j :: 0 <= j < |options| && j != i ==> !Flagged(options[j]);
      assert i < |init| ==> FlaggedAt(init, i);
    }
  }

  lemma {:induction false} FlaggedIdsOne(options: seq<Choice>)
    ensures |FlaggedIds(options)| == 1 <==> OneFlagged(options)
  {
    if options != [] {
      var init, last := options[..|options| - 1], options[|options| - 1];
      assert options == init + [last];
      FlaggedIdsOne(init);
      FlaggedIdsNone(init);
      OneFlaggedMore(init, last);
    }
  }

  /** What a configuration must say: options with non-blank distinct ids, one of them correct or at least one; the
      boolean; or some text that is not blank. */
  ghost predicate SaysEnough(kind: QuestionType, config: Raw) {
    && Decodes(config)
    && match kind
       case SingleChoice => UsableIds(OptionsOf(config).value) && OneFlagged(OptionsOf(config).value)
       case MultipleChoice =>
         UsableIds(OptionsOf(config).value) && exists c :: c in OptionsOf(config).value && Flagged(c)
       case TrueFalse => CorrectOf(config).value.Some?
       case OtherType(_) => true
       case _ => exists text :: text in AcceptedOf(config).value && Trim(text) != ""
  }

  lemma ChoiceErrorsExactly(options: seq<Choice>, exactlyOne: bool)
    ensures ChoiceErrors(options, exactlyOne) == [] <==>
              UsableIds(options)
              && (if exactlyOne then OneFlagged(options) else exists c :: c in options && Flagged(c))
  {
    ScanMeaning(options);
    FlaggedIdsOne(options);
    FlaggedIdsNone(options);
    if options != [] && ScanOptions(options).1 {
      ScanCount(options);
    }
  }

  lemma TextErrorsExactly(accepted: seq<string>)
    ensures TextErrors(accepted) == [] <==> exists text :: text in accepted && Trim(text) != ""
  {
    NormalizeSliceContents(accepted);
    if NormalizeSlice(accepted) != [] {
      assert NormalizeSlice(accepted)[0] in ToSet(NormalizeSlice(accepted));
    }
    if text :| text in accepted && Trim(text) != "" {
      assert Trim(text) in TrimmedSet(accepted);
    }
  }

  lemma ConfigErrorsExactly(kind: QuestionType, config: Raw)
    ensures ConfigErrors(kind, config) == [] <==> SaysEnough(kind, config)
  {
    if Decodes(config) {
      ChoiceErrorsExactly(OptionsOf(config).value, true);
      ChoiceErrorsExactly(OptionsOf(config).value, false);
      TextErrorsExactly(AcceptedOf(config).value);
    }
  }

  /** Which errors a configuration is refused with, told by what it lacks. */
  lemma ConfigErrorCodes(kind: QuestionType, config: Raw)
    ensures !Decodes(config) ==> ConfigErrors(kind, config) == [FieldError("", "invalid_json")]
    ensures Decodes(config) && (kind.SingleChoice? || kind.MultipleChoice?) ==>
              && var options, errors := OptionsOf(config).value, ConfigErrors(kind, config);
              && (FieldError("options", "required") in errors <==> options == [] || !UsableIds(options))
              && (UsableIds(options) ==>
                    (FieldError("options", "invalid_correct_count") in errors <==>
                       if kind.SingleChoice? then !OneFlagged(options) else forall c :: c in options ==> !Flagged(c)))
    ensures Decodes(config) && kind.TrueFalse? && CorrectOf(config).value.None? ==>
              ConfigErrors(kind, config) == [FieldError("correct", "required")]
    ensures Decodes(config) && (kind.ShortAnswer? || kind.FillBlank?) && !SaysEnough(kind, config) ==>
              ConfigErrors(kind, config) == [FieldError("accepted_answers", "required")]
  {
    if Decodes(config) {
      var options := OptionsOf(config).value;
      ScanMeaning(options);
      FlaggedIdsOne(options);
      FlaggedIdsNone(options);
      TextErrorsExactly(AcceptedOf(config).value);
      if ScanOptions(options).1 {
        ScanCount(options);
      }
    }
  }

  /** The reported question is the first that is refused. */
  lemma {:induction false} RejectionIsFirst(payloads: seq<Payload>)
    requires NormalizeQuestions(payloads).Err?
    ensures var r := NormalizeQuestions(payloads).error;
            && r.index < |payloads| && NormalizeQuestions(payloads[..r.index]).Ok?
            && (|| r.errors == [FieldError("position", "duplicate")]
                || r.errors == QuestionErrors(payloads[r.index], r.index))
  {
    var index := |payloads| - 1;
    if NormalizeQuestions(payloads[..index]).Err? {
      RejectionIsFirst(payloads[..index]);
      assert payloads[..index][..NormalizeQuestions(payloads).error.index]
          == payloads[..NormalizeQuestions(payloads).error.index];
    }
  }

  /** A known type, a text in both languages, and a configuration that says enough; an empty configuration counts
      as the empty object. */
  ghost predicate GoodQuestion(q: Payload) {
    && !q.kind.OtherType? && Trim(q.prompt.ru) != "" && Trim(q.prompt.tj) != ""
    && SaysEnough(q.kind, if q.config.Empty? then Parsed(EMPTY_DOC) else q.config)
  }

  /** A list of questions is accepted exactly when every question is good and no two share a position, where a
      question without a positive position takes its place in the list. Then it is kept as it is, but for this
      position, one point where none are given, and the empty object for no configuration. */
  lemma QuizAcceptedExactly(payloads: seq<Payload>)
    ensures NormalizeQuestions(payloads).Ok? <==>
              && (forall i :: 0 <= i < |payloads| ==> GoodQuestion(payloads[i]))
              && (forall i, j :: 0 <= i < j < |payloads| ==>
                    (if payloads[i].position > 0 then payloads[i].position else i + 1)
                    != (if payloads[j].position > 0 then payloads[j].position else j + 1))
    ensures NormalizeQuestions(payloads).Ok? ==>
              && |NormalizeQuestions(payloads).value| == |payloads|
              && forall i :: 0 <= i < |payloads| ==>
                   var given, kept := payloads[i], NormalizeQuestions(payloads).value[i];
                   && kept.kind == given.kind && kept.prompt == given.prompt
                   && kept.position == (if given.position > 0 then given.position else i + 1)
                   && kept.points == (if given.points > 0.0 then given.points else 1.0)
                   && kept.config == (if given.config.Empty? then Parsed(EMPTY_DOC) else given.config)
  {
    AcceptanceMeaning(payloads);
    forall i | 0 <= i < |payloads| ensures QuestionErrors(payloads[i], i) == [] <==> GoodQuestion(payloads[i]) {
      ConfigErrorsExactly(payloads[i].kind, WithDefaults(payloads[i], i).config);
    }
  }

  // ---------- Settings ----------

  datatype Settings = Settings(passPercent: int, minutes: int, maxAttempts: int, cooldownDays: int)

  const DEFAULT_PASS_PERCENT := 80
  const DEFAULT_MAX_ATTEMPTS := 3
  const MAX_COOLDOWN_DAYS := 730

  function SettingsWithDefaults(given: Settings): Settings {
    Settings(if given.passPercent <= 0 then DEFAULT_PASS_PERCENT else given.passPercent,
             if given.minutes < 0 then 0 else given.minutes,
             if given.maxAttempts <= 0 then DEFAULT_MAX_ATTEMPTS else given.maxAttempts,
             if given.cooldownDays < 0 then 0 else given.cooldownDays)
  }

  /** After the defaults: a pass mark of 1 to 100 percent, at least one attempt, at most two years. */
  predicate AcceptedSettings(s: Settings) {
    1 <= s.passPercent <= 100 && s.minutes >= 0 && s.maxAttempts >= 1 && 0 <= s.cooldownDays <= MAX_COOLDOWN_DAYS
  }

  /** Zero or less means 80 percent and three attempts, and a negative time or cooldown means none. */
  lemma SettingsDefaults(given: Settings)
    ensures var s := SettingsWithDefaults(given);
            && s.passPercent == (if given.passPercent >= 1 then given.passPercent else 80)
            && s.maxAttempts == (if given.maxAttempts >= 1 then given.maxAttempts else 3)
            && s.minutes == (if given.minutes >= 0 then given.minutes else 0)
            && s.cooldownDays == (if given.cooldownDays >= 0 then given.cooldownDays else 0)
            && (AcceptedSettings(s) <==> given.passPercent <= 100 && given.cooldownDays <= 730)
  {
  }

  method NormalizeQuizScoringAndAttempts(given: Settings) returns (s: Settings, errors: seq<FieldError>)
    ensures s == SettingsWithDefaults(given)
    ensures errors == [] <==> AcceptedSettings(s)
  {
    s, errors := given, [];
    if s.passPercent <= 0 {
      s := s.(passPercent := DEFAULT_PASS_PERCENT);
    }
    if s.passPercent < 0 || s.passPercent > 100 {
      errors := errors + [FieldError("quiz_pass_percent", "out_of_range")];
    }
    if s.minutes < 0 {
      s := s.(minutes := 0);
    }
    if s.maxAttempts <= 0 {
      s := s.(maxAttempts := DEFAULT_MAX_ATTEMPTS);
    }
    if s.cooldownDays < 0 {
      s := s.(cooldownDays := 0);
    }
    if s.cooldownDays > MAX_COOLDOWN_DAYS {
      errors := errors + [FieldError("retake_cooldown_days", "out_of_range")];
    }
  }
}
