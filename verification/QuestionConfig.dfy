/** How validation and grading read a question configuration: the decoding of a JSON text into Go values,
    and the three extractors of evaluation. Entries are decoded one after the other into the same
    value, so a later spelling of a tag works on what an earlier one left. */
module QuestionConfig {
  import opened Basics
  import opened Text
  import opened StringLists
  import opened JsonDocs

  datatype Choice = Choice(id: string, isCorrect: bool, isCorrectCamel: bool)

  predicate Flagged(c: Choice) {
    c.isCorrect || c.isCorrectCamel
  }

  // ---------- Decoding over what was there before; None is a type error ----------

  type Decoder<!T> = (T, Doc) -> Option<T>

  function StringOver(before: string, v: Doc): Option<string> {
    match v
    case NullDoc => Some(before)
    case StrDoc(s) => Some(s)
    case _ => None
  }

  function FlagOver(before: bool, v: Doc): Option<bool> {
    match v
    case NullDoc => Some(before)
    case BoolDoc(b) => Some(b)
    case _ => None
  }

  /** A pointer: null clears it. */
  function PointerOver(before: Option<bool>, v: Doc): Option<Option<bool>> {
    match v
    case NullDoc => Some(None)
    case BoolDoc(b) => Some(Some(b))
    case _ => None
  }

  function AllOver<T>(start: T, values: seq<Doc>, decode: Decoder<T>): Option<T> {
    if values == [] then Some(start)
    else
      match AllOver(start, values[..|values| - 1], decode)
      case None => None
      case Some(before) => decode(before, values[|values| - 1])
  }

  lemma OneOver<T>(start: T, v: Doc, decode: Decoder<T>)
    ensures AllOver(start, [v], decode) == decode(start, v)
  {
    assert [v][..0] == [];
    assert AllOver(start, [v][..0], decode) == Some(start);
  }

  lemma TwoOver<T>(start: T, first: Doc, second: Doc, decode: Decoder<T>)
    ensures AllOver(start, [first, second], decode)
         == match decode(start, first) case None => None case Some(before) => decode(before, second)
  {
    assert [first, second][..1] == [first];
    OneOver(start, first, decode);
  }

  /** A Go slice with the memory behind it: the items it shows, and items of earlier, longer lists. */
  datatype Buffer<T> = Buffer(shown: seq<T>, stale: seq<T>)

  /** Each item is decoded over the item that was in its place. */
  function ItemsOver<T>(before: seq<T>, zero: T, items: seq<Doc>, decode: Decoder<T>): (r: Option<seq<T>>)
    ensures r.Some? ==> |r.value| == |items|
  {
    if items == [] then Some([])
    else
      var n := |items| - 1;
      var init := ItemsOver(before, zero, items[..n], decode);
      var last := decode(if n < |before| then before[n] else zero, items[n]);
      if init.None? || last.None? then None else Some(init.value + [last.value])
  }

  function ListOver<T>(before: Buffer<T>, zero: T, v: Doc, decode: Decoder<T>): Option<Buffer<T>> {
    match v
    case NullDoc => Some(Buffer([], []))
    case ArrDoc(items) =>
      var memory := before.shown + before.stale;
      var shown := ItemsOver(memory, zero, items, decode);
      if shown.None? then None
      else Some(Buffer(shown.value, if 0 < |items| < |memory| then memory[|items|..] else []))
    case _ => None
  }

  lemma OneItem<T>(zero: T, v: Doc, decode: Decoder<T>)
    ensures ListOver(Buffer([], []), zero, ArrDoc([v]), decode)
         == match decode(zero, v) case None => None case Some(item) => Some(Buffer([item], []))
  {
    assert [v][..0] == [];
    assert ItemsOver([], zero, [v][..0], decode) == Some([]);
    if decode(zero, v).Some? {
      assert [] + [decode(zero, v).value] == [decode(zero, v).value];
    }
  }

  function ListDecoder<T>(zero: T, decode: Decoder<T>): Decoder<Buffer<T>> {
    (before, v) => ListOver(before, zero, v, decode)
  }

  predicate StructLike(v: Doc) {
    v.ObjDoc? || v.NullDoc?
  }

  /** An option, read by someone who sees only some of the keys. */
  function ChoiceOver(before: Choice, v: Doc, sees: string -> bool): Option<Choice> {
    var id := AllOver(before.id, FieldValues(v, "id", sees), StringOver);
    var snake := AllOver(before.isCorrect, FieldValues(v, "is_correct", sees), FlagOver);
    var camel := AllOver(before.isCorrectCamel, FieldValues(v, "isCorrect", sees), FlagOver);
    if !StructLike(v) || id.None? || snake.None? || camel.None? then None
    else Some(Choice(id.value, snake.value, camel.value))
  }

  function ChoiceDecoder(sees: string -> bool): Decoder<Choice> {
    (before, v) => ChoiceOver(before, v, sees)
  }

  const NO_CHOICE := Choice("", false, false)

  function Shown<T>(list: Option<Buffer<T>>): Option<seq<T>> {
    if list.None? then None else Some(list.value.shown)
  }

  function StringsUnder(v: Doc, tag: string, sees: string -> bool): Option<seq<string>> {
    Shown(AllOver(Buffer([], []), FieldValues(v, tag, sees), ListDecoder("", StringOver)))
  }

  // ---------- What evaluation reads ----------

  function OptionsSeen(v: Doc, sees: string -> bool): Option<seq<Choice>> {
    if !StructLike(v) then None
    else Shown(AllOver(Buffer([], []), FieldValues(v, "options", sees), ListDecoder(NO_CHOICE, ChoiceDecoder(sees))))
  }

  function CorrectSeen(v: Doc, sees: string -> bool): Option<Option<bool>> {
    if !StructLike(v) then None else AllOver(None, FieldValues(v, "correct", sees), PointerOver)
  }

  /** The snake-case list, or the camel-case one when that is empty. */
  function AcceptedSeen(v: Doc, sees: string -> bool): Option<seq<string>> {
    var snake, camel := StringsUnder(v, "accepted_answers", sees), StringsUnder(v, "acceptedAnswers", sees);
    if !StructLike(v) || snake.None? || camel.None? then None
    else Some(if |snake.value| == 0 then camel.value else snake.value)
  }

  function OptionsOf(raw: Raw): Option<seq<Choice>> {
    if raw.Parsed? then OptionsSeen(raw.doc, SeesAll) else None
  }

  function CorrectOf(raw: Raw): Option<Option<bool>> {
    if raw.Parsed? then CorrectSeen(raw.doc, SeesAll) else None
  }

  function AcceptedOf(raw: Raw): Option<seq<string>> {
    if raw.Parsed? then AcceptedSeen(raw.doc, SeesAll) else None
  }

  function FlaggedIds(options: seq<Choice>): seq<string> {
    if options == [] then []
    else
      var last := options[|options| - 1];
      FlaggedIds(options[..|options| - 1]) + (if Flagged(last) then [Trim(last.id)] else [])
  }

  /** Trimmed, lower-cased, blanks dropped. */
  function Folded(answers: seq<string>): seq<string> {
    if answers == [] then []
    else
      var folded := Lower(Trim(answers[|answers| - 1]));
      Folded(answers[..|answers| - 1]) + (if folded == "" then [] else [folded])
  }

  function CorrectIds(raw: Raw): Option<seq<string>> {
    match OptionsOf(raw)
    case None => None
    case Some(options) => Some(NormalizeSlice(FlaggedIds(options)))
  }

  method ExtractCorrectOptionIDs(raw: Raw) returns (ids: Option<seq<string>>)
    ensures ids == CorrectIds(raw)
  {
    var options := OptionsOf(raw);
    if options.None? {
      return None;
    }
    var list := [];
    for i := 0 to |options.value|
      invariant list == FlaggedIds(options.value[..i])
    {
      assert options.value[..i + 1][..i] == options.value[..i];
      if Flagged(options.value[i]) {
        list := list + [Trim(options.value[i].id)];
      }
    }
    assert options.value[..|options.value|] == options.value;
    var normalized := NormalizeStringSlice(list);
    return Some(normalized);
  }

  function CorrectBoolean(raw: Raw): Option<bool> {
    match CorrectOf(raw)
    case None => None
    case Some(b) => b
  }

  function AcceptedAnswers(raw: Raw): Option<seq<string>> {
    match AcceptedOf(raw)
    case None => None
    case Some(answers) => Some(Folded(answers))
  }

  /** The loop over the decoded texts. */
  method FoldAnswers(given: seq<string>) returns (normalized: seq<string>)
    ensures normalized == Folded(given)
  {
    normalized := [];
    for i := 0 to |given|
      invariant normalized == Folded(given[..i])
    {
      assert given[..i + 1][..i] == given[..i];
      var trimmed := Lower(Trim(given[i]));
      if trimmed == "" {
        continue;
      }
      normalized := normalized + [trimmed];
    }
    assert given[..|given|] == given;
  }

  method ExtractAcceptedAnswers(raw: Raw) returns (answers: Option<seq<string>>)
    ensures answers == AcceptedAnswers(raw)
  {
    var given := AcceptedOf(raw);
    if given.None? {
      return None;
    }
    var normalized := FoldAnswers(given.value);
    return Some(normalized);
  }

  /** The folded list holds exactly the folded forms of the non-blank answers. */
  lemma {:induction false} FoldedContents(answers: seq<string>, x: string)
    ensures x in Folded(answers) <==> x != "" && exists a :: a in answers && x == Lower(Trim(a))
  {
    if answers != [] {
      var init, last := answers[..|answers| - 1], answers[|answers| - 1];
      assert answers == init + [last];
      FoldedContents(init, x);
    }
  }

  /** The ids of the flagged options, trimmed. */
  lemma {:induction false} FlaggedIdsContents(options: seq<Choice>, x: string)
    ensures x in FlaggedIds(options) <==> exists c :: c in options && Flagged(c) && x == Trim(c.id)
  {
    if options != [] {
      var init, last := options[..|options| - 1], options[|options| - 1];
      assert options == init + [last];
      FlaggedIdsContents(init, x);
    }
  }
}
