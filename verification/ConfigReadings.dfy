/** When two documents read the same: one is made from the other by a map `f` on documents, such as
    removing entries or storing, and the other is read by someone who sees only some of the keys. */
module ConfigReadings {
  import opened Basics
  import opened JsonDocs
  import opened QuestionConfig

  /** The tags from which evaluation reads correctness. */
  const CORRECTNESS_TAGS := {"is_correct", "isCorrect", "correct", "accepted_answers", "acceptedAnswers"}

  /** The other tags it reads. */
  const OTHER_TAGS := {"options", "id"}

  const READ_TAGS := CORRECTNESS_TAGS + OTHER_TAGS

  function Mapped(f: Doc -> Doc, values: seq<Doc>): seq<Doc> {
    seq(|values|, i requires 0 <= i < |values| => f(values[i]))
  }

  /** The map works inside of lists and objects only. */
  predicate KeepsShape(f: Doc -> Doc, v: Doc) {
    match v
    case ArrDoc(items) => f(v) == ArrDoc(Mapped(f, items))
    case ObjDoc(_) => f(v).ObjDoc?
    case _ => f(v) == v
  }

  /** What is read under each tag of the image are the images of what the reader sees. */
  ghost predicate Carries(f: Doc -> Doc, d: Doc, sees: string -> bool) {
    forall tag :: tag in READ_TAGS ==> FieldValues(f(d), tag, SeesAll) == Mapped(f, FieldValues(d, tag, sees))
  }

  ghost predicate AgreeAt<T(!new)>(f: Doc -> Doc, v: Doc, after: Decoder<T>, given: Decoder<T>) {
    forall before :: after(before, f(v)) == given(before, v)
  }

  lemma {:induction false} MappedOver<T(!new)>(f: Doc -> Doc, start: T, values: seq<Doc>, after: Decoder<T>,
                                               given: Decoder<T>)
    requires forall v :: v in values ==> AgreeAt(f, v, after, given)
    ensures AllOver(start, Mapped(f, values), after) == AllOver(start, values, given)
  {
    if values != [] {
      var init, last := values[..|values| - 1], values[|values| - 1];
      assert Mapped(f, values)[..|values| - 1] == Mapped(f, init);
      MappedOver(f, start, init, after, given);
      assert AgreeAt(f, last, after, given);
    }
  }

  lemma {:induction false} MappedItems<T(!new)>(f: Doc -> Doc, before: seq<T>, zero: T, items: seq<Doc>,
                                                after: Decoder<T>, given: Decoder<T>)
    requires forall v :: v in items ==> AgreeAt(f, v, after, given)
    ensures ItemsOver(before, zero, Mapped(f, items), after) == ItemsOver(before, zero, items, given)
  {
    if items != [] {
      var init, last := items[..|items| - 1], items[|items| - 1];
      assert Mapped(f, items)[..|items| - 1] == Mapped(f, init);
      MappedItems(f, before, zero, init, after, given);
      assert AgreeAt(f, last, after, given);
    }
  }

  lemma ScalarsAgree(f: Doc -> Doc, v: Doc)
    requires KeepsShape(f, v)
    ensures AgreeAt(f, v, StringOver, StringOver)
    ensures AgreeAt(f, v, FlagOver, FlagOver)
    ensures AgreeAt(f, v, PointerOver, PointerOver)
  {
  }

  lemma ListsAgree<T(!new)>(f: Doc -> Doc, v: Doc, zero: T, after: Decoder<T>, given: Decoder<T>)
    requires KeepsShape(f, v)
    requires v.ArrDoc? ==> forall item :: item in v.items ==> AgreeAt(f, item, after, given)
    ensures AgreeAt(f, v, ListDecoder(zero, after), ListDecoder(zero, given))
  {
    forall before: Buffer<T> ensures ListOver(before, zero, f(v), after) == ListOver(before, zero, v, given) {
      if v.ArrDoc? {
        MappedItems(f, before.shown + before.stale, zero, v.items, after, given);
      }
    }
  }

  lemma ChoicesAgree(f: Doc -> Doc, v: Doc, sees: string -> bool)
    requires (forall d :: KeepsShape(f, d)) && Carries(f, v, sees)
    ensures AgreeAt(f, v, ChoiceDecoder(SeesAll), ChoiceDecoder(sees))
  {
    forall d ensures AgreeAt(f, d, StringOver, StringOver) && AgreeAt(f, d, FlagOver, FlagOver) {
      ScalarsAgree(f, d);
    }
    assert KeepsShape(f, v);
    forall before: Choice ensures ChoiceOver(before, f(v), SeesAll) == ChoiceOver(before, v, sees) {
      MappedOver(f, before.id, FieldValues(v, "id", sees), StringOver, StringOver);
      MappedOver(f, before.isCorrect, FieldValues(v, "is_correct", sees), FlagOver, FlagOver);
      MappedOver(f, before.isCorrectCamel, FieldValues(v, "isCorrect", sees), FlagOver, FlagOver);
    }
  }

  lemma SameStringsUnder(f: Doc -> Doc, v: Doc, tag: string, sees: string -> bool)
    requires (forall d :: KeepsShape(f, d)) && Carries(f, v, sees) && tag in READ_TAGS
    ensures StringsUnder(f(v), tag, SeesAll) == StringsUnder(v, tag, sees)
  {
    var decode := ListDecoder("", StringOver);
    forall d ensures AgreeAt(f, d, decode, decode) {
      if d.ArrDoc? {
        forall item | item in d.items ensures AgreeAt(f, item, StringOver, StringOver) {
          ScalarsAgree(f, item);
        }
      }
      ListsAgree(f, d, "", StringOver, StringOver);
    }
    MappedOver(f, Buffer([], []), FieldValues(v, tag, sees), decode, decode);
  }

  /** The same texts and the same boolean are read. */
  lemma SameTexts(f: Doc -> Doc, v: Doc, sees: string -> bool)
    requires (forall d :: KeepsShape(f, d)) && Carries(f, v, sees)
    ensures AcceptedSeen(f(v), SeesAll) == AcceptedSeen(v, sees)
    ensures CorrectSeen(f(v), SeesAll) == CorrectSeen(v, sees)
  {
    SameStringsUnder(f, v, "accepted_answers", sees);
    SameStringsUnder(f, v, "acceptedAnswers", sees);
    forall d ensures AgreeAt(f, d, PointerOver, PointerOver) {
      ScalarsAgree(f, d);
    }
    MappedOver(f, None, FieldValues(v, "correct", sees), PointerOver, PointerOver);
    assert KeepsShape(f, v);
  }

  /** The same options are read, if the map carries each of them. */
  lemma SameOptions(f: Doc -> Doc, v: Doc, sees: string -> bool)
    requires (forall d :: KeepsShape(f, d)) && Carries(f, v, sees)
    requires forall list, item :: list in FieldValues(v, "options", sees) && list.ArrDoc? && item in list.items ==>
               Carries(f, item, sees)
    ensures OptionsSeen(f(v), SeesAll) == OptionsSeen(v, sees)
  {
    var after, given := ListDecoder(NO_CHOICE, ChoiceDecoder(SeesAll)), ListDecoder(NO_CHOICE, ChoiceDecoder(sees));
    var lists := FieldValues(v, "options", sees);
    forall list | list in lists ensures AgreeAt(f, list, after, given) {
      if list.ArrDoc? {
        forall item | item in list.items
          ensures AgreeAt(f, item, ChoiceDecoder(SeesAll), ChoiceDecoder(sees))
        {
          ChoicesAgree(f, item, sees);
        }
      }
      ListsAgree(f, list, NO_CHOICE, ChoiceDecoder(SeesAll), ChoiceDecoder(sees));
    }
    MappedOver(f, Buffer([], []), lists, after, given);
    assert KeepsShape(f, v);
  }
}
