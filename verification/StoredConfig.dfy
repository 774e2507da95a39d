/** What the database gives back of a question configuration reads as the request did, unless the request
    spells a tag twice in one object. */
module StoredConfig {
  import opened Basics
  import opened Text
  import opened JsonKeys
  import opened JsonDocs
  import opened QuestionConfig
  import opened ConfigReadings

  /** No tag is spelt twice. */
  predicate SpeltOnce(d: Doc) {
    forall tag :: tag in READ_TAGS ==> |FieldValues(d, tag, SeesAll)| <= 1
  }

  /** Neither in the configuration nor in one of its options. */
  predicate OneSpelling(raw: Raw) {
    raw.Parsed? ==>
      && SpeltOnce(raw.doc)
      && forall list, item :: list in FieldValues(raw.doc, "options", SeesAll) && list.ArrDoc? && item in list.items ==>
           SpeltOnce(item)
  }

  lemma StoredShape()
    ensures forall d :: KeepsShape(StoredDoc, d)
  {
    forall d ensures KeepsShape(StoredDoc, d) {
      if d.ArrDoc? {
        assert StoredDoc(d).items == Mapped(StoredDoc, d.items);
      }
    }
  }

  lemma StoredCarries(d: Doc)
    requires SpeltOnce(d)
    ensures Carries(StoredDoc, d, SeesAll)
  {
    forall tag | tag in READ_TAGS
      ensures FieldValues(StoredDoc(d), tag, SeesAll) == Mapped(StoredDoc, FieldValues(d, tag, SeesAll))
    {
      if d.ObjDoc? {
        StoredValues(d, tag);
      }
    }
  }

  /** Grading reads the options, the boolean and the texts that validation read. */
  lemma StoredReading(raw: Raw)
    requires OneSpelling(raw)
    ensures OptionsOf(StoredRaw(raw)) == OptionsOf(raw)
    ensures CorrectOf(StoredRaw(raw)) == CorrectOf(raw)
    ensures AcceptedOf(StoredRaw(raw)) == AcceptedOf(raw)
  {
    if raw.Parsed? {
      StoredShape();
      StoredCarries(raw.doc);
      forall list, item | list in FieldValues(raw.doc, "options", SeesAll) && list.ArrDoc? && item in list.items
        ensures Carries(StoredDoc, item, SeesAll)
      {
        StoredCarries(item);
      }
      SameTexts(StoredDoc, raw.doc, SeesAll);
      SameOptions(StoredDoc, raw.doc, SeesAll);
    }
  }

  // ---------- Two spellings ----------

  /** `{"correct": null, "Correct": b}` */
  function TwoSpellings(b: bool): Doc {
    ObjDoc([Entry("correct", NullDoc), Entry("Correct", BoolDoc(b))])
  }

  /** The database lists the two entries the other way round. */
  lemma TwoRelisted(b: bool)
    ensures StoredDoc(TwoSpellings(b)) == ObjDoc([Entry("Correct", BoolDoc(b)), Entry("correct", NullDoc)])
  {
    TreeOfPair(Entry("correct", NullDoc), Entry("Correct", BoolDoc(b)));
    assert "Correct"[0] < "correct"[0];
    assert ByteLength("correct") == 7 && ByteLength("Correct") == 7;
    ListedPair(ByLength, TreeOf(TwoSpellings(b)), "Correct", "correct");
  }

  predicate SaysCorrectOnly(d: Doc) {
    d.ObjDoc? && forall e :: e in d.entries ==> Spells(e.key, "correct")
  }

  lemma NoOtherTag(key: string, tag: string)
    requires Spells(key, "correct") && tag in {"options", "accepted_answers", "acceptedAnswers"}
    ensures !Spells(key, tag)
  {
    assert FoldChar("correct"[0]) != FoldChar("options"[0]);
  }

  lemma NothingElseRead(d: Doc)
    requires SaysCorrectOnly(d)
    ensures OptionsOf(Parsed(d)) == Some([]) && AcceptedOf(Parsed(d)) == Some([])
  {
    forall e, tag | e in d.entries && tag in {"options", "accepted_answers", "acceptedAnswers"}
      ensures !Spells(e.key, tag)
    {
      NoOtherTag(e.key, tag);
    }
    NoValues(d.entries, "options", SeesAll);
    NoValues(d.entries, "accepted_answers", SeesAll);
    NoValues(d.entries, "acceptedAnswers", SeesAll);
  }

  lemma PairRead(first: Entry, second: Entry)
    requires Spells(first.key, "correct") && Spells(second.key, "correct")
    ensures CorrectOf(Parsed(ObjDoc([first, second])))
         == match PointerOver(None, first.value) case None => None case Some(b) => PointerOver(b, second.value)
  {
    ValuesOfPair(first, second, "correct", SeesAll);
    assert FieldValues(ObjDoc([first, second]), "correct", SeesAll) == [first.value, second.value];
    TwoOver(None, first.value, second.value, PointerOver);
  }

  /** A null before a boolean leaves the boolean, a null after it clears it. */
  lemma SwappedRead(lower: string, upper: string, b: bool)
    requires Spells(lower, "correct") && Spells(upper, "correct")
    ensures var first, second := Entry(lower, NullDoc), Entry(upper, BoolDoc(b));
            && CorrectOf(Parsed(ObjDoc([first, second]))) == Some(Some(b))
            && CorrectOf(Parsed(ObjDoc([second, first]))) == Some(None)
            && OptionsOf(Parsed(ObjDoc([first, second]))) == Some([])
            && AcceptedOf(Parsed(ObjDoc([first, second]))) == Some([])
  {
    var first, second := Entry(lower, NullDoc), Entry(upper, BoolDoc(b));
    PairRead(first, second);
    PairRead(second, first);
    NothingElseRead(ObjDoc([first, second]));
  }

  lemma SpellingsOfCorrect()
    ensures Spells("correct", "correct") && Spells("Correct", "correct")
  {
  }

  /** The request sets the boolean, and what the database gives back clears it. */
  lemma TwoSpellingsRead(b: bool)
    ensures CorrectOf(Parsed(TwoSpellings(b))) == Some(Some(b))
    ensures CorrectOf(StoredRaw(Parsed(TwoSpellings(b)))) == Some(None)
    ensures OptionsOf(Parsed(TwoSpellings(b))) == Some([]) && AcceptedOf(Parsed(TwoSpellings(b))) == Some([])
  {
    TwoRelisted(b);
    SpellingsOfCorrect();
    SwappedRead("correct", "Correct", b);
  }
}
