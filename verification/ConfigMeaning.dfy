/** What evaluation reads from a configuration that spells each tag once, told by its entries alone. */
module ConfigMeaning {
  import opened Basics
  import opened JsonKeys
  import opened JsonDocs
  import opened QuestionConfig
  import opened ConfigReadings
  import opened StoredConfig

  /** Some entry of the object has the value under a spelling of the tag. */
  predicate Says(d: Doc, tag: string, v: Doc) {
    d.ObjDoc? && exists e :: e in d.entries && Spells(e.key, tag) && e.value == v
  }

  lemma {:induction false} ValuesContents(entries: seq<Entry>, tag: string, v: Doc)
    ensures v in Values(entries, tag, SeesAll) <==> exists e :: e in entries && Spells(e.key, tag) && e.value == v
  {
    if entries != [] {
      var init, last := entries[..|entries| - 1], entries[|entries| - 1];
      assert entries == init + [last];
      ValuesContents(init, tag, v);
    }
  }

  /** A tag that is spelt at most once says one thing or nothing. */
  lemma SaysOne(d: Doc, tag: string)
    requires SpeltOnce(d) && tag in READ_TAGS
    ensures FieldValues(d, tag, SeesAll) == [] || exists v :: FieldValues(d, tag, SeesAll) == [v]
    ensures forall v :: Says(d, tag, v) <==> FieldValues(d, tag, SeesAll) == [v]
  {
    var values := FieldValues(d, tag, SeesAll);
    assert |values| <= 1;
    assert values == [] || values == [values[0]];
    forall v ensures Says(d, tag, v) <==> values == [v] {
      if d.ObjDoc? {
        ValuesContents(d.entries, tag, v);
      }
      assert v in values <==> values == [v];
    }
  }

  // ---------- The boolean ----------

  lemma CorrectMeaning(d: Doc, b: bool)
    requires SpeltOnce(d) && CorrectSeen(d, SeesAll).Some?
    ensures CorrectSeen(d, SeesAll) == Some(Some(b)) <==> Says(d, "correct", BoolDoc(b))
  {
    SaysOne(d, "correct");
    var values := FieldValues(d, "correct", SeesAll);
    if values != [] {
      OneOver(None, values[0], PointerOver);
    }
  }

  // ---------- The options ----------

  lemma FlagOf(values: seq<Doc>)
    requires |values| <= 1
    ensures AllOver(false, values, FlagOver) == Some(true) <==> values == [BoolDoc(true)]
  {
    if values != [] {
      assert values == [values[0]];
      OneOver(false, values[0], FlagOver);
    }
  }

  lemma TextOf(values: seq<Doc>, s: string)
    requires |values| <= 1 && s != ""
    ensures AllOver("", values, StringOver) == Some(s) <==> values == [StrDoc(s)]
  {
    if values != [] {
      assert values == [values[0]];
      OneOver("", values[0], StringOver);
    }
  }

  lemma FlagMeaning(d: Doc, tag: string)
    requires SpeltOnce(d) && tag in READ_TAGS
    ensures AllOver(false, FieldValues(d, tag, SeesAll), FlagOver) == Some(true) <==> Says(d, tag, BoolDoc(true))
  {
    SaysOne(d, tag);
    FlagOf(FieldValues(d, tag, SeesAll));
  }

  lemma TextMeaning(d: Doc, tag: string, s: string)
    requires SpeltOnce(d) && tag in READ_TAGS && s != ""
    ensures AllOver("", FieldValues(d, tag, SeesAll), StringOver) == Some(s) <==> Says(d, tag, StrDoc(s))
  {
    SaysOne(d, tag);
    TextOf(FieldValues(d, tag, SeesAll), s);
  }

  /** The option is flagged under one of the two tags, and its id is the text it says, if it says one. */
  ghost predicate MeansOption(item: Doc, c: Choice) {
    && (Flagged(c) <==> Says(item, "is_correct", BoolDoc(true)) || Says(item, "isCorrect", BoolDoc(true)))
    && (forall s :: s != "" ==> (c.id == s <==> Says(item, "id", StrDoc(s))))
  }

  lemma ChoiceMeaning(item: Doc)
    requires SpeltOnce(item) && ChoiceOver(NO_CHOICE, item, SeesAll).Some?
    ensures MeansOption(item, ChoiceOver(NO_CHOICE, item, SeesAll).value)
  {
    FlagMeaning(item, "is_correct");
    FlagMeaning(item, "isCorrect");
    forall s | s != ""
      ensures ChoiceOver(NO_CHOICE, item, SeesAll).value.id == s <==> Says(item, "id", StrDoc(s))
    {
      TextMeaning(item, "id", s);
    }
  }

  /** Items that are decoded into fresh memory are decoded one by one. */
  lemma {:induction false} FreshItems<T>(zero: T, items: seq<Doc>, decode: Decoder<T>)
    requires ItemsOver([], zero, items, decode).Some?
    ensures forall i :: 0 <= i < |items| ==> decode(zero, items[i]) == Some(ItemsOver([], zero, items, decode).value[i])
  {
    if items != [] {
      FreshItems(zero, items[..|items| - 1], decode);
    }
  }

  /** The list under the tag, or nothing. */
  lemma ListUnder<T>(d: Doc, tag: string, zero: T, decode: Decoder<T>)
    requires SpeltOnce(d) && tag in READ_TAGS
    requires Shown(AllOver(Buffer([], []), FieldValues(d, tag, SeesAll), ListDecoder(zero, decode))).Some?
    ensures var list := Shown(AllOver(Buffer([], []), FieldValues(d, tag, SeesAll), ListDecoder(zero, decode))).value;
            && (forall items :: Says(d, tag, ArrDoc(items)) ==>
                  |list| == |items| && forall i :: 0 <= i < |items| ==> decode(zero, items[i]) == Some(list[i]))
            && (list != [] ==> exists items :: Says(d, tag, ArrDoc(items)))
  {
    SaysOne(d, tag);
    var values := FieldValues(d, tag, SeesAll);
    if values != [] {
      OneOver(Buffer([], []), values[0], ListDecoder(zero, decode));
      if values[0].ArrDoc? {
        FreshItems(zero, values[0].items, decode);
        assert Says(d, tag, ArrDoc(values[0].items));
      }
    }
  }

  /** The options are those of the list, one by one. */
  lemma OptionsMeaning(raw: Raw)
    requires OneSpelling(raw) && OptionsOf(raw).Some?
    ensures var options := OptionsOf(raw).value;
            && (forall items :: Says(raw.doc, "options", ArrDoc(items)) ==>
                  |options| == |items| && forall i :: 0 <= i < |items| ==> MeansOption(items[i], options[i]))
            && (options != [] ==> exists items :: Says(raw.doc, "options", ArrDoc(items)))
  {
    var d, options := raw.doc, OptionsOf(raw).value;
    SaysOne(d, "options");
    ListUnder(d, "options", NO_CHOICE, ChoiceDecoder(SeesAll));
    forall items, i | Says(d, "options", ArrDoc(items)) && 0 <= i < |items| ensures MeansOption(items[i], options[i]) {
      var list := ArrDoc(items);
      assert list in FieldValues(d, "options", SeesAll) && items[i] in list.items;
      ChoiceMeaning(items[i]);
    }
  }

  // ---------- The texts ----------

  ghost predicate HasItems(d: Doc, tag: string) {
    exists items :: Says(d, tag, ArrDoc(items)) && items != []
  }

  ghost predicate Lists(d: Doc, tag: string, s: string) {
    exists items :: Says(d, tag, ArrDoc(items)) && StrDoc(s) in items
  }

  /** `list` is what the items decode to. */
  predicate Decoded(items: seq<Doc>, list: seq<string>) {
    |list| == |items| && forall i :: 0 <= i < |items| ==> StringOver("", items[i]) == Some(list[i])
  }

  lemma DecodedText(items: seq<Doc>, list: seq<string>, s: string)
    requires Decoded(items, list) && s != ""
    ensures s in list <==> StrDoc(s) in items
  {
    if s in list {
      var i :| 0 <= i < |list| && list[i] == s;
      assert items[i] == StrDoc(s);
    }
    if StrDoc(s) in items {
      var i :| 0 <= i < |items| && items[i] == StrDoc(s);
      assert list[i] == s;
    }
  }

  lemma StringsMeaning(d: Doc, tag: string, s: string)
    requires SpeltOnce(d) && tag in READ_TAGS && StringsUnder(d, tag, SeesAll).Some? && s != ""
    ensures s in StringsUnder(d, tag, SeesAll).value <==> Lists(d, tag, s)
    ensures StringsUnder(d, tag, SeesAll).value != [] <==> HasItems(d, tag)
  {
    var list := StringsUnder(d, tag, SeesAll).value;
    ListUnder(d, tag, "", StringOver);
    forall items | Says(d, tag, ArrDoc(items)) ensures |list| == |items| && (s in list <==> StrDoc(s) in items) {
      assert Decoded(items, list);
      DecodedText(items, list, s);
    }
  }

  /** A text is listed as an answer: under the snake-case tag if that has items, else under the other. */
  ghost predicate ListsAnswer(d: Doc, s: string) {
    if HasItems(d, "accepted_answers") then Lists(d, "accepted_answers", s) else Lists(d, "acceptedAnswers", s)
  }

  lemma AcceptedMeaning(d: Doc, s: string)
    requires SpeltOnce(d) && AcceptedSeen(d, SeesAll).Some? && s != ""
    ensures s in AcceptedSeen(d, SeesAll).value <==> ListsAnswer(d, s)
  {
    StringsMeaning(d, "accepted_answers", s);
    StringsMeaning(d, "acceptedAnswers", s);
  }

  // ---------- A tag spelt more than once ----------

  /** Of several flags the last that is not null counts, wherever the nulls stand. */
  lemma {:induction false} LastFlagCounts(start: bool, values: seq<Doc>)
    requires AllOver(start, values, FlagOver).Some?
    ensures forall i :: 0 <= i < |values| && values[i].BoolDoc?
                        && (forall j :: i < j < |values| ==> values[j].NullDoc?) ==>
              AllOver(start, values, FlagOver) == Some(values[i].b)
    ensures (forall j :: 0 <= j < |values| ==> values[j].NullDoc?) ==> AllOver(start, values, FlagOver) == Some(start)
  {
    if values != [] {
      LastFlagCounts(start, values[..|values| - 1]);
    }
  }

  /** And of several texts. */
  lemma {:induction false} LastTextCounts(start: string, values: seq<Doc>)
    requires AllOver(start, values, StringOver).Some?
    ensures forall i :: 0 <= i < |values| && values[i].StrDoc?
                        && (forall j :: i < j < |values| ==> values[j].NullDoc?) ==>
              AllOver(start, values, StringOver) == Some(values[i].s)
    ensures (forall j :: 0 <= j < |values| ==> values[j].NullDoc?) ==> AllOver(start, values, StringOver) == Some(start)
  {
    if values != [] {
      LastTextCounts(start, values[..|values| - 1]);
    }
  }

  /** Of several values of a pointer the last counts, null or not. */
  lemma LastPointerCounts(start: Option<bool>, values: seq<Doc>)
    requires values != [] && AllOver(start, values, PointerOver).Some?
    ensures var last := values[|values| - 1];
            && (last.NullDoc? || last.BoolDoc?)
            && AllOver(start, values, PointerOver) == Some(if last.NullDoc? then None else Some(last.b))
  {
  }

  /** What is in a place of the memory, or the zero value. */
  function InPlace<T>(memory: seq<T>, zero: T, i: nat): T {
    if i < |memory| then memory[i] else zero
  }

  lemma FirstItem<T>(memory: seq<T>, zero: T, first: Doc, decode: Decoder<T>)
    ensures ItemsOver(memory, zero, [first], decode)
         == match decode(InPlace(memory, zero, 0), first) case None => None case Some(x) => Some([x])
  {
    assert [first][..0] == [];
    assert ItemsOver(memory, zero, [first][..0], decode) == Some([]);
    var r := decode(InPlace(memory, zero, 0), first);
    if r.Some? {
      assert [] + [r.value] == [r.value];
    }
  }

  lemma TwoItems<T>(memory: seq<T>, zero: T, first: Doc, second: Doc, decode: Decoder<T>)
    ensures var x, y := decode(InPlace(memory, zero, 0), first), decode(InPlace(memory, zero, 1), second);
            ItemsOver(memory, zero, [first, second], decode)
            == if x.None? || y.None? then None else Some([x.value, y.value])
  {
    assert [first, second][..1] == [first];
    FirstItem(memory, zero, first, decode);
    var x, y := decode(InPlace(memory, zero, 0), first), decode(InPlace(memory, zero, 1), second);
    if x.Some? && y.Some? {
      assert [x.value] + [y.value] == [x.value, y.value];
    }
  }

  lemma OneOfMemory<T>(memory: seq<T>, zero: T, only: Doc, decode: Decoder<T>)
    requires |memory| == 2
    ensures ListOver(Buffer(memory, []), zero, ArrDoc([only]), decode)
         == match decode(memory[0], only) case None => None case Some(z) => Some(Buffer([z], [memory[1]]))
  {
    FirstItem(memory, zero, only, decode);
    assert memory + [] == memory && memory[1..] == [memory[1]];
  }

  /** A list of two, then one of one, then one of two again: the last item is decoded over what the first list left
      in its place, so what it does not say is as it was there. */
  lemma LongerAgain<T>(zero: T, first: Doc, second: Doc, only: Doc, again: Doc, last: Doc, decode: Decoder<T>)
    requires decode(zero, first).Some? && decode(zero, second).Some?
    requires decode(decode(zero, first).value, only).Some?
    requires decode(decode(decode(zero, first).value, only).value, again).Some?
    requires decode(decode(zero, second).value, last).Some?
    ensures var lists := [ArrDoc([first, second]), ArrDoc([only]), ArrDoc([again, last])];
            var r := Shown(AllOver(Buffer([], []), lists, ListDecoder(zero, decode)));
            r.Some? && |r.value| == 2 && Some(r.value[1]) == decode(decode(zero, second).value, last)
  {
    var x, y := decode(zero, first).value, decode(zero, second).value;
    var z := decode(x, only).value;
    TwoItems([], zero, first, second, decode);
    OneOfMemory([x, y], zero, only, decode);
    TwoItems([z, y], zero, again, last, decode);
    var lists := [ArrDoc([first, second]), ArrDoc([only]), ArrDoc([again, last])];
    assert lists[..2] == [ArrDoc([first, second]), ArrDoc([only])];
    TwoOver(Buffer([], []), lists[0], lists[1], ListDecoder(zero, decode));
    assert [z] + [y] == [z, y];
  }
}
