/** What evaluation can still read from a sanitized configuration. It reads correctness only through keys
    that sanitizing removes, in every spelling but those with a long s (U+017F). */
module PublicConfig {
  import opened Basics
  import opened Text
  import opened StringLists
  import opened Json
  import opened JsonKeys
  import opened JsonDocs
  import opened AnswerKeys
  import opened QuestionConfig
  import opened ConfigReadings

  const LONG_S := '\U{017F}'

  // ---------- Which spellings are removed ----------

  predicate PlainChar(c: char) {
    'a' <= c <= 'z' || 'A' <= c <= 'Z' || c == '_'
  }

  /** Letters of the alphabet and underscores only. */
  predicate PlainWord(s: string) {
    forall i :: 0 <= i < |s| ==> PlainChar(s[i])
  }

  predicate IsAscii(s: string) {
    forall i :: 0 <= i < |s| ==> s[i] < '\U{80}'
  }

  lemma AnswerKeysAreAscii(key: string)
    requires key in ANSWER_KEYS
    ensures IsAscii(key)
  {
  }

  lemma TagsArePlain(tag: string)
    requires tag in READ_TAGS
    ensures PlainWord(tag) && tag != ""
  {
  }

  lemma SpellingChar(c: char, t: char)
    requires PlainChar(t) && FoldChar(c) == FoldChar(t)
    ensures !IsSpace(c)
    ensures c != LONG_S ==> LowerChar(c) == LowerChar(t)
  {
  }

  /** A spelling has no white space around it, and differs from the tag only in letter case unless it
      has a long s. */
  lemma SpellingOfTag(key: string, tag: string)
    requires tag in READ_TAGS && Spells(key, tag)
    ensures Trim(key) == key
    ensures LONG_S !in key ==> Lower(key) == Lower(tag)
  {
    TagsArePlain(tag);
    forall i | 0 <= i < |key|
      ensures !IsSpace(key[i]) && (key[i] != LONG_S ==> LowerChar(key[i]) == LowerChar(tag[i]))
    {
      SpellingChar(key[i], tag[i]);
    }
    TrimOfTrimmed(key);
  }

  lemma LongSIsKept(key: string)
    requires Trim(key) == key && LONG_S in key
    ensures !IsAnswerKey(key)
  {
    var i :| 0 <= i < |key| && key[i] == LONG_S;
    assert Lower(key)[i] == LONG_S;
    forall answerKey | answerKey in ANSWER_KEYS ensures answerKey != Lower(key) {
      AnswerKeysAreAscii(answerKey);
    }
  }

  lemma LowerIs(s: string, lower: string)
    requires |s| == |lower| && forall i :: 0 <= i < |s| ==> LowerChar(s[i]) == lower[i]
    ensures Lower(s) == lower
  {
  }

  lemma CorrectnessTagsAreAnswerKeys(tag: string)
    requires tag in CORRECTNESS_TAGS
    ensures Lower(tag) in ANSWER_KEYS
  {
    LowerIs("is_correct", "is_correct");
    LowerIs("isCorrect", "iscorrect");
    LowerIs("correct", "correct");
    LowerIs("accepted_answers", "accepted_answers");
    LowerIs("acceptedAnswers", "acceptedanswers");
  }

  lemma OtherTagsAreNot(tag: string)
    requires tag in OTHER_TAGS
    ensures Lower(tag) !in ANSWER_KEYS
  {
    LowerIs("options", "options");
    LowerIs("id", "id");
  }

  /** A key that evaluation reads as correctness is removed exactly when it has no long s. */
  lemma RemovedExactly(key: string, tag: string)
    requires tag in CORRECTNESS_TAGS && Spells(key, tag)
    ensures IsAnswerKey(key) <==> LONG_S !in key
  {
    SpellingOfTag(key, tag);
    CorrectnessTagsAreAnswerKeys(tag);
    if LONG_S in key {
      LongSIsKept(key);
    }
  }

  /** No spelling of the option list or of an option id is ever removed. */
  lemma OtherSpellingsAreKept(key: string, tag: string)
    requires tag in OTHER_TAGS && Spells(key, tag)
    ensures !IsAnswerKey(key)
  {
    SpellingOfTag(key, tag);
    OtherTagsAreNot(tag);
    if LONG_S in key {
      LongSIsKept(key);
    }
  }

  /** The keys a reader is left with, of those that evaluation looks for. */
  predicate Visible(key: string) {
    LONG_S in key || exists tag :: tag in OTHER_TAGS && Spells(key, tag)
  }

  lemma VisibleExactly(key: string, tag: string)
    requires tag in READ_TAGS && Spells(key, tag)
    ensures IsAnswerKey(key) <==> !Visible(key)
  {
    if tag in OTHER_TAGS {
      OtherSpellingsAreKept(key, tag);
    } else {
      RemovedExactly(key, tag);
      if other :| other in OTHER_TAGS && Spells(key, other) {
        OtherSpellingsAreKept(key, other);
      }
    }
  }

  // ---------- Removal from a listing ----------

  /** The document without any entry whose key is an answer key, at any depth. */
  function Hidden(d: Doc): Doc
    decreases d, 1, 0
  {
    match d
    case ArrDoc(items) => ArrDoc(seq(|items|, i requires 0 <= i < |items| => Hidden(items[i])))
    case ObjDoc(entries) => ObjDoc(HiddenEntries(d, |entries|))
    case _ => d
  }

  function HiddenEntries(d: Doc, n: nat): seq<Entry>
    requires d.ObjDoc? && n <= |d.entries|
    decreases d, 0, n
  {
    if n == 0 then []
    else
      var e := d.entries[n - 1];
      HiddenEntries(d, n - 1) + (if IsAnswerKey(e.key) then [] else [Entry(e.key, Hidden(e.value))])
  }

  lemma {:induction false} HiddenOfPrefix(entries: seq<Entry>, more: seq<Entry>, n: nat)
    requires n <= |entries|
    ensures HiddenEntries(ObjDoc(entries + more), n) == HiddenEntries(ObjDoc(entries), n)
  {
    if n > 0 {
      HiddenOfPrefix(entries, more, n - 1);
      assert (entries + more)[n - 1] == entries[n - 1];
    }
  }

  /** What removal leaves of one entry. */
  function HiddenEntry(e: Entry): seq<Entry> {
    if IsAnswerKey(e.key) then [] else [Entry(e.key, Hidden(e.value))]
  }

  lemma HiddenMore(entries: seq<Entry>, e: Entry)
    ensures HiddenEntries(ObjDoc(entries + [e]), |entries| + 1)
         == HiddenEntries(ObjDoc(entries), |entries|) + HiddenEntry(e)
  {
    HiddenOfPrefix(entries, [e], |entries|);
    assert (entries + [e])[|entries|] == e;
  }

  function Kept(keys: set<string>): set<string> {
    set key | key in keys && !IsAnswerKey(key)
  }

  lemma KeptMore(keys: set<string>, last: string)
    requires last in keys
    ensures Kept(keys) == Kept(keys - {last}) + (if IsAnswerKey(last) then {} else {last})
    ensures last !in Kept(keys - {last})
  {
  }

  lemma KeptKeys(v: Value, keys: set<string>)
    requires v.Obj? && keys <= v.fields.Keys
    ensures Kept(keys) <= Stripped(v).fields.Keys
    ensures Kept(v.fields.Keys) == Stripped(v).fields.Keys
    ensures forall key :: key in Kept(keys) ==> Stripped(v).fields[key] == Stripped(v.fields[key])
  {
  }

  lemma LastKept(order: KeyOrder, keys: set<string>)
    requires keys != {} && LastKey(order, keys) in Kept(keys)
    ensures LastKey(order, Kept(keys)) == LastKey(order, keys)
  {
    var last := LastKey(order, keys);
    assert IsLast(order, last, Kept(keys));
    LastIsUnique(order, last, LastKey(order, Kept(keys)), Kept(keys));
  }

  /** The stripped listing goes on with what removal leaves of the last entry. */
  lemma KeptListed(order: KeyOrder, stripped: Value, keys: set<string>, last: string, value: Doc)
    requires stripped.Obj? && keys != {} && last == LastKey(order, keys)
    requires Kept(keys) <= stripped.fields.Keys && Kept(keys - {last}) <= stripped.fields.Keys
    requires last in Kept(keys) ==> Listed(order, stripped.fields[last]) == Hidden(value)
    ensures ListedEntries(order, stripped, Kept(keys))
         == ListedEntries(order, stripped, Kept(keys - {last})) + HiddenEntry(Entry(last, value))
  {
    KeptMore(keys, last);
    if last in Kept(keys) {
      LastKept(order, keys);
      assert Kept(keys) - {last} == Kept(keys - {last});
    } else {
      assert Kept(keys) == Kept(keys - {last}) && IsAnswerKey(last);
    }
  }

  /** Removal before listing is removal after listing. */
  lemma {:induction false} ListedStripped(order: KeyOrder, v: Value)
    ensures Listed(order, Stripped(v)) == Hidden(Listed(order, v))
    decreases v, 1
  {
    match v {
      case Arr(items) =>
        forall i | 0 <= i < |items| ensures Listed(order, Stripped(items[i])) == Hidden(Listed(order, items[i])) {
          ListedStripped(order, items[i]);
        }
      case Obj(fields) =>
        KeptKeys(v, fields.Keys);
        ListedStrippedEntries(order, v, fields.Keys);
      case _ =>
    }
  }

  lemma {:induction false} ListedStrippedEntries(order: KeyOrder, v: Value, keys: set<string>)
    requires v.Obj? && keys <= v.fields.Keys && Kept(keys) <= Stripped(v).fields.Keys
    ensures var entries := ListedEntries(order, v, keys);
            ListedEntries(order, Stripped(v), Kept(keys)) == HiddenEntries(ObjDoc(entries), |entries|)
    decreases v, 0, keys
  {
    if keys == {} {
      assert Kept(keys) == {};
    } else {
      var last := LastKey(order, keys);
      KeptKeys(v, keys - {last});
      ListedStrippedEntries(order, v, keys - {last});
      ListedStripped(order, v.fields[last]);
      KeptKeys(v, keys);
      KeptListed(order, Stripped(v), keys, last, Listed(order, v.fields[last]));
      HiddenMore(ListedEntries(order, v, keys - {last}), Entry(last, Listed(order, v.fields[last])));
    }
  }

  // ---------- What is left to read ----------

  lemma HiddenEntryValue(before: seq<Entry>, e: Entry, tag: string)
    requires tag in READ_TAGS
    ensures Values(before + HiddenEntry(e), tag, SeesAll)
         == Values(before, tag, SeesAll) + (if Spells(e.key, tag) && Visible(e.key) then [Hidden(e.value)] else [])
  {
    if Spells(e.key, tag) {
      VisibleExactly(e.key, tag);
    }
    if IsAnswerKey(e.key) {
      assert before + HiddenEntry(e) == before;
    } else {
      ValuesMore(before, Entry(e.key, Hidden(e.value)), tag, SeesAll);
    }
  }

  lemma {:induction false} HiddenEntryValues(entries: seq<Entry>, tag: string)
    requires tag in READ_TAGS
    ensures Values(HiddenEntries(ObjDoc(entries), |entries|), tag, SeesAll)
         == Mapped(Hidden, Values(entries, tag, Visible))
  {
    if entries != [] {
      var init, e := entries[..|entries| - 1], entries[|entries| - 1];
      assert entries == init + [e];
      HiddenEntryValues(init, tag);
      HiddenMore(init, e);
      HiddenEntryValue(HiddenEntries(ObjDoc(init), |init|), e, tag);
    }
  }

  lemma HiddenValues(d: Doc, tag: string)
    requires tag in READ_TAGS
    ensures FieldValues(Hidden(d), tag, SeesAll) == Mapped(Hidden, FieldValues(d, tag, Visible))
  {
    if d.ObjDoc? {
      HiddenEntryValues(d.entries, tag);
    }
  }

  lemma HiddenShape()
    ensures forall d :: KeepsShape(Hidden, d)
  {
  }

  lemma HiddenCarries(d: Doc)
    ensures Carries(Hidden, d, Visible)
  {
    forall tag | tag in READ_TAGS
      ensures FieldValues(Hidden(d), tag, SeesAll) == Mapped(Hidden, FieldValues(d, tag, Visible))
    {
      HiddenValues(d, tag);
    }
  }

  /** Options and texts are read from the hidden document as from the given one by a reader who sees only the
      keys that are left. */
  lemma HiddenReading(v: Doc)
    ensures OptionsOf(Parsed(Hidden(v))) == OptionsSeen(v, Visible)
    ensures AcceptedOf(Parsed(Hidden(v))) == AcceptedSeen(v, Visible)
  {
    HiddenShape();
    HiddenCarries(v);
    forall list, item | list in FieldValues(v, "options", Visible) && list.ArrDoc? && item in list.items
      ensures Carries(Hidden, item, Visible)
    {
      HiddenCarries(item);
    }
    SameTexts(Hidden, v, Visible);
    SameOptions(Hidden, v, Visible);
  }

  /** "correct" has no letter that a long s could stand for. */
  lemma CorrectHasOneFold(key: string)
    requires Spells(key, "correct")
    ensures !Visible(key)
  {
    assert FoldChar(LONG_S) == 's';
    forall i | 0 <= i < |key| ensures key[i] != LONG_S {
      assert FoldChar("correct"[i]) == "correct"[i] != 's';
    }
    RemovedExactly(key, "correct");
    VisibleExactly(key, "correct");
  }

  lemma HiddenCorrect(v: Doc)
    ensures CorrectBoolean(Parsed(Hidden(v))).None?
  {
    HiddenValues(v, "correct");
    if v.ObjDoc? {
      forall e | e in v.entries && Spells(e.key, "correct") ensures !Visible(e.key) {
        CorrectHasOneFold(e.key);
      }
      NoValues(v.entries, "correct", Visible);
    }
  }

  // ---------- What sanitizing hides ----------

  /** Evaluation learns no correct answer: no option id, no boolean, no text. */
  predicate RevealsNothing(raw: Raw) {
    && (CorrectIds(raw).None? || CorrectIds(raw).value == [])
    && CorrectBoolean(raw).None?
    && (AcceptedAnswers(raw).None? || AcceptedAnswers(raw).value == [])
  }

  /** The tree that is sanitized: a missing, malformed or null configuration becomes the empty object. */
  function Given(raw: Raw): Value {
    if raw.Parsed? && !raw.doc.NullDoc? then TreeOf(raw.doc) else EMPTY_OBJECT
  }

  /** To a reader who overlooks each spelling of a correctness tag without a long s, the document flags no
      option and accepts no text. */
  predicate NoLongAnswers(d: Doc) {
    && (OptionsSeen(d, Visible).None? || NormalizeSlice(FlaggedIds(OptionsSeen(d, Visible).value)) == [])
    && (AcceptedSeen(d, Visible).None? || Folded(AcceptedSeen(d, Visible).value) == [])
  }

  lemma SanitizedIsHidden(raw: Raw)
    ensures SanitizedDoc(raw) == Hidden(Listed(ByBytes, Given(raw)))
  {
    assert Stripped(EMPTY_OBJECT).fields == map[];
    assert Sanitized(raw) == Stripped(Given(raw));
    ListedStripped(ByBytes, Given(raw));
  }

  lemma HiddenRevealsNothing(d: Doc)
    ensures RevealsNothing(Parsed(Hidden(d))) <==> NoLongAnswers(d)
  {
    HiddenReading(d);
    HiddenCorrect(d);
  }

  /** From what `sanitizeQuestionConfig` returns evaluation learns no correct answer exactly when the
      given configuration, its keys listed byte by byte, has none under keys with a long s. */
  lemma SanitizedRevealsNothingExactly(raw: Raw)
    ensures RevealsNothing(Parsed(SanitizedDoc(raw))) <==> NoLongAnswers(Listed(ByBytes, Given(raw)))
  {
    SanitizedIsHidden(raw);
    HiddenRevealsNothing(Listed(ByBytes, Given(raw)));
  }

  // ---------- Configurations without a long s ----------

  predicate PlainPath(path: Path) {
    forall i :: 0 <= i < |path| && path[i].Key? ==> LONG_S !in path[i].key
  }

  /** No key of the tree has a long s. */
  ghost predicate PlainKeys(v: Value) {
    forall path: Path :: At(v, path).Some? ==> PlainPath(path)
  }

  lemma PlainChild(v: Value, e: Edge)
    requires PlainKeys(v) && HasEdge(v, e)
    ensures PlainKeys(Follow(v, e))
    ensures e.Key? ==> LONG_S !in e.key
  {
    AtEdge(v, e, []);
    assert PlainPath([e] + []) && ([e] + [])[0] == e;
    forall path: Path | At(Follow(v, e), path).Some? ensures PlainPath(path) {
      AtEdge(v, e, path);
      assert PlainPath([e] + path);
      forall i | 0 <= i < |path| ensures path[i] == ([e] + path)[i + 1] {
      }
    }
  }

  predicate PlainDoc(d: Doc) {
    match d
    case ArrDoc(items) => forall i :: 0 <= i < |items| ==> PlainDoc(items[i])
    case ObjDoc(entries) => forall i :: 0 <= i < |entries| ==> LONG_S !in entries[i].key && PlainDoc(entries[i].value)
    case _ => true
  }

  lemma {:induction false} PlainListed(order: KeyOrder, v: Value)
    requires PlainKeys(v)
    ensures PlainDoc(Listed(order, v))
    decreases v, 1
  {
    match v {
      case Arr(items) =>
        forall i | 0 <= i < |items| ensures PlainDoc(Listed(order, items[i])) {
          PlainChild(v, Index(i));
          PlainListed(order, items[i]);
        }
      case Obj(fields) =>
        PlainListedEntries(order, v, fields.Keys);
      case _ =>
    }
  }

  lemma {:induction false} PlainListedEntries(order: KeyOrder, v: Value, keys: set<string>)
    requires v.Obj? && keys <= v.fields.Keys && PlainKeys(v)
    ensures PlainDoc(ObjDoc(ListedEntries(order, v, keys)))
    decreases v, 0, keys
  {
    if keys != {} {
      var last := LastKey(order, keys);
      PlainListedEntries(order, v, keys - {last});
      PlainChild(v, Key(last));
      PlainListed(order, v.fields[last]);
    }
  }

  lemma PlainFields(d: Doc, tag: string)
    requires PlainDoc(d) && tag in CORRECTNESS_TAGS
    ensures FieldValues(d, tag, Visible) == []
  {
    if d.ObjDoc? {
      forall e | e in d.entries && Spells(e.key, tag) ensures !Visible(e.key) {
        RemovedExactly(e.key, tag);
        VisibleExactly(e.key, tag);
      }
      NoValues(d.entries, tag, Visible);
    }
  }

  lemma {:induction false} ValuesArePlain(entries: seq<Entry>, tag: string)
    requires PlainDoc(ObjDoc(entries))
    ensures forall v :: v in Values(entries, tag, Visible) ==> PlainDoc(v)
  {
    if entries != [] {
      ValuesArePlain(entries[..|entries| - 1], tag);
    }
  }

  predicate Unflagged(options: seq<Choice>) {
    forall c :: c in options ==> !Flagged(c)
  }

  lemma PlainChoiceUnflagged(before: Choice, v: Doc)
    requires !Flagged(before) && PlainDoc(v)
    ensures var r := ChoiceOver(before, v, Visible);
            r.Some? ==> !Flagged(r.value)
  {
    PlainFields(v, "is_correct");
    PlainFields(v, "isCorrect");
  }

  lemma {:induction false} PlainItemsUnflagged(before: seq<Choice>, items: seq<Doc>)
    requires Unflagged(before) && forall i :: 0 <= i < |items| ==> PlainDoc(items[i])
    ensures var r := ItemsOver(before, NO_CHOICE, items, ChoiceDecoder(Visible));
            r.Some? ==> Unflagged(r.value)
  {
    if items != [] {
      var n := |items| - 1;
      PlainItemsUnflagged(before, items[..n]);
      PlainChoiceUnflagged(if n < |before| then before[n] else NO_CHOICE, items[n]);
    }
  }

  lemma {:induction false} PlainListsUnflagged(values: seq<Doc>)
    requires forall v :: v in values ==> PlainDoc(v)
    ensures var r := AllOver(Buffer([], []), values, ListDecoder(NO_CHOICE, ChoiceDecoder(Visible)));
            r.Some? ==> Unflagged(r.value.shown + r.value.stale)
  {
    if values != [] {
      var init, last := values[..|values| - 1], values[|values| - 1];
      PlainListsUnflagged(init);
      var before := AllOver(Buffer([], []), init, ListDecoder(NO_CHOICE, ChoiceDecoder(Visible)));
      if before.Some? && last.ArrDoc? {
        assert PlainDoc(last);
        PlainItemsUnflagged(before.value.shown + before.value.stale, last.items);
      }
    }
  }

  lemma {:induction false} UnflaggedIds(options: seq<Choice>)
    requires Unflagged(options)
    ensures FlaggedIds(options) == []
  {
    if options != [] {
      UnflaggedIds(options[..|options| - 1]);
    }
  }

  /** A configuration without a long s in any key is hidden completely. */
  lemma PlainConfigIsHidden(raw: Raw)
    requires PlainKeys(Given(raw))
    ensures RevealsNothing(Parsed(SanitizedDoc(raw)))
  {
    var d := Listed(ByBytes, Given(raw));
    SanitizedRevealsNothingExactly(raw);
    PlainListed(ByBytes, Given(raw));
    PlainFields(d, "accepted_answers");
    PlainFields(d, "acceptedAnswers");
    if d.ObjDoc? {
      ValuesArePlain(d.entries, "options");
    }
    PlainListsUnflagged(FieldValues(d, "options", Visible));
    if OptionsSeen(d, Visible).Some? {
      UnflaggedIds(OptionsSeen(d, Visible).value);
    }
  }

  // ---------- A configuration that is not hidden ----------

  const LONG_FLAG := "i\U{017F}_correct"

  function LongFlaggedOption(id: string): Doc {
    ObjDoc([Entry("id", StrDoc(id)), Entry(LONG_FLAG, BoolDoc(true))])
  }

  /** One option, flagged under a key with a long s. */
  function LongFlagged(id: string): Doc {
    ObjDoc([Entry("options", ArrDoc([LongFlaggedOption(id)]))])
  }

  lemma LongFlagSpells()
    ensures Spells(LONG_FLAG, "is_correct") && LONG_S in LONG_FLAG
    ensures !Spells(LONG_FLAG, "isCorrect") && !Spells(LONG_FLAG, "id")
  {
    assert LONG_FLAG[1] == LONG_S && FoldChar(LONG_S) == 's';
  }

  lemma OptionRelisted(id: string)
    ensures Listed(ByBytes, TreeOf(LongFlaggedOption(id))) == LongFlaggedOption(id)
  {
    var first, second := Entry("id", StrDoc(id)), Entry(LONG_FLAG, BoolDoc(true));
    assert "id"[1] < LONG_FLAG[1];
    assert BytesAtMost("id"[1..], LONG_FLAG[1..]);
    TreeOfPair(first, second);
    ListedPair(ByBytes, TreeOf(LongFlaggedOption(id)), "id", LONG_FLAG);
  }

  lemma ListRelisted(item: Doc)
    requires Listed(ByBytes, TreeOf(item)) == item
    ensures Listed(ByBytes, TreeOf(ArrDoc([item]))) == ArrDoc([item])
  {
    var list := ArrDoc([item]);
    assert TreeOf(list).items[0] == TreeOf(item);
    assert Listed(ByBytes, TreeOf(list)).items[0] == item;
  }

  lemma FieldRelisted(key: string, value: Doc)
    requires Listed(ByBytes, TreeOf(value)) == value
    ensures Listed(ByBytes, TreeOf(ObjDoc([Entry(key, value)]))) == ObjDoc([Entry(key, value)])
  {
    var d := ObjDoc([Entry(key, value)]);
    TreeOfOne(key, value);
    EntriesOfOne(ByBytes, TreeOf(d), key);
    assert TreeOf(d).fields.Keys == {key};
  }

  lemma VisibleTags()
    ensures Visible("id") && Visible("options") && Visible(LONG_FLAG)
  {
    LongFlagSpells();
    assert "id" in OTHER_TAGS && Spells("id", "id") && "options" in OTHER_TAGS && Spells("options", "options");
  }

  lemma FlaggedOver(option: Doc, id: string, sees: string -> bool)
    requires StructLike(option) && FieldValues(option, "id", sees) == [StrDoc(id)]
    requires FieldValues(option, "is_correct", sees) == [BoolDoc(true)]
    requires FieldValues(option, "isCorrect", sees) == []
    ensures ChoiceOver(NO_CHOICE, option, sees) == Some(Choice(id, true, false))
  {
    OneOver("", StrDoc(id), StringOver);
    OneOver(false, BoolDoc(true), FlagOver);
  }

  lemma LongOption(id: string, sees: string -> bool)
    requires sees("id") && sees(LONG_FLAG)
    ensures ChoiceOver(NO_CHOICE, LongFlaggedOption(id), sees) == Some(Choice(id, true, false))
  {
    LongFlagSpells();
    assert |"id"| < |"is_correct"| && |"id"| < |"isCorrect"|;
    var first, second := Entry("id", StrDoc(id)), Entry(LONG_FLAG, BoolDoc(true));
    ValuesOfPair(first, second, "id", sees);
    ValuesOfPair(first, second, "is_correct", sees);
    ValuesOfPair(first, second, "isCorrect", sees);
    FlaggedOver(LongFlaggedOption(id), id, sees);
  }

  lemma OneFlagged(choice: Choice)
    requires Flagged(choice) && Trim(choice.id) == choice.id != ""
    ensures NormalizeSlice(FlaggedIds([choice])) == [choice.id]
  {
    var choices := [choice];
    assert choices[..|choices| - 1] == [] && choices[|choices| - 1] == choice;
    assert FlaggedIds(choices[..|choices| - 1]) == [];
    var ids := FlaggedIds(choices);
    assert ids == [choice.id];
    NormalizeSliceFixesClean(ids);
  }

  lemma OneOption(v: Doc, option: Doc, choice: Choice)
    requires StructLike(v) && FieldValues(v, "options", Visible) == [ArrDoc([option])]
    requires ChoiceOver(NO_CHOICE, option, Visible) == Some(choice)
    ensures OptionsSeen(v, Visible) == Some([choice])
  {
    OneItem(NO_CHOICE, option, ChoiceDecoder(Visible));
    OneOver(Buffer([], []), ArrDoc([option]), ListDecoder(NO_CHOICE, ChoiceDecoder(Visible)));
  }

  /** Sanitizing keeps the flag, and evaluation of what it returns finds the correct option. */
  lemma LongSpellingIsNotHidden(id: string)
    requires Trim(id) == id != ""
    ensures CorrectIds(Parsed(SanitizedDoc(Parsed(LongFlagged(id))))) == Some([id])
  {
    SanitizedIsHidden(Parsed(LongFlagged(id)));
    OptionRelisted(id);
    ListRelisted(LongFlaggedOption(id));
    FieldRelisted("options", ArrDoc([LongFlaggedOption(id)]));
    HiddenReading(LongFlagged(id));
    VisibleTags();
    ValuesOfOne(Entry("options", ArrDoc([LongFlaggedOption(id)])), "options", Visible);
    LongOption(id, Visible);
    OneOption(LongFlagged(id), LongFlaggedOption(id), Choice(id, true, false));
    OneFlagged(Choice(id, true, false));
  }

  // ---------- A configuration that only the order of the keys reveals ----------

  const LONG_OPTIONS := "OPTION\U{017F}"

  /** The flagged option again, and an empty list under a second spelling. */
  function TwoLists(id: string): Doc {
    ObjDoc([Entry("options", ArrDoc([LongFlaggedOption(id)])), Entry(LONG_OPTIONS, ArrDoc([]))])
  }

  lemma LongOptionsSpells()
    ensures Spells(LONG_OPTIONS, "options") && Spells("options", "options") && Visible(LONG_OPTIONS)
    ensures AtMost(ByBytes, LONG_OPTIONS, "options")
  {
    assert LONG_OPTIONS[6] == LONG_S && FoldChar(LONG_S) == 's';
    assert LONG_OPTIONS[0] < "options"[0];
  }

  /** The list that comes last counts. */
  lemma LastListCounts(option: Doc, choice: Choice, sees: string -> bool)
    requires ChoiceOver(NO_CHOICE, option, sees) == Some(choice)
    ensures var decode := ListDecoder(NO_CHOICE, ChoiceDecoder(sees));
            && Shown(AllOver(Buffer([], []), [ArrDoc([option]), ArrDoc([])], decode)) == Some([])
            && Shown(AllOver(Buffer([], []), [ArrDoc([]), ArrDoc([option])], decode)) == Some([choice])
  {
    var decode := ListDecoder(NO_CHOICE, ChoiceDecoder(sees));
    OneItem(NO_CHOICE, option, ChoiceDecoder(sees));
    TwoOver(Buffer([], []), ArrDoc([option]), ArrDoc([]), decode);
    TwoOver(Buffer([], []), ArrDoc([]), ArrDoc([option]), decode);
  }

  lemma TwoListsRelisted(id: string)
    ensures Listed(ByBytes, TreeOf(TwoLists(id)))
         == ObjDoc([Entry(LONG_OPTIONS, ArrDoc([])), Entry("options", ArrDoc([LongFlaggedOption(id)]))])
  {
    var options, none := ArrDoc([LongFlaggedOption(id)]), ArrDoc([]);
    OptionRelisted(id);
    ListRelisted(LongFlaggedOption(id));
    assert Listed(ByBytes, TreeOf(none)) == none;
    TreeOfPair(Entry("options", options), Entry(LONG_OPTIONS, none));
    LongOptionsSpells();
    ListedPair(ByBytes, TreeOf(TwoLists(id)), LONG_OPTIONS, "options");
  }

  lemma ListsRead(first: Entry, second: Entry, sees: string -> bool)
    requires Spells(first.key, "options") && Spells(second.key, "options") && sees(first.key) && sees(second.key)
    ensures FieldValues(ObjDoc([first, second]), "options", sees) == [first.value, second.value]
  {
    ValuesOfPair(first, second, "options", sees);
  }

  /** As given, the empty list comes last and no option is read; in what sanitizing returns the list with
      the flagged option comes last. */
  lemma MarshalledOrderReveals(id: string)
    requires Trim(id) == id != ""
    ensures CorrectIds(Parsed(TwoLists(id))) == Some([])
    ensures CorrectIds(Parsed(SanitizedDoc(Parsed(TwoLists(id))))) == Some([id])
  {
    var option, choice := LongFlaggedOption(id), Choice(id, true, false);
    var full, none := Entry("options", ArrDoc([option])), Entry(LONG_OPTIONS, ArrDoc([]));
    VisibleTags();
    LongOptionsSpells();
    LongOption(id, SeesAll);
    LongOption(id, Visible);
    LastListCounts(option, choice, SeesAll);
    LastListCounts(option, choice, Visible);
    ListsRead(full, none, SeesAll);
    ListsRead(none, full, Visible);
    SanitizedIsHidden(Parsed(TwoLists(id)));
    TwoListsRelisted(id);
    HiddenReading(ObjDoc([none, full]));
    OneFlagged(choice);
  }
}
