/** JSON documents as texts list them: the entries of an object in order, possibly with a key twice.
    A request brings a document in the client's order; the database and the encoder list the tree of
    a document in orders of their own. */
module JsonDocs {
  import opened Json
  import opened JsonKeys

  datatype Doc =
    | NullDoc
    | BoolDoc(b: bool)
    | NumDoc(text: string)
    | StrDoc(s: string)
    | ArrDoc(items: seq<Doc>)
    | ObjDoc(entries: seq<Entry>)

  datatype Entry = Entry(key: string, value: Doc)

  /** A raw column: nothing, bytes that are not JSON, or a document. */
  datatype Raw = Empty | Malformed | Parsed(doc: Doc)

  const EMPTY_DOC := ObjDoc([])

  // ---------- From documents to trees ----------

  /** The tree of a document: of equal keys the last counts. */
  function TreeOf(d: Doc): Value
    decreases d, 1, 0
  {
    match d
    case NullDoc => Null
    case BoolDoc(b) => Bool(b)
    case NumDoc(text) => Num(text)
    case StrDoc(s) => Str(s)
    case ArrDoc(items) => Arr(seq(|items|, i requires 0 <= i < |items| => TreeOf(items[i])))
    case ObjDoc(entries) => Obj(Fields(d, |entries|))
  }

  /** The first `n` entries of an object as a map. */
  function Fields(d: Doc, n: nat): map<string, Value>
    requires d.ObjDoc? && n <= |d.entries|
    decreases d, 0, n
  {
    if n == 0 then map[]
    else
      var e := d.entries[n - 1];
      Fields(d, n - 1)[e.key := TreeOf(e.value)]
  }

  // ---------- From trees to documents ----------

  /** The document that lists a tree in the given order. */
  function Listed(order: KeyOrder, v: Value): Doc
    decreases v, 1
  {
    match v
    case Null => NullDoc
    case Bool(b) => BoolDoc(b)
    case Num(text) => NumDoc(text)
    case Str(s) => StrDoc(s)
    case Arr(items) => ArrDoc(seq(|items|, i requires 0 <= i < |items| => Listed(order, items[i])))
    case Obj(fields) => ObjDoc(ListedEntries(order, v, fields.Keys))
  }

  function ListedEntries(order: KeyOrder, v: Value, keys: set<string>): seq<Entry>
    requires v.Obj? && keys <= v.fields.Keys
    decreases v, 0, keys
  {
    if keys == {} then []
    else
      var last := LastKey(order, keys);
      ListedEntries(order, v, keys - {last}) + [Entry(last, Listed(order, v.fields[last]))]
  }

  /** What the database gives back for a document it was given. */
  function StoredDoc(d: Doc): Doc {
    Listed(ByLength, TreeOf(d))
  }

  function StoredRaw(raw: Raw): Raw {
    if raw.Parsed? then Parsed(StoredDoc(raw.doc)) else raw
  }

  // ---------- What a reader sees under a tag ----------

  /** The values of the entries that spell the tag and that the reader sees, in order. */
  function Values(entries: seq<Entry>, tag: string, sees: string -> bool): seq<Doc> {
    if entries == [] then []
    else
      var last := entries[|entries| - 1];
      Values(entries[..|entries| - 1], tag, sees)
      + (if Spells(last.key, tag) && sees(last.key) then [last.value] else [])
  }

  function FieldValues(d: Doc, tag: string, sees: string -> bool): seq<Doc> {
    if d.ObjDoc? then Values(d.entries, tag, sees) else []
  }

  predicate SeesAll(key: string) {
    true
  }

  // ---------- Documents whose order does not matter ----------

  lemma ValuesMore(entries: seq<Entry>, e: Entry, tag: string, sees: string -> bool)
    ensures Values(entries + [e], tag, sees)
         == Values(entries, tag, sees) + (if Spells(e.key, tag) && sees(e.key) then [e.value] else [])
  {
    assert (entries + [e])[..|entries|] == entries;
  }

  function SpeltAmong(keys: set<string>, tag: string): set<string> {
    set key | key in keys && Spells(key, tag)
  }

  lemma SpeltAmongMore(keys: set<string>, key: string, tag: string)
    ensures SpeltAmong(keys + {key}, tag) == SpeltAmong(keys, tag) + (if Spells(key, tag) then {key} else {})
  {
  }

  /** A tree lists nothing under a tag that no key spells. */
  lemma {:induction false} ListedNone(order: KeyOrder, v: Value, keys: set<string>, tag: string)
    requires v.Obj? && keys <= v.fields.Keys && SpeltAmong(keys, tag) == {}
    ensures Values(ListedEntries(order, v, keys), tag, SeesAll) == []
    decreases keys
  {
    if keys != {} {
      var last := LastKey(order, keys);
      SpeltAmongMore(keys - {last}, last, tag);
      assert keys - {last} + {last} == keys;
      ListedNone(order, v, keys - {last}, tag);
      ValuesMore(ListedEntries(order, v, keys - {last}), Entry(last, Listed(order, v.fields[last])), tag, SeesAll);
    }
  }

  /** A tree lists one value under a tag that one key spells. */
  lemma {:induction false} ListedOne(order: KeyOrder, v: Value, keys: set<string>, tag: string, key: string)
    requires v.Obj? && keys <= v.fields.Keys && key in v.fields && SpeltAmong(keys, tag) == {key}
    ensures Values(ListedEntries(order, v, keys), tag, SeesAll) == [Listed(order, v.fields[key])]
    decreases keys
  {
    assert key in SpeltAmong(keys, tag);
    var last := LastKey(order, keys);
    var rest := keys - {last};
    SpeltAmongMore(rest, last, tag);
    assert rest + {last} == keys;
    ValuesMore(ListedEntries(order, v, rest), Entry(last, Listed(order, v.fields[last])), tag, SeesAll);
    if Spells(last, tag) {
      assert last in SpeltAmong(keys, tag) && last !in SpeltAmong(rest, tag);
      assert SpeltAmong(rest, tag) == {};
      ListedNone(order, v, rest, tag);
    } else {
      ListedOne(order, v, rest, tag, key);
    }
  }

  /** A tag spelt at most once in the document is spelt as often in its tree. */
  lemma {:induction false} SpeltInTree(d: Doc, n: nat, tag: string)
    requires d.ObjDoc? && n <= |d.entries| && |Values(d.entries[..n], tag, SeesAll)| <= 1
    ensures var values := Values(d.entries[..n], tag, SeesAll);
            var spelt := SpeltAmong(Fields(d, n).Keys, tag);
            if values == [] then spelt == {}
            else exists key :: spelt == {key} && Fields(d, n)[key] == TreeOf(values[0])
    decreases n
  {
    if n > 0 {
      var e, init := d.entries[n - 1], d.entries[..n - 1];
      assert d.entries[..n] == init + [e];
      ValuesMore(init, e, tag, SeesAll);
      SpeltInTree(d, n - 1, tag);
      var spelt, before := SpeltAmong(Fields(d, n).Keys, tag), SpeltAmong(Fields(d, n - 1).Keys, tag);
      assert spelt == if Spells(e.key, tag) then before + {e.key} else before;
    }
  }

  /** So the database gives the one value back, as it stores it. */
  lemma StoredValues(d: Doc, tag: string)
    requires d.ObjDoc? && |FieldValues(d, tag, SeesAll)| <= 1
    ensures var values := FieldValues(d, tag, SeesAll);
            FieldValues(StoredDoc(d), tag, SeesAll) == if values == [] then [] else [StoredDoc(values[0])]
  {
    var v := TreeOf(d);
    assert d.entries[..|d.entries|] == d.entries;
    SpeltInTree(d, |d.entries|, tag);
    var spelt := SpeltAmong(v.fields.Keys, tag);
    if spelt == {} {
      ListedNone(ByLength, v, v.fields.Keys, tag);
    } else {
      var key :| spelt == {key};
      assert key in spelt;
      ListedOne(ByLength, v, v.fields.Keys, tag, key);
    }
  }

  // ---------- Listing loses nothing ----------

  lemma {:induction false} FieldsOfPrefix(entries: seq<Entry>, more: seq<Entry>, n: nat)
    requires n <= |entries|
    ensures Fields(ObjDoc(entries + more), n) == Fields(ObjDoc(entries), n)
  {
    if n > 0 {
      FieldsOfPrefix(entries, more, n - 1);
      assert (entries + more)[n - 1] == entries[n - 1];
    }
  }

  /** The tree of a listing is the tree that was listed, in either order. */
  lemma {:induction false} ListedTree(order: KeyOrder, v: Value)
    ensures TreeOf(Listed(order, v)) == v
    decreases v, 1
  {
    match v {
      case Arr(items) =>
        forall i | 0 <= i < |items| ensures TreeOf(Listed(order, items[i])) == items[i] {
          ListedTree(order, items[i]);
        }
      case Obj(fields) =>
        ListedFields(order, v, fields.Keys);
        assert (map k | k in fields :: fields[k]) == fields;
      case _ =>
    }
  }

  lemma {:induction false} ListedFields(order: KeyOrder, v: Value, keys: set<string>)
    requires v.Obj? && keys <= v.fields.Keys
    ensures var entries := ListedEntries(order, v, keys);
            Fields(ObjDoc(entries), |entries|) == map key | key in keys :: v.fields[key]
    decreases v, 0, keys
  {
    if keys != {} {
      var last := LastKey(order, keys);
      var entries := ListedEntries(order, v, keys - {last});
      ListedFields(order, v, keys - {last});
      ListedTree(order, v.fields[last]);
      FieldsOfPrefix(entries, [Entry(last, Listed(order, v.fields[last]))], |entries|);
    }
  }

  // ---------- Small objects ----------

  /** A reader sees nothing under a tag if he sees none of its spellings. */
  lemma {:induction false} NoValues(entries: seq<Entry>, tag: string, sees: string -> bool)
    requires forall e :: e in entries && Spells(e.key, tag) ==> !sees(e.key)
    ensures Values(entries, tag, sees) == []
  {
    if entries != [] {
      NoValues(entries[..|entries| - 1], tag, sees);
    }
  }

  lemma EntriesOfOne(order: KeyOrder, v: Value, key: string)
    requires v.Obj? && key in v.fields
    ensures ListedEntries(order, v, {key}) == [Entry(key, Listed(order, v.fields[key]))]
  {
    assert LastKey(order, {key}) == key;
    assert {key} - {key} == {};
  }

  lemma ListedPair(order: KeyOrder, v: Value, first: string, second: string)
    requires v.Obj? && v.fields.Keys == {first, second} && first != second && AtMost(order, first, second)
    ensures Listed(order, v)
         == ObjDoc([Entry(first, Listed(order, v.fields[first])), Entry(second, Listed(order, v.fields[second]))])
  {
    var keys := {first, second};
    OrderTotal(order, second, second);
    assert IsLast(order, second, keys);
    LastIsUnique(order, second, LastKey(order, keys), keys);
    assert keys - {second} == {first};
    EntriesOfOne(order, v, first);
  }

  lemma TreeOfOne(key: string, value: Doc)
    ensures TreeOf(ObjDoc([Entry(key, value)])) == Obj(map[key := TreeOf(value)])
  {
    var d := ObjDoc([Entry(key, value)]);
    assert Fields(d, 0) == map[] && Fields(d, 1) == map[key := TreeOf(value)];
  }

  lemma TreeOfPair(first: Entry, second: Entry)
    ensures TreeOf(ObjDoc([first, second]))
         == Obj(map[first.key := TreeOf(first.value)][second.key := TreeOf(second.value)])
  {
    var d := ObjDoc([first, second]);
    assert Fields(d, 0) == map[];
    assert Fields(d, 1) == map[first.key := TreeOf(first.value)];
  }

  lemma ValuesOfOne(e: Entry, tag: string, sees: string -> bool)
    ensures Values([e], tag, sees) == if Spells(e.key, tag) && sees(e.key) then [e.value] else []
  {
    assert [] + [e] == [e];
    ValuesMore([], e, tag, sees);
  }

  lemma ValuesOfPair(first: Entry, second: Entry, tag: string, sees: string -> bool)
    ensures Values([first, second], tag, sees)
         == (if Spells(first.key, tag) && sees(first.key) then [first.value] else [])
          + (if Spells(second.key, tag) && sees(second.key) then [second.value] else [])
  {
    assert [first] + [second] == [first, second];
    ValuesOfOne(first, tag, sees);
    ValuesMore([first], second, tag, sees);
  }
}
