/** `removeAnswerKeys` as it runs: a recursive walk over a decoded tree that deletes entries of
    the objects in place. A decoded tree shares no object between two places. */
module AnswerKeysInPlace {
  import Json
  import opened AnswerKeys

  class JsonObject {
    var entries: map<string, Node>

    constructor (entries: map<string, Node>)
      ensures this.entries == entries
    {
      this.entries := entries;
    }
  }

  datatype Node = Leaf(value: Json.Value) | List(items: seq<Node>) | Object(obj: JsonObject)

  /** The shape of a decoded tree. Every inner node carries the set of objects it may reach. */
  datatype Shape =
    | LeafShape(value: Json.Value)
    | ListShape(items: seq<Shape>, reach: set<JsonObject>)
    | ObjectShape(obj: JsonObject, entries: map<string, Shape>, reach: set<JsonObject>)

  ghost function Objects(t: Shape): set<JsonObject> {
    if t.LeafShape? then {} else t.reach
  }

  /** No object is reached from two places, and leaves are leaves. */
  ghost predicate Separate(t: Shape) {
    match t
    case LeafShape(v) => !v.Arr? && !v.Obj?
    case ListShape(items, reach) =>
      && (forall i :: 0 <= i < |items| ==> Separate(items[i]) && Objects(items[i]) <= reach)
      && (forall i, j :: 0 <= i < |items| && 0 <= j < |items| && i != j ==> Objects(items[i]) !! Objects(items[j]))
    case ObjectShape(obj, entries, reach) =>
      && obj in reach
      && (forall k :: k in entries ==> Separate(entries[k]) && Objects(entries[k]) <= reach - {obj})
      && (forall k, m :: k in entries && m in entries && k != m ==> Objects(entries[k]) !! Objects(entries[m]))
  }

  /** The heap below `n` currently has shape `t`. */
  ghost predicate Holds(n: Node, t: Shape)
    requires Separate(t)
    reads Objects(t)
    decreases t
  {
    match t
    case LeafShape(v) => n == Leaf(v)
    case ListShape(items, _) =>
      && n.List? && |n.items| == |items|
      && forall i :: 0 <= i < |items| ==> Holds(n.items[i], items[i])
    case ObjectShape(obj, entries, _) =>
      && n == Object(obj)
      && obj.entries.Keys == entries.Keys
      && forall k :: k in entries ==> Holds(obj.entries[k], entries[k])
  }

  /** The JSON value a shape stands for. */
  ghost function ValueOf(t: Shape): Json.Value {
    match t
    case LeafShape(v) => v
    case ListShape(items, _) => Json.Arr(seq(|items|, i requires 0 <= i < |items| => ValueOf(items[i])))
    case ObjectShape(_, entries, _) => Json.Obj(map k | k in entries :: ValueOf(entries[k]))
  }

  ghost function Pruned(t: Shape): Shape {
    match t
    case LeafShape(_) => t
    case ListShape(items, reach) => ListShape(seq(|items|, i requires 0 <= i < |items| => Pruned(items[i])), reach)
    case ObjectShape(obj, entries, reach) =>
      ObjectShape(obj, map k | k in entries && !IsAnswerKey(k) :: Pruned(entries[k]), reach)
  }

  /** Pruning keeps the objects of every place apart. */
  lemma {:induction false} PrunedSeparate(t: Shape)
    requires Separate(t)
    ensures Separate(Pruned(t)) && Objects(Pruned(t)) == Objects(t)
  {
    match t {
      case LeafShape(_) =>
      case ListShape(items, _) =>
        forall i | 0 <= i < |items|
          ensures Separate(Pruned(items[i])) && Objects(Pruned(items[i])) == Objects(items[i])
        {
          PrunedSeparate(items[i]);
        }
      case ObjectShape(_, entries, _) =>
        forall k | k in entries
          ensures Separate(Pruned(entries[k])) && Objects(Pruned(entries[k])) == Objects(entries[k])
        {
          PrunedSeparate(entries[k]);
        }
    }
  }

  /** Pruning the shape is stripping the value it stands for. */
  lemma {:induction false} PrunedMeaning(t: Shape)
    requires Separate(t)
    ensures ValueOf(Pruned(t)) == Stripped(ValueOf(t))
  {
    match t {
      case LeafShape(_) =>
      case ListShape(items, _) =>
        forall i | 0 <= i < |items| ensures ValueOf(Pruned(items[i])) == Stripped(ValueOf(items[i])) {
          PrunedMeaning(items[i]);
        }
      case ObjectShape(_, entries, _) =>
        forall k | k in entries ensures ValueOf(Pruned(entries[k])) == Stripped(ValueOf(entries[k])) {
          PrunedMeaning(entries[k]);
        }
    }
  }

  method RemoveFromList(items: seq<Node>, ghost t: Shape)
    requires Separate(t) && Separate(Pruned(t)) && t.ListShape? && Holds(List(items), t)
    modifies Objects(t)
    ensures Holds(List(items), Pruned(t))
    decreases t, 0
  {
    for i := 0 to |items|
      invariant forall j :: 0 <= j < i ==> Holds(items[j], Pruned(t).items[j])
      invariant forall j :: i <= j < |items| ==> Holds(items[j], t.items[j])
    {
      assert forall j :: 0 <= j < |items| && j != i ==> Objects(Pruned(t).items[j]) !! Objects(t.items[i]) by {
        PrunedSeparate(t.items[i]);
      }
      RemoveAnswerKeys(items[i], t.items[i]);
    }
  }

  /** The object with one entry gone, or with one entry pruned. */
  ghost function Without(t: Shape, key: string): Shape
    requires t.ObjectShape?
  {
    t.(entries := t.entries - {key})
  }

  method DeleteEntry(obj: JsonObject, key: string, ghost t: Shape)
    requires Separate(t) && t.ObjectShape? && Holds(Object(obj), t) && key in t.entries
    modifies obj
    ensures Separate(Without(t, key)) && Holds(Object(obj), Without(t, key))
  {
    obj.entries := obj.entries - {key};
  }

  ghost function WithPruned(t: Shape, key: string): Shape
    requires t.ObjectShape? && key in t.entries
  {
    t.(entries := t.entries[key := Pruned(t.entries[key])])
  }

  lemma WithPrunedSeparate(t: Shape, key: string)
    requires Separate(t) && t.ObjectShape? && key in t.entries
    ensures Separate(WithPruned(t, key))
  {
    PrunedSeparate(t.entries[key]);
  }

  /** Pruning one entry disturbs no other: the objects below it are its own. */
  method DescendInto(obj: JsonObject, key: string, ghost t: Shape, ghost whole: Shape)
    requires Separate(t) && t.ObjectShape? && Holds(Object(obj), t) && key in t.entries
    requires whole.ObjectShape? && key in whole.entries && t.entries[key] == whole.entries[key]
    modifies Objects(t.entries[key])
    ensures Separate(WithPruned(t, key)) && Holds(Object(obj), WithPruned(t, key))
    decreases whole, 0
  {
    WithPrunedSeparate(t, key);
    RemoveAnswerKeys(obj.entries[key], t.entries[key]);
    forall k | k in t.entries && k != key ensures Holds(obj.entries[k], t.entries[k]) {
      assert Objects(t.entries[k]) !! Objects(t.entries[key]);
    }
  }

  /** In the middle of the loop: the keys of `rest` are as they were, the others are dealt with. */
  ghost predicate HalfPruned(t: Shape, rest: set<string>, now: Shape) {
    && t.ObjectShape? && now.ObjectShape? && now.obj == t.obj && now.reach == t.reach
    && rest <= now.entries.Keys <= t.entries.Keys
    && (forall k :: k in t.entries ==> (k in now.entries <==> k in rest || !IsAnswerKey(k)))
    && (forall k :: k in now.entries ==> now.entries[k] == if k in rest then t.entries[k] else Pruned(t.entries[k]))
  }

  lemma OneDeleted(t: Shape, rest: set<string>, now: Shape, key: string)
    requires HalfPruned(t, rest, now) && key in rest && IsAnswerKey(key)
    ensures HalfPruned(t, rest - {key}, Without(now, key))
  {
  }

  lemma OnePruned(t: Shape, rest: set<string>, now: Shape, key: string)
    requires HalfPruned(t, rest, now) && key in rest && !IsAnswerKey(key)
    ensures HalfPruned(t, rest - {key}, WithPruned(now, key))
  {
  }

  lemma AllPruned(t: Shape, now: Shape)
    requires HalfPruned(t, {}, now)
    ensures now == Pruned(t)
  {
    assert now.entries.Keys == Pruned(t).entries.Keys;
    assert now.entries == Pruned(t).entries;
  }

  method RemoveFromObject(obj: JsonObject, ghost t: Shape)
    requires Separate(t) && Separate(Pruned(t)) && t.ObjectShape? && Holds(Object(obj), t)
    modifies Objects(t)
    ensures Holds(Object(obj), Pruned(t))
    decreases t, 1
  {
    ghost var now := t;
    var rest := obj.entries.Keys;
    while rest != {}
      invariant HalfPruned(t, rest, now)
      invariant Separate(now) && Holds(Object(obj), now)
      decreases rest
    {
      var key :| key in rest;
      if IsAnswerKey(key) {
        DeleteEntry(obj, key, now);
        OneDeleted(t, rest, now, key);
        now := Without(now, key);
      } else {
        DescendInto(obj, key, now, t);
        OnePruned(t, rest, now, key);
        now := WithPruned(now, key);
      }
      rest := rest - {key};
    }
    AllPruned(t, now);
  }

  /** The walk. It changes only objects of the tree and leaves the pruned tree behind. */
  method RemoveAnswerKeys(n: Node, ghost t: Shape)
    requires Separate(t) && Holds(n, t)
    modifies Objects(t)
    ensures Separate(Pruned(t)) && Holds(n, Pruned(t))
    ensures ValueOf(Pruned(t)) == Stripped(ValueOf(t))
    decreases t, 2
  {
    PrunedSeparate(t);
    PrunedMeaning(t);
    match n {
      case Leaf(_) =>
      case List(items) =>
        RemoveFromList(items, t);
      case Object(obj) =>
        RemoveFromObject(obj, t);
    }
  }
}
