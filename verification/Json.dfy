/** JSON values as trees. Objects are maps, so keys are distinct and unordered. */
module Json {
  import opened Basics

  datatype Value =
    | Null
    | Bool(b: bool)
    | Num(text: string)
    | Str(s: string)
    | Arr(items: seq<Value>)
    | Obj(fields: map<string, Value>)

  const EMPTY_OBJECT := Obj(map[])

  // ---------- Paths ----------

  datatype Edge = Key(key: string) | Index(index: nat)

  type Path = seq<Edge>

  /** What can be seen at one node without looking below it. */
  datatype Label = LeafLabel(leaf: Value) | ArrayOf(length: nat) | ObjectLabel

  function LabelOf(v: Value): Label {
    match v
    case Arr(items) => ArrayOf(|items|)
    case Obj(_) => ObjectLabel
    case _ => LeafLabel(v)
  }

  predicate HasEdge(v: Value, e: Edge) {
    match e
    case Key(k) => v.Obj? && k in v.fields
    case Index(i) => v.Arr? && i < |v.items|
  }

  function Follow(v: Value, e: Edge): (child: Value)
    requires HasEdge(v, e)
    ensures child < v
  {
    match e
    case Key(k) => v.fields[k]
    case Index(i) => v.items[i]
  }

  /** The label at the end of a path, or none if the path leaves the tree. */
  function At(v: Value, path: Path): Option<Label>
    decreases |path|
  {
    if path == [] then Some(LabelOf(v))
    else if HasEdge(v, path[0]) then At(Follow(v, path[0]), path[1..])
    else None
  }

  lemma AtEdge(v: Value, e: Edge, path: Path)
    ensures At(v, [e] + path) == if HasEdge(v, e) then At(Follow(v, e), path) else None
  {
    assert ([e] + path)[1..] == path;
  }

  /** A tree is determined by its labels: nothing is hidden from paths. */
  lemma {:induction false} PathsDetermineTree(a: Value, b: Value)
    requires forall path :: At(a, path) == At(b, path)
    ensures a == b
    decreases a
  {
    assert At(a, []) == At(b, []);
    forall e | HasEdge(a, e) || HasEdge(b, e)
      ensures HasEdge(a, e) && HasEdge(b, e) && Follow(a, e) == Follow(b, e)
    {
      AtEdge(a, e, []);
      AtEdge(b, e, []);
      assert At(a, [e] + []) == At(b, [e] + []);
      forall path ensures At(Follow(a, e), path) == At(Follow(b, e), path) {
        AtEdge(a, e, path);
        AtEdge(b, e, path);
        assert At(a, [e] + path) == At(b, [e] + path);
      }
      PathsDetermineTree(Follow(a, e), Follow(b, e));
    }
    match a {
      case Arr(items) =>
        forall i | 0 <= i < |items| ensures items[i] == b.items[i] {
          assert HasEdge(a, Index(i));
        }
      case Obj(fields) =>
        forall k | k in fields || k in b.fields
          ensures k in fields && k in b.fields && fields[k] == b.fields[k]
        {
          assert HasEdge(a, Key(k)) || HasEdge(b, Key(k));
        }
      case _ =>
    }
  }
}
