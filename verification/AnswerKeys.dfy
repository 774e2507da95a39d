/** Removing the answer key from a question configuration before it leaves the server. */
module AnswerKeys {
  import opened Basics
  import opened Text
  import opened Json
  import opened JsonKeys
  import opened JsonDocs

  const ANSWER_KEYS := {
    "is_correct", "iscorrect", "correct",
    "accepted_answer", "accepted_answers", "acceptedanswer", "acceptedanswers",
    "correct_answer", "correct_answers", "correctanswer", "correctanswers",
    "correct_id", "correct_ids", "correctid", "correctids",
    "correct_option_id", "correct_option_ids", "correctoptionid", "correctoptionids",
    "answer_key", "answer_keys", "answerkey", "answerkeys",
    "expected_answer", "expected_answers", "expectedanswer", "expectedanswers"
  }

  predicate IsAnswerKey(key: string) {
    Lower(Trim(key)) in ANSWER_KEYS
  }

  /** The tree without any entry whose key is an answer key, at any depth. */
  function Stripped(v: Value): Value {
    match v
    case Arr(items) => Arr(seq(|items|, i requires 0 <= i < |items| => Stripped(items[i])))
    case Obj(fields) => Obj(map k | k in fields && !IsAnswerKey(k) :: Stripped(fields[k]))
    case _ => v
  }

  /** `sanitizeQuestionConfig`: anything that is not a document, and null, becomes the empty object. */
  function Sanitized(raw: Raw): Value {
    if raw.Parsed? && !raw.doc.NullDoc? then Stripped(TreeOf(raw.doc)) else EMPTY_OBJECT
  }

  /** The text that leaves the server: the encoder lists the keys byte by byte. */
  function SanitizedDoc(raw: Raw): Doc {
    Listed(ByBytes, Sanitized(raw))
  }

  predicate Public(path: Path) {
    forall i :: 0 <= i < |path| && path[i].Key? ==> !IsAnswerKey(path[i].key)
  }

  /** Removal is exact: every path without an answer key shows what it showed before, and every
      path through an answer key is gone. */
  lemma {:induction false} StrippedAt(v: Value, path: Path)
    ensures At(Stripped(v), path) == if Public(path) then At(v, path) else None
    decreases |path|
  {
    if path != [] {
      var e, rest := path[0], path[1..];
      assert path == [e] + rest;
      assert Public(path) <==> (e.Key? ==> !IsAnswerKey(e.key)) && Public(rest);
      if HasEdge(Stripped(v), e) {
        assert HasEdge(v, e) && Follow(Stripped(v), e) == Stripped(Follow(v, e));
        StrippedAt(Follow(v, e), rest);
      } else {
        assert HasEdge(v, e) ==> !Public(path);
      }
    }
  }

  /** Agreement everywhere except under answer keys. */
  ghost predicate AgreeInPublic(a: Value, b: Value) {
    forall path :: Public(path) ==> At(a, path) == At(b, path)
  }

  /** Two trees have the same stripped form if and only if they agree on all public paths. */
  lemma StrippedDependsOnlyOnPublic(a: Value, b: Value)
    ensures Stripped(a) == Stripped(b) <==> AgreeInPublic(a, b)
  {
    forall path ensures At(Stripped(a), path) == (if Public(path) then At(a, path) else None) {
      StrippedAt(a, path);
    }
    forall path ensures At(Stripped(b), path) == (if Public(path) then At(b, path) else None) {
      StrippedAt(b, path);
    }
    if AgreeInPublic(a, b) {
      assert forall path :: At(Stripped(a), path) == At(Stripped(b), path);
      PathsDetermineTree(Stripped(a), Stripped(b));
    }
    if Stripped(a) == Stripped(b) {
      assert forall path :: Public(path) ==> At(a, path) == At(Stripped(a), path) == At(b, path);
    }
  }

  /** No answer key survives at any depth. */
  lemma NoAnswerKeyLeft(v: Value, path: Path)
    requires At(Stripped(v), path).Some?
    ensures Public(path)
  {
    StrippedAt(v, path);
  }

  lemma StrippedIdempotent(v: Value)
    ensures Stripped(Stripped(v)) == Stripped(v)
  {
    forall path | Public(path) ensures At(Stripped(v), path) == At(v, path) {
      StrippedAt(v, path);
    }
    StrippedDependsOnlyOnPublic(Stripped(v), v);
  }
}
