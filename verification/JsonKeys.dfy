/** Object keys: which keys Go's JSON decoder reads for a field tag, and the two orders in which
    documents list the keys of an object. */
module JsonKeys {
  import opened Text

  /** The folding of the decoder, for tags of ASCII letters: besides upper case, the long s (U+017F)
      and the Kelvin sign (U+212A) fold to letters. */
  function FoldChar(c: char): char {
    var n := c as int;
    if 'A' <= c <= 'Z' then (n + 0x20) as char
    else if n == 0x17F then 's'
    else if n == 0x212A then 'k'
    else c
  }

  predicate Spells(key: string, tag: string) {
    |key| == |tag| && forall i :: 0 <= i < |key| ==> FoldChar(key[i]) == FoldChar(tag[i])
  }

  // ---------- Two orders ----------

  /** The database (jsonb) lists keys by byte length and then byte by byte, the encoder of Go byte by byte. */
  datatype KeyOrder = ByLength | ByBytes

  predicate BytesAtMost(a: string, b: string) {
    || a == ""
    || (b != "" && (a[0] < b[0] || (a[0] == b[0] && BytesAtMost(a[1..], b[1..]))))
  }

  predicate AtMost(order: KeyOrder, a: string, b: string) {
    if order.ByBytes? || ByteLength(a) == ByteLength(b) then BytesAtMost(a, b) else ByteLength(a) < ByteLength(b)
  }

  lemma {:induction false} BytesTotal(a: string, b: string)
    ensures BytesAtMost(a, b) || BytesAtMost(b, a)
    ensures BytesAtMost(a, b) && BytesAtMost(b, a) ==> a == b
  {
    if a != "" && b != "" && a[0] == b[0] {
      BytesTotal(a[1..], b[1..]);
      assert a == [a[0]] + a[1..] && b == [b[0]] + b[1..];
    }
  }

  lemma {:induction false} BytesTransitive(a: string, b: string, c: string)
    requires BytesAtMost(a, b) && BytesAtMost(b, c)
    ensures BytesAtMost(a, c)
  {
    if a != "" && a[0] == b[0] == c[0] {
      BytesTransitive(a[1..], b[1..], c[1..]);
    }
  }

  lemma OrderTotal(order: KeyOrder, a: string, b: string)
    ensures AtMost(order, a, b) || AtMost(order, b, a)
    ensures AtMost(order, a, b) && AtMost(order, b, a) ==> a == b
  {
    BytesTotal(a, b);
  }

  lemma OrderTransitive(order: KeyOrder, a: string, b: string, c: string)
    requires AtMost(order, a, b) && AtMost(order, b, c)
    ensures AtMost(order, a, c)
  {
    if BytesAtMost(a, b) && BytesAtMost(b, c) {
      BytesTransitive(a, b, c);
    }
  }

  predicate IsLast(order: KeyOrder, key: string, keys: set<string>) {
    key in keys && forall other :: other in keys ==> AtMost(order, other, key)
  }

  lemma {:induction false} SomeIsLast(order: KeyOrder, keys: set<string>)
    requires keys != {}
    ensures exists last :: IsLast(order, last, keys)
    decreases keys
  {
    var key :| key in keys;
    OrderTotal(order, key, key);
    if keys == {key} {
      assert IsLast(order, key, keys);
    } else {
      SomeIsLast(order, keys - {key});
      var before :| IsLast(order, before, keys - {key});
      OrderTotal(order, key, before);
      var last := if AtMost(order, before, key) then key else before;
      forall other | other in keys ensures AtMost(order, other, last) {
        if other != key && last == key {
          OrderTransitive(order, other, before, key);
        }
      }
      assert IsLast(order, last, keys);
    }
  }

  lemma LastIsUnique(order: KeyOrder, a: string, b: string, keys: set<string>)
    requires IsLast(order, a, keys) && IsLast(order, b, keys)
    ensures a == b
  {
    OrderTotal(order, a, b);
  }

  /** The key listed last. */
  function LastKey(order: KeyOrder, keys: set<string>): (last: string)
    requires keys != {}
    ensures IsLast(order, last, keys)
  {
    SomeIsLast(order, keys);
    assert forall a, b :: IsLast(order, a, keys) && IsLast(order, b, keys) ==> a == b by {
      forall a, b | IsLast(order, a, keys) && IsLast(order, b, keys) ensures a == b {
        LastIsUnique(order, a, b, keys);
      }
    }
    var last :| IsLast(order, last, keys);
    last
  }
}
