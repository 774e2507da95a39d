/** The list clean-up shared by grading and validation (`normalizeStringSlice`), and the
    set comparison of multiple-choice grading (`sameStringSet`). */
module StringLists {
  import opened Text

  /** Trimmed, blanks dropped, repeats dropped: the value the clean-up loop computes. */
  function NormalizeSlice(values: seq<string>): seq<string> {
    if values == [] then []
    else
      var done := NormalizeSlice(values[..|values| - 1]);
      var trimmed := Trim(values[|values| - 1]);
      if trimmed == "" || trimmed in done then done else done + [trimmed]
  }

  ghost predicate Distinct(values: seq<string>) {
    forall i, j :: 0 <= i < j < |values| ==> values[i] != values[j]
  }

  ghost predicate Clean(values: seq<string>) {
    Distinct(values) && forall v :: v in values ==> v != "" && Trim(v) == v
  }

  /** The non-blank trimmed forms that occur in a list. */
  ghost function TrimmedSet(values: seq<string>): set<string> {
    set v | v in values && Trim(v) != "" :: Trim(v)
  }

  ghost function ToSet(values: seq<string>): set<string> {
    set v | v in values
  }

  /** The position of the first element of `values` whose trimmed form is `x`. */
  ghost function FirstAt(values: seq<string>, x: string): (k: nat)
    requires x != "" && x in TrimmedSet(values)
    ensures k < |values| && Trim(values[k]) == x
    ensures forall j :: 0 <= j < k ==> Trim(values[j]) != x
  {
    if Trim(values[0]) == x then 0
    else
      assert values == [values[0]] + values[1..];
      1 + FirstAt(values[1..], x)
  }

  /** The result is clean and holds exactly the non-blank trimmed forms of the input. */
  lemma {:induction false} NormalizeSliceContents(values: seq<string>)
    ensures Clean(NormalizeSlice(values))
    ensures ToSet(NormalizeSlice(values)) == TrimmedSet(values)
  {
    if values != [] {
      var init, last := values[..|values| - 1], values[|values| - 1];
      assert values == init + [last];
      NormalizeSliceContents(init);
      TrimIdempotent(last);
      var done := NormalizeSlice(init);
      var trimmed := Trim(last);
      assert TrimmedSet(values) == TrimmedSet(init) + (if trimmed == "" then {} else {trimmed});
      assert ToSet(done + [trimmed]) == ToSet(done) + {trimmed};
      assert trimmed in done <==> trimmed in ToSet(done);
    }
  }

  lemma FirstAtPrefix(values: seq<string>, x: string)
    requires values != [] && x != "" && x in TrimmedSet(values[..|values| - 1])
    ensures x in TrimmedSet(values)
    ensures FirstAt(values, x) == FirstAt(values[..|values| - 1], x)
  {
    var init := values[..|values| - 1];
    var k := FirstAt(init, x);
    assert values[k] == init[k];
    var k' := FirstAt(values, x);
    assert k' < |init| ==> init[k'] == values[k'];
    assert forall m :: 0 <= m < k ==> init[m] == values[m];
  }

  lemma FirstAtEnd(values: seq<string>, x: string)
    requires x != "" && x in TrimmedSet(values) && x !in TrimmedSet(values[..|values| - 1])
    ensures FirstAt(values, x) == |values| - 1
  {
    var init := values[..|values| - 1];
    forall m | 0 <= m < |init| ensures Trim(values[m]) != x {
      assert init[m] in init && init[m] == values[m];
    }
  }

  /** The result lists the forms by first occurrence. */
  lemma {:induction false} NormalizeSliceKeepsFirstOccurrences(values: seq<string>, i: nat, j: nat)
    requires i < j < |NormalizeSlice(values)|
    ensures NormalizeSlice(values)[i] in TrimmedSet(values) && NormalizeSlice(values)[j] in TrimmedSet(values)
    ensures NormalizeSlice(values)[i] != "" && NormalizeSlice(values)[j] != ""
    ensures FirstAt(values, NormalizeSlice(values)[i]) < FirstAt(values, NormalizeSlice(values)[j])
  {
    var r := NormalizeSlice(values);
    NormalizeSliceContents(values);
    assert r[i] in r && r[j] in r;
    assert r[i] in ToSet(r) && r[j] in ToSet(r);
    var init := values[..|values| - 1];
    NormalizeSliceContents(init);
    var done := NormalizeSlice(init);
    assert done[i] in ToSet(done);
    if j < |done| {
      NormalizeSliceKeepsFirstOccurrences(init, i, j);
      FirstAtPrefix(values, r[i]);
      FirstAtPrefix(values, r[j]);
    } else {
      FirstAtPrefix(values, r[i]);
      FirstAtEnd(values, r[j]);
    }
  }

  /** A clean list is left as it is, so cleaning twice is cleaning once. */
  lemma {:induction false} NormalizeSliceFixesClean(values: seq<string>)
    requires Clean(values)
    ensures NormalizeSlice(values) == values
  {
    if values != [] {
      var init, last := values[..|values| - 1], values[|values| - 1];
      assert values == init + [last];
      assert last !in init;
      assert forall v :: v in init ==> v in values;
      NormalizeSliceFixesClean(init);
    }
  }

  lemma NormalizeSliceIdempotent(values: seq<string>)
    ensures NormalizeSlice(NormalizeSlice(values)) == NormalizeSlice(values)
  {
    NormalizeSliceContents(values);
    NormalizeSliceFixesClean(NormalizeSlice(values));
  }

  method NormalizeStringSlice(values: seq<string>) returns (normalized: seq<string>)
    ensures normalized == NormalizeSlice(values)
  {
    normalized := [];
    var seen: set<string> := {};
    for i := 0 to |values|
      invariant normalized == NormalizeSlice(values[..i])
      invariant seen == set v | v in normalized
    {
      assert values[..i + 1][..i] == values[..i];
      var trimmed := Trim(values[i]);
      if trimmed == "" || trimmed in seen {
        continue;
      }
      seen := seen + {trimmed};
      normalized := normalized + [trimmed];
    }
    assert values[..|values|] == values;
  }

  predicate SameStrings(left: seq<string>, right: seq<string>) {
    |left| == |right| && forall v :: v in right ==> v in left
  }

  /** Equal lengths and every right element on the left. */
  method SameStringSet(left: seq<string>, right: seq<string>) returns (same: bool)
    ensures same == SameStrings(left, right)
  {
    if |left| != |right| {
      return false;
    }
    var index: set<string> := {};
    for i := 0 to |left|
      invariant index == set v | v in left[..i]
    {
      assert left[..i + 1] == left[..i] + [left[i]];
      index := index + {left[i]};
    }
    assert left[..|left|] == left;
    for i := 0 to |right|
      invariant forall v :: v in right[..i] ==> v in left
    {
      assert right[..i + 1] == right[..i] + [right[i]];
      if right[i] !in index {
        assert right[i] in right;
        return false;
      }
    }
    assert right[..|right|] == right;
    return true;
  }

  lemma {:induction false} DistinctCardinality(values: seq<string>)
    requires Distinct(values)
    ensures |ToSet(values)| == |values|
  {
    if values != [] {
      var init, last := values[..|values| - 1], values[|values| - 1];
      assert values == init + [last];
      DistinctCardinality(init);
      assert last !in init;
      assert ToSet(values) == ToSet(init) + {last};
    }
  }

  lemma SubsetOfEqualSize(a: set<string>, b: set<string>)
    requires b <= a && |a| == |b|
    ensures a == b
  {
    assert |a - b| == |a| - |b|;
    assert a == b + (a - b);
  }

  /** On lists without repeats the one-sided comparison decides equality of the sets. */
  lemma SameStringsIsSetEquality(left: seq<string>, right: seq<string>)
    requires Distinct(left) && Distinct(right)
    ensures SameStrings(left, right) <==> ToSet(left) == ToSet(right)
  {
    DistinctCardinality(left);
    DistinctCardinality(right);
    if SameStrings(left, right) {
      SubsetOfEqualSize(ToSet(left), ToSet(right));
    }
    if ToSet(left) == ToSet(right) {
      forall v | v in right ensures v in left {
        assert v in ToSet(right);
      }
    }
  }
}
