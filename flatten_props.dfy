/**
 * What flatten_dict's pairs are: one per scalar leaf of the input, keyed by
 * the text of the path that leads to it.
 */
module FlattenProperties {
  import opened Values
  import opened Text
  import opened Paths
  import opened Flatten

  // ---------------------------------------------------------------------------
  // Leaves lists exactly the scalar members, with their paths
  // ---------------------------------------------------------------------------

  /** Every leaf has a non-empty path that leads to its value, and the value
      is a scalar (None included). */
  lemma {:induction false} LeavesSound(v: Value)
    requires WellKeyed(v)
    ensures forall p, x :: (p, x) in Leaves(v) ==> p != [] && !x.IsContainer() && Lookup(v, p) == Some(x)
    decreases v, 2
  {
    match v
    case Map(_) => EntryLeavesSound(v, 0);
    case List(_) => ItemLeavesSound(v, 0);
    case _ =>
  }

  lemma {:induction false} MemberLeavesSound(s: Seg, y: Value)
    requires WellKeyed(y)
    ensures forall p, x :: (p, x) in MemberLeaves(s, y) ==>
      |p| >= 1 && p[0] == s && !x.IsContainer() && Lookup(y, p[1..]) == Some(x)
    decreases y, 3
  {
    if y.IsContainer() {
      LeavesSound(y);
      var ls := Leaves(y);
      forall p, x | (p, x) in Under(s, ls)
        ensures |p| >= 1 && p[0] == s && !x.IsContainer() && Lookup(y, p[1..]) == Some(x)
      {
        var t :| 0 <= t < |ls| && Under(s, ls)[t] == (p, x);
        assert p[1..] == ls[t].0;
        assert ls[t] in ls;
      }
    } else {
      forall p, x | (p, x) in MemberLeaves(s, y)
        ensures |p| >= 1 && p[0] == s && !x.IsContainer() && Lookup(y, p[1..]) == Some(x)
      {
        assert p == [s] && x == y;
        assert p[1..] == [];
      }
    }
  }

  lemma {:induction false} EntryLeavesSound(v: Value, i: nat)
    requires v.Map? && WellKeyed(v) && i <= |v.entries|
    ensures forall p, x :: (p, x) in EntryLeaves(v, i) ==> p != [] && !x.IsContainer() && Lookup(v, p) == Some(x)
    decreases v, 1, |v.entries| - i
  {
    if i < |v.entries| {
      var es := v.entries;
      var k, y := es[i].0, es[i].1;
      assert y < v by { assert es[i] in es; }
      EntryLeavesSound(v, i + 1);
      MemberLeavesSound(KeySeg(k), y);
      assert HasKey(es, k);
      assert IndexOf(es, k) == i;
      forall p, x | (p, x) in MemberLeaves(KeySeg(k), y)
        ensures p != [] && !x.IsContainer() && Lookup(v, p) == Some(x)
      {
      }
    }
  }

  lemma {:induction false} ItemLeavesSound(v: Value, i: nat)
    requires v.List? && WellKeyed(v) && i <= |v.items|
    ensures forall p, x :: (p, x) in ItemLeaves(v, i) ==> p != [] && !x.IsContainer() && Lookup(v, p) == Some(x)
    decreases v, 1, |v.items| - i
  {
    if i < |v.items| {
      var y := v.items[i];
      assert y < v by { assert y in v.items; }
      ItemLeavesSound(v, i + 1);
      MemberLeavesSound(IdxSeg(i), y);
    }
  }

  /** Every path that leads to a scalar is the path of a leaf. */
  lemma {:induction false} LeavesComplete(v: Value, p: seq<Seg>)
    requires p != [] && Lookup(v, p).Some? && !Lookup(v, p).value.IsContainer()
    ensures (p, Lookup(v, p).value) in Leaves(v)
    decreases |p|
  {
    var x := Lookup(v, p).value;
    var y, s;
    if p[0].KeySeg? {
      var i := IndexOf(v.entries, p[0].key);
      y, s := v.entries[i].1, KeySeg(v.entries[i].0);
      EntryLeavesHas(v, 0, i);
    } else {
      var i := p[0].index;
      y, s := v.items[i], IdxSeg(i);
      ItemLeavesHas(v, 0, i);
    }
    assert Lookup(y, p[1..]) == Some(x);
    if p[1..] == [] {
      assert y == x;
      assert MemberLeaves(s, y) == [([s], x)];
      assert p == [s];
    } else {
      assert y.IsContainer();
      LeavesComplete(y, p[1..]);
      var ls := Leaves(y);
      var t :| 0 <= t < |ls| && ls[t] == (p[1..], x);
      assert p == [s] + p[1..];
      assert Under(s, ls)[t] == (p, x);
    }
  }

  lemma {:induction false} EntryLeavesHas(v: Value, i: nat, j: nat)
    requires v.Map? && i <= j < |v.entries|
    ensures forall e :: e in MemberLeaves(KeySeg(v.entries[j].0), v.entries[j].1) ==> e in EntryLeaves(v, i)
    decreases j - i
  {
    if i < j {
      EntryLeavesHas(v, i + 1, j);
    }
  }

  lemma {:induction false} ItemLeavesHas(v: Value, i: nat, j: nat)
    requires v.List? && i <= j < |v.items|
    ensures forall e :: e in MemberLeaves(IdxSeg(j), v.items[j]) ==> e in ItemLeaves(v, i)
    decreases j - i
  {
    if i < j {
      ItemLeavesHas(v, i + 1, j);
    }
  }

  // ---------------------------------------------------------------------------
  // The pairs flatten_dict returns
  // ---------------------------------------------------------------------------

  /** When the flat keys do not repeat, the flat dict has one entry per leaf,
      in depth-first order. */
  lemma OneEntryPerLeaf(d: Value, sep: Separator, br: Brackets)
    requires DistinctKeys(FlatPairs(d, sep, br))
    ensures PutAll([], FlatPairs(d, sep, br)) == FlatPairs(d, sep, br)
    ensures |PutAll([], FlatPairs(d, sep, br))| == |Leaves(d)|
  {
    var fp := FlatPairs(d, sep, br);
    assert [] + fp == fp;
    PutAllDistinct([], fp);
  }

  /** Empty dicts and lists contribute no pair. */
  lemma EmptyContainersVanish(s: Seg, sep: Separator, br: Brackets)
    ensures MemberLeaves(s, Map([])) == [] && MemberLeaves(s, List([])) == []
    ensures FlatPairs(Map([("a", Map([])), ("b", List([]))]), sep, br) == []
  {
    var d := Map([("a", Map([])), ("b", List([]))]);
    assert EntryLeaves(d, 2) == [];
    assert EntryLeaves(d, 1) == [];
    assert Leaves(d) == EntryLeaves(d, 0) == [];
  }

  /** The separator comes before a list index as before a key, and the
      leading separator is stripped: {"a": [1]} flattens to {"a.(0)": 1}. */
  lemma SeparatorBeforeIndex()
    ensures FlatPairs(Map([("a", List([Int(1)]))]), ".", Brackets('(', ')')) == [("a.(0)", Int(1))]
  {
    var br := Brackets('(', ')');
    ListUnderKeyLeaves();
    IndexPathText();
    var fp := FlatPairs(Map([("a", List([Int(1)]))]), ".", br);
    assert |fp| == 1;
    assert fp[0] == ("a.(0)", Int(1));
  }

  lemma ListUnderKeyLeaves()
    ensures Leaves(Map([("a", List([Int(1)]))])) == [([KeySeg("a"), IdxSeg(0)], Int(1))]
  {
    var inner := List([Int(1)]);
    var d := Map([("a", inner)]);
    assert ItemLeaves(inner, 1) == [];
    assert Leaves(inner) == [([IdxSeg(0)], Int(1))];
    assert EntryLeaves(d, 1) == [];
    assert [KeySeg("a")] + [IdxSeg(0)] == [KeySeg("a"), IdxSeg(0)];
    assert Under(KeySeg("a"), [([IdxSeg(0)], Int(1))])[0] == ([KeySeg("a"), IdxSeg(0)], Int(1));
    assert MemberLeaves(KeySeg("a"), inner) == [([KeySeg("a"), IdxSeg(0)], Int(1))];
  }

  lemma IndexPathText()
    ensures LStripChars(PathText([KeySeg("a"), IdxSeg(0)], ".", Brackets('(', ')')), ".") == "a.(0)"
  {
    var br := Brackets('(', ')');
    assert NatToString(0) == "0";
    assert PathText([KeySeg("a"), IdxSeg(0)], ".", br) == ".a.(0)" by {
      assert [KeySeg("a"), IdxSeg(0)][1..] == [IdxSeg(0)];
      assert PathText([IdxSeg(0)], ".", br) == ".(0)";
    }
    assert LStripChars(".a.(0)", ".") == "a.(0)" by {
      assert ".a.(0)"[1..] == "a.(0)";
    }
  }

  /** Every leading separator character goes, not just one separator: with
      separator "/", the key "/x" of a dict becomes "x". */
  lemma LeadingSeparatorCharsStripped()
    ensures FlatPairs(Map([("/x", Int(1))]), "/", Brackets('(', ')')) == [("x", Int(1))]
  {
    var d := Map([("/x", Int(1))]);
    assert EntryLeaves(d, 1) == [];
    assert Leaves(d) == [([KeySeg("/x")], Int(1))];
    assert PathText([KeySeg("/x")], "/", Brackets('(', ')')) == "//x";
    assert LStripChars("//x", "/") == "x" by {
      assert "//x"[1..] == "/x" && "/x"[1..] == "x";
    }
  }

  // ---------------------------------------------------------------------------
  // The shape of the flat dict
  // ---------------------------------------------------------------------------

  /** Every leaf value is a scalar. */
  lemma {:induction false} LeafValuesScalar(v: Value)
    ensures forall t :: 0 <= t < |Leaves(v)| ==> !Leaves(v)[t].1.IsContainer()
    decreases v, 2
  {
    match v
    case Map(_) => EntryValuesScalar(v, 0);
    case List(_) => ItemValuesScalar(v, 0);
    case _ =>
  }

  lemma {:induction false} MemberValuesScalar(s: Seg, y: Value)
    ensures forall t :: 0 <= t < |MemberLeaves(s, y)| ==> !MemberLeaves(s, y)[t].1.IsContainer()
    decreases y, 3
  {
    if y.IsContainer() {
      LeafValuesScalar(y);
    }
  }

  lemma {:induction false} EntryValuesScalar(v: Value, i: nat)
    requires v.Map? && i <= |v.entries|
    ensures forall t :: 0 <= t < |EntryLeaves(v, i)| ==> !EntryLeaves(v, i)[t].1.IsContainer()
    decreases v, 1, |v.entries| - i
  {
    if i < |v.entries| {
      assert v.entries[i].1 < v by { assert v.entries[i] in v.entries; }
      MemberValuesScalar(KeySeg(v.entries[i].0), v.entries[i].1);
      EntryValuesScalar(v, i + 1);
    }
  }

  lemma {:induction false} ItemValuesScalar(v: Value, i: nat)
    requires v.List? && i <= |v.items|
    ensures forall t :: 0 <= t < |ItemLeaves(v, i)| ==> !ItemLeaves(v, i)[t].1.IsContainer()
    decreases v, 1, |v.items| - i
  {
    if i < |v.items| {
      assert v.items[i] < v by { assert v.items[i] in v.items; }
      MemberValuesScalar(IdxSeg(i), v.items[i]);
      ItemValuesScalar(v, i + 1);
    }
  }

  /** The flat dict flatten_dict returns has distinct keys, no key starts
      with the separator, and every value is a scalar. */
  lemma FlatDictShape(d: Value, sep: Separator, br: Brackets)
    ensures DistinctKeys(PutAll([], FlatPairs(d, sep, br)))
    ensures forall t :: 0 <= t < |PutAll([], FlatPairs(d, sep, br))| ==>
      !StartsWith(PutAll([], FlatPairs(d, sep, br))[t].0, sep)
      && !PutAll([], FlatPairs(d, sep, br))[t].1.IsContainer()
  {
    var fp := FlatPairs(d, sep, br);
    var flat := PutAll([], fp);
    PutAllKeepsDistinct([], fp);
    PutAllFrom([], fp);
    LeafValuesScalar(d);
    forall t | 0 <= t < |flat| ensures !StartsWith(flat[t].0, sep) && !flat[t].1.IsContainer() {
      assert flat[t] in flat;
      var u :| 0 <= u < |fp| && fp[u] == flat[t];
      var k := flat[t].0;
      LStripCharsSpec(PathText(Leaves(d)[u].0, sep, br), sep);
      assert k == [] || k[0] !in sep;
      assert k == [] || |sep| > |k| || k[..|sep|][0] == k[0];
    }
  }

  /** The dict flatten_dict returns: distinct keys, none starting with the
      separator, and scalar values. */
  function FlatDict(d: Value, sep: Separator, br: Brackets): (flat: seq<(string, Value)>)
    ensures DistinctKeys(flat)
    ensures forall t :: 0 <= t < |flat| ==> !StartsWith(flat[t].0, sep) && !flat[t].1.IsContainer()
  {
    FlatDictShape(d, sep, br);
    PutAll([], FlatPairs(d, sep, br))
  }
}
