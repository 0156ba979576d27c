/**
 * flatten_dict: a nested dict becomes a dict of depth one whose keys are the
 * paths of the scalar leaves, joined by the path separator, with list indices
 * written between the list brackets.
 */
module Flatten {
  import opened Values
  import opened Text
  import opened Paths

  // ---------------------------------------------------------------------------
  // The recursive helper, as written: keys are built as strings
  // ---------------------------------------------------------------------------

  /** __flatten_dict(d, parent_path, sep): a dict or list is walked in order,
      a nested dict or list is expanded under its extended path, and every
      other member gives one pair; any other d gives nothing. */
  function FlattenFrom(v: Value, parent: string, sep: Separator, br: Brackets): seq<(string, Value)>
    decreases v, 2
  {
    match v
    case Map(_) => FlattenEntries(v, 0, parent, sep, br)
    case List(_) => FlattenItems(v, 0, parent, sep, br)
    case _ => []
  }

  /** The dict loop of the helper, from entry i on. */
  function FlattenEntries(v: Value, i: nat, parent: string, sep: Separator, br: Brackets): seq<(string, Value)>
    requires v.Map? && i <= |v.entries|
    decreases v, 1, |v.entries| - i
  {
    if i == |v.entries| then []
    else
      var x := v.entries[i].1;
      assert x < v by { assert v.entries[i] in v.entries; }
      var path := parent + sep + v.entries[i].0;
      (if x.IsContainer() then FlattenFrom(x, path, sep, br) else [(path, x)])
      + FlattenEntries(v, i + 1, parent, sep, br)
  }

  /** The list loop of the helper, from element i on. */
  function FlattenItems(v: Value, i: nat, parent: string, sep: Separator, br: Brackets): seq<(string, Value)>
    requires v.List? && i <= |v.items|
    decreases v, 1, |v.items| - i
  {
    if i == |v.items| then []
    else
      var x := v.items[i];
      assert x < v by { assert v.items[i] in v.items; }
      var path := parent + sep + SegText(IdxSeg(i), br);
      (if x.IsContainer() then FlattenFrom(x, path, sep, br) else [(path, x)])
      + FlattenItems(v, i + 1, parent, sep, br)
  }

  // ---------------------------------------------------------------------------
  // The leaves of a value as paths
  // ---------------------------------------------------------------------------

  /** The paths to the scalar leaves of v, depth first, each with its value. */
  function Leaves(v: Value): seq<(seq<Seg>, Value)>
    decreases v, 2
  {
    match v
    case Map(_) => EntryLeaves(v, 0)
    case List(_) => ItemLeaves(v, 0)
    case _ => []
  }

  function Under(s: Seg, ls: seq<(seq<Seg>, Value)>): (r: seq<(seq<Seg>, Value)>)
    ensures |r| == |ls|
    ensures forall t :: 0 <= t < |ls| ==> r[t] == ([s] + ls[t].0, ls[t].1)
  {
    seq(|ls|, t requires 0 <= t < |ls| => ([s] + ls[t].0, ls[t].1))
  }

  /** The leaves reached through one member: its own path for a scalar, the
      member's leaves under its segment for a container. */
  function MemberLeaves(s: Seg, x: Value): seq<(seq<Seg>, Value)>
    decreases x, 3
  {
    if x.IsContainer() then Under(s, Leaves(x)) else [([s], x)]
  }

  function EntryLeaves(v: Value, i: nat): seq<(seq<Seg>, Value)>
    requires v.Map? && i <= |v.entries|
    decreases v, 1, |v.entries| - i
  {
    if i == |v.entries| then []
    else
      assert v.entries[i].1 < v by { assert v.entries[i] in v.entries; }
      MemberLeaves(KeySeg(v.entries[i].0), v.entries[i].1) + EntryLeaves(v, i + 1)
  }

  function ItemLeaves(v: Value, i: nat): seq<(seq<Seg>, Value)>
    requires v.List? && i <= |v.items|
    decreases v, 1, |v.items| - i
  {
    if i == |v.items| then []
    else
      assert v.items[i] < v by { assert v.items[i] in v.items; }
      MemberLeaves(IdxSeg(i), v.items[i]) + ItemLeaves(v, i + 1)
  }

  /** The text of a path as the helper builds it: each segment preceded by
      the separator. */
  function PathText(p: seq<Seg>, sep: Separator, br: Brackets): string {
    if p == [] then "" else sep + SegText(p[0], br) + PathText(p[1..], sep, br)
  }

  function Keyed(parent: string, ls: seq<(seq<Seg>, Value)>, sep: Separator, br: Brackets): (r: seq<(string, Value)>)
    ensures |r| == |ls|
    ensures forall t :: 0 <= t < |ls| ==> r[t] == (parent + PathText(ls[t].0, sep, br), ls[t].1)
  {
    seq(|ls|, t requires 0 <= t < |ls| => (parent + PathText(ls[t].0, sep, br), ls[t].1))
  }

  /** The pairs flatten_dict stores, in order, before the dict collects them:
      the text of each leaf's path with the leading separator characters
      stripped. */
  function FlatPairs(d: Value, sep: Separator, br: Brackets): (r: seq<(string, Value)>)
    ensures |r| == |Leaves(d)|
    ensures forall t :: 0 <= t < |r| ==>
      r[t] == (LStripChars(PathText(Leaves(d)[t].0, sep, br), sep), Leaves(d)[t].1)
  {
    var ls := Leaves(d);
    seq(|ls|, t requires 0 <= t < |ls| => (LStripChars(PathText(ls[t].0, sep, br), sep), ls[t].1))
  }

  // ---------------------------------------------------------------------------
  // The helper lists the leaves
  // ---------------------------------------------------------------------------

  lemma KeyedConcat(parent: string, a: seq<(seq<Seg>, Value)>, b: seq<(seq<Seg>, Value)>, sep: Separator, br: Brackets)
    ensures Keyed(parent, a + b, sep, br) == Keyed(parent, a, sep, br) + Keyed(parent, b, sep, br)
  {
  }

  lemma KeyedUnder(parent: string, s: Seg, ls: seq<(seq<Seg>, Value)>, sep: Separator, br: Brackets)
    ensures Keyed(parent, Under(s, ls), sep, br) == Keyed(parent + sep + SegText(s, br), ls, sep, br)
  {
    forall t | 0 <= t < |ls|
      ensures parent + PathText([s] + ls[t].0, sep, br) == parent + sep + SegText(s, br) + PathText(ls[t].0, sep, br)
    {
      assert ([s] + ls[t].0)[1..] == ls[t].0;
    }
  }

  lemma KeyedMember(parent: string, s: Seg, x: Value, sep: Separator, br: Brackets)
    requires x.IsContainer() ==> FlattenFrom(x, parent + sep + SegText(s, br), sep, br)
                                 == Keyed(parent + sep + SegText(s, br), Leaves(x), sep, br)
    ensures Keyed(parent, MemberLeaves(s, x), sep, br)
         == if x.IsContainer() then FlattenFrom(x, parent + sep + SegText(s, br), sep, br)
            else [(parent + sep + SegText(s, br), x)]
  {
    if x.IsContainer() {
      KeyedUnder(parent, s, Leaves(x), sep, br);
    } else {
      assert PathText([s], sep, br) == sep + SegText(s, br) by {
        assert [s][1..] == [];
        assert PathText([s], sep, br) == sep + SegText(s, br) + PathText([], sep, br);
      }
      var r := Keyed(parent, [([s], x)], sep, br);
      assert r[0] == (parent + PathText([s], sep, br), x);
      assert parent + (sep + SegText(s, br)) == parent + sep + SegText(s, br);
      assert r == [(parent + sep + SegText(s, br), x)];
    }
  }

  /** The helper's pairs are the leaves, each keyed by the parent path and the
      text of its own path. */
  lemma {:induction false} FlattenFromLeaves(v: Value, parent: string, sep: Separator, br: Brackets)
    ensures FlattenFrom(v, parent, sep, br) == Keyed(parent, Leaves(v), sep, br)
    decreases v, 2
  {
    match v
    case Map(_) => FlattenEntriesLeaves(v, 0, parent, sep, br);
    case List(_) => FlattenItemsLeaves(v, 0, parent, sep, br);
    case _ =>
  }

  lemma {:induction false} FlattenEntriesLeaves(v: Value, i: nat, parent: string, sep: Separator, br: Brackets)
    requires v.Map? && i <= |v.entries|
    ensures FlattenEntries(v, i, parent, sep, br) == Keyed(parent, EntryLeaves(v, i), sep, br)
    decreases v, 1, |v.entries| - i
  {
    if i < |v.entries| {
      var x := v.entries[i].1;
      assert x < v by { assert v.entries[i] in v.entries; }
      var s := KeySeg(v.entries[i].0);
      if x.IsContainer() {
        FlattenFromLeaves(x, parent + sep + SegText(s, br), sep, br);
      }
      KeyedMember(parent, s, x, sep, br);
      FlattenEntriesLeaves(v, i + 1, parent, sep, br);
      KeyedConcat(parent, MemberLeaves(s, x), EntryLeaves(v, i + 1), sep, br);
    }
  }

  lemma {:induction false} FlattenItemsLeaves(v: Value, i: nat, parent: string, sep: Separator, br: Brackets)
    requires v.List? && i <= |v.items|
    ensures FlattenItems(v, i, parent, sep, br) == Keyed(parent, ItemLeaves(v, i), sep, br)
    decreases v, 1, |v.items| - i
  {
    if i < |v.items| {
      var x := v.items[i];
      assert x < v by { assert v.items[i] in v.items; }
      var s := IdxSeg(i);
      if x.IsContainer() {
        FlattenFromLeaves(x, parent + sep + SegText(s, br), sep, br);
      }
      KeyedMember(parent, s, x, sep, br);
      FlattenItemsLeaves(v, i + 1, parent, sep, br);
      KeyedConcat(parent, MemberLeaves(s, x), ItemLeaves(v, i + 1), sep, br);
    }
  }

  /** The pairs of the helper with the leading separator characters of
      their keys stripped. */
  function Stripped(h: seq<(string, Value)>, sep: Separator): (r: seq<(string, Value)>)
    ensures |r| == |h|
    ensures forall t :: 0 <= t < |h| ==> r[t] == (LStripChars(h[t].0, sep), h[t].1)
  {
    seq(|h|, t requires 0 <= t < |h| => (LStripChars(h[t].0, sep), h[t].1))
  }

  /** The helper called with an empty parent gives the pairs flatten_dict
      stores, before stripping. */
  lemma HelperPairs(d: Value, sep: Separator, br: Brackets)
    ensures Stripped(FlattenFrom(d, "", sep, br), sep) == FlatPairs(d, sep, br)
  {
    FlattenFromLeaves(d, "", sep, br);
    var ls := Leaves(d);
    forall t | 0 <= t < |ls| ensures "" + PathText(ls[t].0, sep, br) == PathText(ls[t].0, sep, br) {
    }
  }

  lemma PutAllStep(acc: seq<(string, Value)>, kvs: seq<(string, Value)>)
    requires kvs != []
    ensures PutAll(acc, kvs) == PutAll(Put(acc, kvs[0].0, kvs[0].1), kvs[1..])
  {
  }

  // ---------------------------------------------------------------------------
  // flatten_dict
  // ---------------------------------------------------------------------------

  /** flatten_dict(dictionary, path_sep, list_brackets). The helper's result
      is a list of one-pair dicts; each pair is stored under its key with the
      leading separator characters stripped, so a later pair with the same
      stripped key overwrites the value and keeps the first position. */
  method FlattenDict(d: Value, sep: Separator, br: Brackets) returns (flat: seq<(string, Value)>)
    ensures flat == PutAll([], FlatPairs(d, sep, br))
  {
    var listDicts := FlattenFrom(d, "", sep, br);
    ghost var pairs := Stripped(listDicts, sep);
    HelperPairs(d, sep, br);
    flat := [];
    var j := 0;
    while j < |listDicts|
      invariant 0 <= j <= |listDicts| == |pairs|
      invariant PutAll(flat, pairs[j..]) == PutAll([], pairs)
    {
      PutAllStep(flat, pairs[j..]);
      assert pairs[j..][1..] == pairs[j + 1..];
      assert pairs[j..][0] == (LStripChars(listDicts[j].0, sep), listDicts[j].1);
      flat := Put(flat, LStripChars(listDicts[j].0, sep), listDicts[j].1);
      j := j + 1;
    }
  }
}
