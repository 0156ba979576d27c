/**
 * Facts about the arena of inflate_dict: reading a container depends only on
 * the containers after it, and a value copied into the arena reads back as
 * itself.
 */
module InflateProperties {
  import opened Values
  import opened Text
  import opened Paths
  import opened InflateArena

  /** h' holds the same containers as h from position c on. */
  predicate AgreeFrom(h: Heap, h': Heap, c: nat) {
    c <= |h| <= |h'| && forall j :: c <= j < |h| ==> h'[j] == h[j]
  }

  /** A container refers only to later containers, so it reads the same in
      any arena that agrees from its position on. */
  lemma {:induction false} MaterializeFrame(h: Heap, h': Heap, c: nat)
    requires WellFormed(h) && WellFormed(h') && c < |h| && AgreeFrom(h, h', c)
    ensures Materialize(h', c) == Materialize(h, c)
    decreases |h| - c, 2
  {
    match h[c]
    case DictObj(_) => EntriesFrame(h, h', c, 0);
    case ListObj(_) => ItemsFrame(h, h', c, 0);
  }

  lemma {:induction false} SlotFrame(h: Heap, h': Heap, c: nat, s: Slot)
    requires WellFormed(h) && WellFormed(h') && c < |h| && AgreeFrom(h, h', c)
    requires s.Ref? ==> c < s.id < |h|
    ensures MaterializeSlot(h', c, s) == MaterializeSlot(h, c, s)
    decreases |h| - c, 0
  {
    if s.Ref? {
      MaterializeFrame(h, h', s.id);
    }
  }

  lemma {:induction false} EntriesFrame(h: Heap, h': Heap, c: nat, i: nat)
    requires WellFormed(h) && WellFormed(h') && c < |h| && AgreeFrom(h, h', c)
    requires h[c].DictObj? && i <= |h[c].entries|
    ensures h'[c] == h[c]
    ensures MaterializeEntries(h', c, i) == MaterializeEntries(h, c, i)
    decreases |h| - c, 1, |h[c].entries| - i
  {
    var es := h[c].entries;
    if i < |es| {
      assert Slots(h[c])[i] == es[i].1;
      SlotFrame(h, h', c, es[i].1);
      EntriesFrame(h, h', c, i + 1);
    }
  }

  lemma {:induction false} ItemsFrame(h: Heap, h': Heap, c: nat, i: nat)
    requires WellFormed(h) && WellFormed(h') && c < |h| && AgreeFrom(h, h', c)
    requires h[c].ListObj? && i <= |h[c].items|
    ensures h'[c] == h[c]
    ensures MaterializeItems(h', c, i) == MaterializeItems(h, c, i)
    decreases |h| - c, 1, |h[c].items| - i
  {
    var xs := h[c].items;
    if i < |xs| {
      assert Slots(h[c])[i] == xs[i];
      SlotFrame(h, h', c, xs[i]);
      ItemsFrame(h, h', c, i + 1);
    }
  }

  /** Slot s of the arena stands for the value v. */
  predicate Denotes(h: Heap, s: Slot, v: Value)
    requires WellFormed(h)
  {
    match s
    case Scalar(x) => x == v && !v.IsContainer()
    case Ref(c) => c < |h| && Materialize(h, c) == Ok(v)
  }

  /** Each slot stands for the value at the same position. */
  predicate AllDenote(h: Heap, slots: seq<Slot>, vs: seq<Value>)
    requires WellFormed(h)
  {
    |slots| == |vs| && forall t :: 0 <= t < |slots| ==> Denotes(h, slots[t], vs[t])
  }

  lemma DenotesFrame(h: Heap, h': Heap, s: Slot, v: Value)
    requires WellFormed(h) && WellFormed(h') && Denotes(h, s, v)
    requires s.Ref? ==> AgreeFrom(h, h', s.id)
    ensures Denotes(h', s, v)
  {
    if s.Ref? {
      MaterializeFrame(h, h', s.id);
    }
  }

  /** A value copied into the arena reads back as itself. */
  lemma {:induction false} InternDenotes(h: Heap, v: Value)
    requires WellFormed(h)
    ensures Denotes(Intern(h, v).0, Intern(h, v).1, v)
    decreases v, 1
  {
    if v.IsContainer() {
      var id := |h|;
      var h0 := h + [ListObj([])];
      AppendWellFormed(h, ListObj([]));
      var (h1, slots) := InternMembers(h0, v, 0);
      InternMembersDenote(h0, v, 0);
      var o := if v.Map? then DictObj(seq(|slots|, t requires 0 <= t < |slots| => (StrKey(v.entries[t].0), slots[t])))
               else ListObj(slots);
      assert Slots(o) == slots;
      UpdateWellFormed(h1, id, o, []);
      assert h1[id := o] + [] == h1[id := o];
      var h2 := h1[id := o];
      assert Intern(h, v) == (h2, Ref(id));
      assert Members(v)[0..] == Members(v);
      forall t | 0 <= t < |slots| ensures Denotes(h2, slots[t], Members(v)[t]) {
        assert Denotes(h1, slots[t], Members(v)[0..][t]);
        if slots[t].Ref? {
          assert AgreeFrom(h1, h2, slots[t].id);
        }
        DenotesFrame(h1, h2, slots[t], Members(v)[t]);
      }
      if v.Map? {
        EntriesDenote(h2, id, 0, v.entries);
        assert v.entries[0..] == v.entries;
      } else {
        ItemsDenote(h2, id, 0, v.items);
        assert v.items[0..] == v.items;
      }
    }
  }

  lemma {:induction false} InternMembersDenote(h: Heap, v: Value, i: nat)
    requires WellFormed(h) && v.IsContainer() && i <= |Members(v)|
    ensures AllDenote(InternMembers(h, v, i).0, InternMembers(h, v, i).1, Members(v)[i..])
    decreases v, 0, |Members(v)| - i
  {
    var ms := Members(v);
    if i < |ms| {
      assert ms[i] < v by {
        if v.Map? { assert v.entries[i] in v.entries; } else { assert v.items[i] in v.items; }
      }
      var (h1, s) := Intern(h, ms[i]);
      InternDenotes(h, ms[i]);
      var (h2, rest) := InternMembers(h1, v, i + 1);
      InternMembersDenote(h1, v, i + 1);
      assert InternMembers(h, v, i) == (h2, [s] + rest);
      PrefixAgrees(h1, h2, if s.Ref? then s.id else 0);
      DenotesFrame(h1, h2, s, ms[i]);
      assert ms[i..] == [ms[i]] + ms[i + 1..];
      AllDenoteCons(h2, s, rest, ms[i], ms[i + 1..]);
    }
  }

  /** An arena that extends another agrees with it from any position. */
  lemma PrefixAgrees(h: Heap, h': Heap, c: nat)
    requires c <= |h| <= |h'| && h'[..|h|] == h
    ensures AgreeFrom(h, h', c)
  {
    forall j | c <= j < |h| ensures h'[j] == h[j] {
      assert h'[..|h|][j] == h'[j];
    }
  }

  lemma AllDenoteCons(h: Heap, s: Slot, rest: seq<Slot>, v: Value, vs: seq<Value>)
    requires WellFormed(h) && Denotes(h, s, v) && AllDenote(h, rest, vs)
    ensures AllDenote(h, [s] + rest, [v] + vs)
  {
    forall t | 0 <= t < |rest| + 1 ensures Denotes(h, ([s] + rest)[t], ([v] + vs)[t]) {
      if t > 0 {
        assert ([s] + rest)[t] == rest[t - 1];
        assert ([v] + vs)[t] == vs[t - 1];
      }
    }
  }

  lemma {:induction false} EntriesDenote(h: Heap, id: nat, i: nat, pairs: seq<(string, Value)>)
    requires WellFormed(h) && id < |h| && h[id].DictObj? && i <= |h[id].entries| == |pairs|
    requires forall t :: 0 <= t < |pairs| ==>
      h[id].entries[t].0 == StrKey(pairs[t].0) && Denotes(h, h[id].entries[t].1, pairs[t].1)
    ensures MaterializeEntries(h, id, i) == Ok(pairs[i..])
    decreases |pairs| - i
  {
    if i < |pairs| {
      EntriesDenote(h, id, i + 1, pairs);
      assert Slots(h[id])[i] == h[id].entries[i].1;
      assert pairs[i..] == [pairs[i]] + pairs[i + 1..];
    }
  }

  lemma {:induction false} ItemsDenote(h: Heap, id: nat, i: nat, vs: seq<Value>)
    requires WellFormed(h) && id < |h| && h[id].ListObj? && i <= |h[id].items| == |vs|
    requires forall t :: 0 <= t < |vs| ==> Denotes(h, h[id].items[t], vs[t])
    ensures MaterializeItems(h, id, i) == Ok(vs[i..])
    decreases |vs| - i
  {
    if i < |vs| {
      ItemsDenote(h, id, i + 1, vs);
      assert Slots(h[id])[i] == h[id].items[i];
      assert vs[i..] == [vs[i]] + vs[i + 1..];
    }
  }
}
