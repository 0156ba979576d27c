/**
 * inflate_dict: the inverse of flatten_dict. Each flat key is unravelled into
 * segments and the value is stored at the end of that path, creating the
 * dicts and lists on the way. The Python code works on shared mutable
 * objects: a cursor moves through main_d, and two caches remember, by the
 * '/'-joined path, the containers created at list positions. The model keeps
 * these objects in an arena (a sequence of containers that refer to each
 * other by position), so that the cursor and the caches refer to the same
 * object as the tree that holds it.
 */
module InflateArena {
  import opened Values
  import opened Text
  import opened Paths

  // ---------------------------------------------------------------------------
  // The arena
  // ---------------------------------------------------------------------------

  /** A key of a Python dict built here: a string, or the int that an index
      segment at the end of a path leaves in a dict. */
  datatype Key = StrKey(s: string) | IntKey(n: nat)

  /** A member of a container: a value stored from the flat dict, or a
      reference to another container of the arena. */
  datatype Slot = Scalar(v: Value) | Ref(id: nat)

  datatype Obj = DictObj(entries: seq<(Key, Slot)>) | ListObj(items: seq<Slot>)

  type Heap = seq<Obj>

  /** The position of key k in a dict, as `k in d` finds it. */
  function FindKey(es: seq<(Key, Slot)>, k: Key): (r: Option<nat>)
    ensures r.Some? ==> r.value < |es| && es[r.value].0 == k
    ensures r.None? ==> forall j :: 0 <= j < |es| ==> es[j].0 != k
  {
    if es == [] then None
    else if es[0].0 == k then Some(0)
    else match FindKey(es[1..], k)
      case Some(j) => Some(j + 1)
      case None => None
  }

  /** d[k] = s: a present key keeps its place, an absent one is appended. */
  function SetKey(es: seq<(Key, Slot)>, k: Key, s: Slot): (r: seq<(Key, Slot)>)
    ensures FindKey(es, k).Some? ==> r == es[FindKey(es, k).value := (k, s)]
    ensures FindKey(es, k).None? ==> r == es + [(k, s)]
  {
    match FindKey(es, k)
    case Some(j) => es[j := (k, s)]
    case None => es + [(k, s)]
  }

  /** list.insert(i, x) for i >= 0: at position i, or at the end when i is
      not below the length. */
  function ListInsert<T>(xs: seq<T>, i: nat, x: T): (r: seq<T>)
    ensures |r| == |xs| + 1
    ensures i >= |xs| ==> r == xs + [x]
    ensures i < |xs| ==> r == xs[..i] + [x] + xs[i..]
    ensures forall t :: 0 <= t < |r| ==> r[t] == x || r[t] in xs
  {
    if i >= |xs| then xs + [x] else xs[..i] + [x] + xs[i..]
  }

  function Slots(o: Obj): seq<Slot> {
    match o
    case DictObj(es) => seq(|es|, t requires 0 <= t < |es| => es[t].1)
    case ListObj(xs) => xs
  }

  /** Every reference among the slots points strictly between lo and hi. */
  predicate RefsWithin(slots: seq<Slot>, lo: nat, hi: nat) {
    forall t :: 0 <= t < |slots| && slots[t].Ref? ==> lo < slots[t].id < hi
  }

  /** A container only refers to containers created after it: the objects
      form a forest rooted at the smaller positions. */
  predicate WellFormed(h: Heap) {
    forall j :: 0 <= j < |h| ==> RefsWithin(Slots(h[j]), j, |h|)
  }

  lemma RefsWithinWider(slots: seq<Slot>, lo: nat, hi: nat, hi': nat)
    requires RefsWithin(slots, lo, hi) && hi <= hi'
    ensures RefsWithin(slots, lo, hi')
  {
  }

  /** Replacing one container by one whose references stay in range, and
      appending containers without references, keeps the arena well formed. */
  lemma {:induction false} UpdateWellFormed(h: Heap, id: nat, o: Obj, extra: seq<Obj>)
    requires WellFormed(h) && id < |h|
    requires RefsWithin(Slots(o), id, |h| + |extra|)
    requires forall t :: 0 <= t < |extra| ==> Slots(extra[t]) == []
    ensures WellFormed(h[id := o] + extra)
  {
    var h' := h[id := o] + extra;
    forall j | 0 <= j < |h'| ensures RefsWithin(Slots(h'[j]), j, |h'|) {
      if j < |h| && j != id {
        RefsWithinWider(Slots(h[j]), j, |h|, |h'|);
      }
    }
  }

  lemma AppendWellFormed(h: Heap, o: Obj)
    requires WellFormed(h) && Slots(o) == []
    ensures WellFormed(h + [o])
  {
    var h' := h + [o];
    forall j | 0 <= j < |h'| ensures RefsWithin(Slots(h'[j]), j, |h'|) {
      if j < |h| {
        RefsWithinWider(Slots(h[j]), j, |h|, |h'|);
      }
    }
  }

  // ---------------------------------------------------------------------------
  // Reading a container out of the arena
  // ---------------------------------------------------------------------------

  /** The Python value of the container at position id. A dict holding an int
      key has no counterpart among string-keyed values. */
  function Materialize(h: Heap, id: nat): Result<Value>
    requires WellFormed(h) && id < |h|
    decreases |h| - id, 2
  {
    match h[id]
    case DictObj(es) =>
      var ms :- MaterializeEntries(h, id, 0);
      Ok(Map(ms))
    case ListObj(xs) =>
      var ms :- MaterializeItems(h, id, 0);
      Ok(List(ms))
  }

  function MaterializeSlot(h: Heap, owner: nat, s: Slot): Result<Value>
    requires WellFormed(h) && owner < |h|
    requires s.Ref? ==> owner < s.id < |h|
    decreases |h| - owner, 0
  {
    match s
    case Scalar(v) => Ok(v)
    case Ref(c) => Materialize(h, c)
  }

  function MaterializeEntries(h: Heap, id: nat, i: nat): Result<seq<(string, Value)>>
    requires WellFormed(h) && id < |h| && h[id].DictObj? && i <= |h[id].entries|
    decreases |h| - id, 1, |h[id].entries| - i
  {
    var es := h[id].entries;
    if i == |es| then Ok([])
    else
      assert Slots(h[id])[i] == es[i].1;
      match es[i].0
      case IntKey(_) => Err(UnrepresentableKey)
      case StrKey(k) =>
        var m :- MaterializeSlot(h, id, es[i].1);
        var rest :- MaterializeEntries(h, id, i + 1);
        Ok([(k, m)] + rest)
  }

  function MaterializeItems(h: Heap, id: nat, i: nat): Result<seq<Value>>
    requires WellFormed(h) && id < |h| && h[id].ListObj? && i <= |h[id].items|
    decreases |h| - id, 1, |h[id].items| - i
  {
    var xs := h[id].items;
    if i == |xs| then Ok([])
    else
      var m :- MaterializeSlot(h, id, xs[i]);
      var rest :- MaterializeItems(h, id, i + 1);
      Ok([m] + rest)
  }

  // ---------------------------------------------------------------------------
  // Storing a value
  // ---------------------------------------------------------------------------

  /** The Python object a value stands for, as containers of the arena: a
      dict or list of the flat dict is copied in, member by member. */
  function Intern(h: Heap, v: Value): (r: (Heap, Slot))
    requires WellFormed(h)
    ensures WellFormed(r.0) && |h| <= |r.0| && r.0[..|h|] == h
    ensures r.1.Ref? ==> |h| <= r.1.id < |r.0|
    ensures !v.IsContainer() ==> r == (h, Scalar(v))
    decreases v, 1
  {
    if !v.IsContainer() then (h, Scalar(v))
    else
      var id := |h|;
      var h0 := h + [ListObj([])];
      AppendWellFormed(h, ListObj([]));
      var (h1, slots) := InternMembers(h0, v, 0);
      var o := if v.Map? then DictObj(seq(|slots|, t requires 0 <= t < |slots| => (StrKey(v.entries[t].0), slots[t])))
               else ListObj(slots);
      assert Slots(o) == slots;
      UpdateWellFormed(h1, id, o, []);
      assert h1[id := o] + [] == h1[id := o];
      assert h1[..|h0|][..|h|] == h;
      (h1[id := o], Ref(id))
  }

  function Members(v: Value): seq<Value>
    requires v.IsContainer()
  {
    if v.Map? then seq(|v.entries|, t requires 0 <= t < |v.entries| => v.entries[t].1) else v.items
  }

  /** The members of container v from the i-th on, interned one after the
      other. */
  function InternMembers(h: Heap, v: Value, i: nat): (r: (Heap, seq<Slot>))
    requires WellFormed(h) && v.IsContainer() && i <= |Members(v)|
    ensures WellFormed(r.0) && |h| <= |r.0| && r.0[..|h|] == h
    ensures |r.1| == |Members(v)| - i
    ensures forall t :: 0 <= t < |r.1| && r.1[t].Ref? ==> |h| <= r.1[t].id < |r.0|
    decreases v, 0, |Members(v)| - i
  {
    var ms := Members(v);
    if i == |ms| then (h, [])
    else
      assert ms[i] < v by {
        if v.Map? { assert v.entries[i] in v.entries; } else { assert v.items[i] in v.items; }
      }
      var (h1, s) := Intern(h, ms[i]);
      var (h2, rest) := InternMembers(h1, v, i + 1);
      assert h2[..|h|] == h by { assert h2[..|h1|][..|h|] == h2[..|h|]; }
      (h2, [s] + rest)
  }

  // ---------------------------------------------------------------------------
  // The walk along one key
  // ---------------------------------------------------------------------------

  /** The object the cursor `d` designates: a container of the arena, or a
      scalar reached through a dict member. */
  datatype Cursor = At(id: nat) | OnScalar(v: Value)

  /** main_d and everything created so far, with the list/dict caches. The
      two caches of the source are never keyed by the same path, and are
      consulted in turn, so they are kept as one map. */
  datatype Arena = Arena(heap: Heap, cache: map<string, nat>)

  predicate Valid(a: Arena) {
    WellFormed(a.heap) && |a.heap| >= 1 && a.heap[0].DictObj?
    && forall f :: f in a.cache ==> 0 < a.cache[f] < |a.heap|
  }

  predicate CursorIn(a: Arena, cur: Cursor) {
    cur.At? ==> cur.id < |a.heap|
  }

  /** str(p.key) for one segment. */
  function CacheText(s: Seg): string {
    match s
    case KeySeg(k) => k
    case IdxSeg(i) => NatToString(i)
  }

  /** '/'.join(str(p.key) for p in keys[:i + 1]). */
  function CachePath(p: seq<Seg>): string {
    Join("/", seq(|p|, t requires 0 <= t < |p| => CacheText(p[t])))
  }

  /** The container created before the segment `next`: a list for an index,
      a dict for a key. */
  function Fresh(next: Seg): (o: Obj)
    ensures Slots(o) == []
  {
    if next.IdxSeg? then ListObj([]) else DictObj([])
  }

  function Follow(s: Slot): Cursor {
    match s
    case Ref(c) => At(c)
    case Scalar(v) => OnScalar(v)
  }

  function KeyOf(s: Seg): Key {
    match s
    case KeySeg(k) => StrKey(k)
    case IdxSeg(n) => IntKey(n)
  }

  lemma SlotsAppend(es: seq<(Key, Slot)>, k: Key, s: Slot)
    ensures Slots(DictObj(es + [(k, s)])) == Slots(DictObj(es)) + [s]
  {
  }

  lemma SlotsSetKey(es: seq<(Key, Slot)>, k: Key, s: Slot)
    ensures forall t :: 0 <= t < |Slots(DictObj(SetKey(es, k, s)))| ==>
      Slots(DictObj(SetKey(es, k, s)))[t] == s || Slots(DictObj(SetKey(es, k, s)))[t] in Slots(DictObj(es))
  {
    var r := SetKey(es, k, s);
    forall t | 0 <= t < |r| ensures r[t].1 == s || r[t].1 in Slots(DictObj(es)) {
      if r[t].1 != s {
        assert r[t] == es[t];
        assert Slots(DictObj(es))[t] == es[t].1;
      }
    }
  }

  /** The intermediate step at segment i < |segs| - 1, for the cursor `cur`:
      the arena and cursor after it, or the exception it raises. */
  function Descend(a: Arena, cur: Cursor, segs: seq<Seg>, i: nat): (r: Result<(Arena, Cursor)>)
    requires Valid(a) && CursorIn(a, cur) && i + 1 < |segs|
    ensures r.Ok? ==> Valid(r.value.0) && CursorIn(r.value.0, r.value.1)
    ensures r.Ok? ==> |a.heap| <= |r.value.0.heap|
  {
    var next := segs[i + 1];
    match segs[i]
    case KeySeg(k) =>
      if !(cur.At? && a.heap[cur.id].DictObj?) then Err(TypeError)
      else
        var es := a.heap[cur.id].entries;
        var found := FindKey(es, StrKey(k));
        if found.Some? then
          assert Slots(a.heap[cur.id])[found.value] == es[found.value].1;
          Ok((a, Follow(es[found.value].1)))
        else
          var c := |a.heap|;
          var o := DictObj(es + [(StrKey(k), Ref(c))]);
          SlotsAppend(es, StrKey(k), Ref(c));
          UpdateWellFormed(a.heap, cur.id, o, [Fresh(next)]);
          Ok((Arena(a.heap[cur.id := o] + [Fresh(next)], a.cache), At(c)))
    case IdxSeg(n) =>
      var f := CachePath(segs[..i + 1]);
      if f in a.cache then Ok((a, At(a.cache[f])))
      else if !(cur.At? && a.heap[cur.id].ListObj?) then Err(AttributeError)
      else
        var c := |a.heap|;
        var o := ListObj(ListInsert(a.heap[cur.id].items, n, Ref(c)));
        UpdateWellFormed(a.heap, cur.id, o, [Fresh(next)]);
        Ok((Arena(a.heap[cur.id := o] + [Fresh(next)], a.cache[f := c]), At(c)))
  }

  /** The final step: the value is stored in the dict under the last key, or
      inserted into the list at the last index; a scalar cursor stores
      nothing. */
  function Place(a: Arena, cur: Cursor, last: Seg, value: Value): (r: Result<Arena>)
    requires Valid(a) && CursorIn(a, cur)
    ensures r.Ok? ==> Valid(r.value)
  {
    match cur
    case OnScalar(_) => Ok(a)
    case At(id) =>
      var (h, slot) := Intern(a.heap, value);
      assert h[id] == a.heap[id] && h[0] == a.heap[0] by { assert h[..|a.heap|] == a.heap; }
      assert RefsWithin(Slots(h[id]), id, |h|);
      match h[id]
      case DictObj(es) =>
        var o := DictObj(SetKey(es, KeyOf(last), slot));
        SlotsSetKey(es, KeyOf(last), slot);
        UpdateWellFormed(h, id, o, []);
        assert h[id := o] + [] == h[id := o];
        Ok(Arena(h[id := o], a.cache))
      case ListObj(xs) =>
        if last.KeySeg? then Err(TypeError)
        else
          var o := ListObj(ListInsert(xs, last.index, slot));
          UpdateWellFormed(h, id, o, []);
          assert h[id := o] + [] == h[id := o];
          Ok(Arena(h[id := o], a.cache))
  }

  /** The inner loop of inflate_dict from segment i on, then the store. */
  function Walk(a: Arena, cur: Cursor, segs: seq<Seg>, i: nat, value: Value): (r: Result<Arena>)
    requires Valid(a) && CursorIn(a, cur) && i < |segs|
    ensures r.Ok? ==> Valid(r.value)
    decreases |segs| - i
  {
    if i == |segs| - 1 then Place(a, cur, segs[i], value)
    else
      var (a', cur') :- Descend(a, cur, segs, i);
      Walk(a', cur', segs, i + 1, value)
  }

  const Start := Arena([DictObj([])], map[])

  /** The outer loop of inflate_dict from pair j of the flat dict on. */
  function InsertFrom(a: Arena, flat: seq<(string, Value)>, j: nat, sep: Separator, br: Brackets): (r: Result<Arena>)
    requires Valid(a) && ValidBrackets(br) && j <= |flat|
    ensures r.Ok? ==> Valid(r.value)
    decreases |flat| - j
  {
    if j == |flat| then Ok(a)
    else
      var a' :- Walk(a, At(0), Unravel(flat[j].0, sep, br), 0, flat[j].1);
      InsertFrom(a', flat, j + 1, sep, br)
  }

  /** inflate_dict(flat_dict, path_sep, list_brackets) as a function: the
      dict main_d ends up holding. */
  function Inflate(flat: seq<(string, Value)>, sep: Separator, br: Brackets): (r: Result<Value>)
    requires ValidBrackets(br)
  {
    assert WellFormed(Start.heap);
    var a :- InsertFrom(Start, flat, 0, sep, br);
    Materialize(a.heap, 0)
  }

  // ---------------------------------------------------------------------------
  // inflate_dict
  // ---------------------------------------------------------------------------

  /** One pass of the inner loop of inflate_dict: the cursor moves past
      segment i, reusing or creating the container it leads to. */
  method Down(heap: Heap, cache: map<string, nat>, cur: Cursor, keys: seq<Seg>, i: nat)
    returns (r: Result<(Arena, Cursor)>)
    requires Valid(Arena(heap, cache)) && CursorIn(Arena(heap, cache), cur) && i + 1 < |keys|
    ensures r == Descend(Arena(heap, cache), cur, keys, i)
  {
    var next := keys[i + 1];
    match keys[i]
    case KeySeg(k) =>
      if !(cur.At? && heap[cur.id].DictObj?) {
        return Err(TypeError);
      }
      var es := heap[cur.id].entries;
      var found := FindKey(es, StrKey(k));
      if found.Some? {
        return Ok((Arena(heap, cache), Follow(es[found.value].1)));
      }
      var c := |heap|;
      var heap' := heap[cur.id := DictObj(es + [(StrKey(k), Ref(c))])] + [Fresh(next)];
      return Ok((Arena(heap', cache), At(c)));
    case IdxSeg(n) =>
      var f := CachePath(keys[..i + 1]);
      if f in cache {
        return Ok((Arena(heap, cache), At(cache[f])));
      }
      if !(cur.At? && heap[cur.id].ListObj?) {
        return Err(AttributeError);
      }
      var c := |heap|;
      var heap' := heap[cur.id := ListObj(ListInsert(heap[cur.id].items, n, Ref(c)))] + [Fresh(next)];
      return Ok((Arena(heap', cache[f := c]), At(c)));
  }

  /** The inner loop of inflate_dict and the store that follows it, for the
      segments of one flat key. */
  method InsertPair(heap: Heap, cache: map<string, nat>, keys: seq<Seg>, value: Value) returns (r: Result<Arena>)
    requires Valid(Arena(heap, cache)) && |keys| >= 1
    ensures r == Walk(Arena(heap, cache), At(0), keys, 0, value)
  {
    var a := Arena(heap, cache);
    var cur := At(0);
    var i := 0;
    while i < |keys| - 1
      invariant 0 <= i <= |keys| - 1
      invariant Valid(a) && CursorIn(a, cur)
      invariant Walk(Arena(heap, cache), At(0), keys, 0, value) == Walk(a, cur, keys, i, value)
    {
      var step := Down(a.heap, a.cache, cur, keys, i);
      if step.Err? {
        return Err(step.error);
      }
      a, cur := step.value.0, step.value.1;
      i := i + 1;
    }
    r := Place(a, cur, keys[|keys| - 1], value);
  }

  /** inflate_dict(flat_dict, path_sep, list_brackets): for every flat pair,
      the cursor starts at main_d and moves down the unravelled key, reusing
      or creating containers, and the value is stored at the last segment. */
  method InflateDict(flat: seq<(string, Value)>, sep: Separator, br: Brackets) returns (r: Result<Value>)
    requires ValidBrackets(br)
    ensures r == Inflate(flat, sep, br)
    ensures r.Ok? ==> r.value.Map?
  {
    var a := Start;
    assert WellFormed(a.heap);
    var j := 0;
    while j < |flat|
      invariant 0 <= j <= |flat|
      invariant Valid(a)
      invariant InsertFrom(Start, flat, 0, sep, br) == InsertFrom(a, flat, j, sep, br)
    {
      var placed := InsertPair(a.heap, a.cache, Unravel(flat[j].0, sep, br), flat[j].1);
      if placed.Err? {
        return Err(placed.error);
      }
      a := placed.value;
      j := j + 1;
    }
    r := Materialize(a.heap, 0);
  }
}
