/**
 * inflate_dict undoes flatten_dict: storing the flat pairs of a dict, in the
 * order flatten_dict lists them, rebuilds the dict. The proof follows the
 * arena container by container: the leaves of one member are stored one
 * after the other, the first of them creates the member's container, and the
 * later ones find it again (through the dict key, or through the list cache).
 */
module InflateRoundTrip {
  import opened Values
  import opened Text
  import opened Paths
  import opened Flatten
  import opened FlattenProperties
  import opened InflateArena
  import opened InflateProperties

  // ---------------------------------------------------------------------------
  // Following a path that already exists in the arena
  // ---------------------------------------------------------------------------

  /** The container that segment t of P leads to from container id, when the
      inner loop of inflate_dict would find it rather than create it: the
      dict member under the key, or the container the list cache holds for
      the path so far. */
  function Step(a: Arena, P: seq<Seg>, t: nat, id: nat): Option<nat>
    requires t < |P|
  {
    match P[t]
    case KeySeg(k) =>
      if id < |a.heap| && a.heap[id].DictObj? then
        match FindKey(a.heap[id].entries, StrKey(k))
        case None => None
        case Some(j) =>
          match a.heap[id].entries[j].1
          case Ref(n) => if id < n then Some(n) else None
          case Scalar(_) => None
      else None
    case IdxSeg(_) =>
      var f := CachePath(P[..t + 1]);
      if f in a.cache && id < a.cache[f] then Some(a.cache[f]) else None
  }

  /** The container that path P leads to from main_d, when every step along
      it finds an existing container. */
  function Reach(a: Arena, P: seq<Seg>): (r: Option<nat>)
    ensures r.Some? && P != [] ==> r.value > 0
    decreases |P|
  {
    if P == [] then Some(0)
    else match Reach(a, P[..|P| - 1])
      case None => None
      case Some(c) => Step(a, P, |P| - 1, c)
  }

  lemma {:induction false} ReachBound(a: Arena, P: seq<Seg>)
    requires Valid(a) && Reach(a, P).Some?
    ensures Reach(a, P).value < |a.heap|
    decreases |P|
  {
    if P != [] {
      var c := Reach(a, P[..|P| - 1]).value;
      ReachBound(a, P[..|P| - 1]);
      if P[|P| - 1].KeySeg? {
        var es := a.heap[c].entries;
        var j := FindKey(es, StrKey(P[|P| - 1].key)).value;
        assert Slots(a.heap[c])[j] == es[j].1;
      }
    }
  }

  /** cache' keeps every entry of cache. */
  predicate Extends(cache: map<string, nat>, cache': map<string, nat>) {
    forall f :: f in cache ==> f in cache' && cache'[f] == cache[f]
  }

  /** A path keeps leading to the same container while the containers before
      it stay as they are and the cache only grows. */
  lemma {:induction false} ReachStable(a: Arena, a': Arena, P: seq<Seg>)
    requires Reach(a, P).Some? && Reach(a, P).value <= |a.heap| && Reach(a, P).value <= |a'.heap|
    requires a'.heap[..Reach(a, P).value] == a.heap[..Reach(a, P).value]
    requires Extends(a.cache, a'.cache)
    ensures Reach(a', P) == Reach(a, P)
    decreases |P|
  {
    if P != [] {
      var P' := P[..|P| - 1];
      var c' := Reach(a, P').value;
      var c := Reach(a, P).value;
      assert c' < c;
      assert a'.heap[..c'] == a.heap[..c'] by {
        assert a'.heap[..c'] == a'.heap[..c][..c'] && a.heap[..c'] == a.heap[..c][..c'];
      }
      ReachStable(a, a', P');
      if P[|P| - 1].KeySeg? {
        assert a'.heap[c'] == a'.heap[..c][c'] == a.heap[..c][c'] == a.heap[c'];
      }
    }
  }

  /** The inner loop passes along an existing path without changing the
      arena. */
  lemma {:induction false} WalkFollow(a: Arena, P: seq<Seg>, segs: seq<Seg>, v: Value)
    requires Valid(a) && Reach(a, P).Some? && |P| < |segs| && segs[..|P|] == P
    ensures Reach(a, P).value < |a.heap|
    ensures Walk(a, At(0), segs, 0, v) == Walk(a, At(Reach(a, P).value), segs, |P|, v)
    decreases |P|
  {
    ReachBound(a, P);
    if P != [] {
      var n := |P| - 1;
      assert segs[..n] == P[..n];
      WalkFollow(a, P[..n], segs, v);
      DescendExisting(a, P, segs);
      WalkDescend(a, At(Reach(a, P[..n]).value), segs, n, v);
    }
  }

  /** An intermediate step of the walk of one key is a descent. */
  lemma WalkDescend(a: Arena, cur: Cursor, segs: seq<Seg>, i: nat, v: Value)
    requires Valid(a) && CursorIn(a, cur) && i + 1 < |segs| && Descend(a, cur, segs, i).Ok?
    ensures var (a', cur') := Descend(a, cur, segs, i).value;
      Walk(a, cur, segs, i, v) == Walk(a', cur', segs, i + 1, v)
  {
  }

  /** One step along an existing path: the next container is the one the
      path reaches, and nothing changes. */
  lemma DescendExisting(a: Arena, P: seq<Seg>, segs: seq<Seg>)
    requires Valid(a) && P != [] && Reach(a, P).Some? && |P| < |segs| && segs[..|P|] == P
    ensures Reach(a, P[..|P| - 1]).Some? && Reach(a, P[..|P| - 1]).value < |a.heap|
    ensures Descend(a, At(Reach(a, P[..|P| - 1]).value), segs, |P| - 1) == Ok((a, At(Reach(a, P).value)))
  {
    var n := |P| - 1;
    ReachBound(a, P[..n]);
    ReachBound(a, P);
    assert segs[n] == P[n];
    if P[n].IdxSeg? {
      assert segs[..n + 1] == P;
      assert P[..n + 1] == P;
    }
  }

  // ---------------------------------------------------------------------------
  // Storing one leaf below an existing container
  // ---------------------------------------------------------------------------

  /** The segment that leads from container y to its i-th member. */
  function SegAt(y: Value, i: nat): Seg
    requires y.IsContainer() && i < |Members(y)|
  {
    if y.Map? then KeySeg(y.entries[i].0) else IdxSeg(i)
  }

  /** The container o with slot s appended under segment seg. */
  function Extend(o: Obj, seg: Seg, s: Slot): Obj {
    match o
    case DictObj(es) => DictObj(es + [(KeyOf(seg), s)])
    case ListObj(xs) => ListObj(xs + [s])
  }

  /** The container at c can take segment seg as a new member: a dict that
      lacks the key, or a list whose length is the index. */
  predicate Appendable(a: Arena, c: nat, seg: Seg)
    requires c < |a.heap|
  {
    match a.heap[c]
    case DictObj(es) => seg.KeySeg? && FindKey(es, StrKey(seg.key)).None?
    case ListObj(xs) => seg == IdxSeg(|xs|)
  }

  /** A key a dict lacks is found at the end once it is appended. */
  lemma {:induction false} FindKeyAppended(es: seq<(Key, Slot)>, k: Key, s: Slot)
    requires FindKey(es, k).None?
    ensures FindKey(es + [(k, s)], k) == Some(|es|)
    decreases |es|
  {
    if es != [] {
      assert (es + [(k, s)])[1..] == es[1..] + [(k, s)];
      FindKeyAppended(es[1..], k, s);
    }
  }

  /** A scalar stored under a new key of a dict, or at the end of a list. */
  lemma PlaceLeaf(a: Arena, P: seq<Seg>, seg: Seg, v: Value)
    requires Valid(a) && Reach(a, P).Some? && !v.IsContainer()
    requires Reach(a, P).value < |a.heap| && Appendable(a, Reach(a, P).value, seg)
    ensures var c := Reach(a, P).value;
      Walk(a, At(0), P + [seg], 0, v) == Ok(Arena(a.heap[c := Extend(a.heap[c], seg, Scalar(v))], a.cache))
  {
    var segs := P + [seg];
    assert segs[..|P|] == P;
    WalkFollow(a, P, segs, v);
  }

  /** The first leaf below a new member creates the member's container; the
      walk then goes on as if the container had been there before. */
  lemma CreateMember(a: Arena, P: seq<Seg>, seg: Seg, q: seq<Seg>, v: Value)
    requires Valid(a) && Reach(a, P).Some? && q != []
    requires Reach(a, P).value < |a.heap| && Appendable(a, Reach(a, P).value, seg)
    requires seg.IdxSeg? ==> CachePath(P + [seg]) !in a.cache
    ensures var a1 := Created(a, P, Reach(a, P).value, seg, q[0]);
      Valid(a1) && Reach(a1, P + [seg]) == Some(|a.heap|)
      && Walk(a, At(0), P + [seg] + q, 0, v) == Walk(a1, At(0), P + [seg] + q, 0, v)
  {
    var c := Reach(a, P).value;
    var segs := P + [seg] + q;
    var P1 := P + [seg];
    assert segs[..|P|] == P && segs[..|P1|] == P1 && segs[|P1|] == q[0];
    ReachCreated(a, P, c, seg, q[0]);
    DescendCreates(a, P, c, seg, segs);
    WalkFollow(a, P, segs, v);
    WalkFollow(Created(a, P, c, seg, q[0]), P1, segs, v);
  }

  /** Descending past a segment that container c lacks creates the member's
      container at the end of the heap. */
  lemma DescendCreates(a: Arena, P: seq<Seg>, c: nat, seg: Seg, segs: seq<Seg>)
    requires Valid(a) && Reach(a, P) == Some(c) && c < |a.heap| && Appendable(a, c, seg)
    requires seg.IdxSeg? ==> CachePath(P + [seg]) !in a.cache
    requires |P| + 1 < |segs| && segs[..|P| + 1] == P + [seg]
    ensures Descend(a, At(c), segs, |P|) == Ok((Created(a, P, c, seg, segs[|P| + 1]), At(|a.heap|)))
  {
    assert segs[|P|] == seg by { assert segs[..|P| + 1][|P|] == segs[|P|]; }
  }

  /** The created container is reached along the path through it. */
  lemma ReachCreated(a: Arena, P: seq<Seg>, c: nat, seg: Seg, first: Seg)
    requires Valid(a) && Reach(a, P) == Some(c) && c < |a.heap| && Appendable(a, c, seg)
    requires seg.IdxSeg? ==> CachePath(P + [seg]) !in a.cache
    ensures Valid(Created(a, P, c, seg, first))
    ensures Reach(Created(a, P, c, seg, first), P + [seg]) == Some(|a.heap|)
  {
    var n := |a.heap|;
    var a1 := Created(a, P, c, seg, first);
    var P1 := P + [seg];
    DescendCreates(a, P, c, seg, P1 + [first]);
    assert a1.heap[..c] == a.heap[..c];
    ReachStable(a, a1, P);
    assert P1[..|P1| - 1] == P;
    assert P1[..|P| + 1] == P1;
    if seg.KeySeg? {
      var es := a.heap[c].entries;
      assert a1.heap[c].entries == es + [(StrKey(seg.key), Ref(n))];
      FindKeyAppended(es, StrKey(seg.key), Ref(n));
    }
  }

  // ---------------------------------------------------------------------------
  // Storing a sequence of leaves
  // ---------------------------------------------------------------------------

  /** The outer loop of inflate_dict over paths that are already unravelled. */
  function WalkAll(a: Arena, ls: seq<(seq<Seg>, Value)>): (r: Result<Arena>)
    requires Valid(a)
    ensures r.Ok? ==> Valid(r.value)
    decreases |ls|
  {
    if ls == [] then Ok(a)
    else if ls[0].0 == [] then Err(ValueError)
    else
      var a' :- Walk(a, At(0), ls[0].0, 0, ls[0].1);
      WalkAll(a', ls[1..])
  }

  lemma {:induction false} WalkAllAppend(a: Arena, A: seq<(seq<Seg>, Value)>, B: seq<(seq<Seg>, Value)>)
    requires Valid(a) && WalkAll(a, A).Ok?
    ensures Valid(WalkAll(a, A).value)
    ensures WalkAll(a, A + B) == WalkAll(WalkAll(a, A).value, B)
    decreases |A|
  {
    if A != [] {
      var a' := WalkAllHead(a, A, B);
      WalkAllAppend(a', A[1..], B);
    } else {
      assert A + B == B;
    }
  }

  /** Storing A + B begins, like storing A, with the first leaf of A. */
  lemma WalkAllHead(a: Arena, A: seq<(seq<Seg>, Value)>, B: seq<(seq<Seg>, Value)>) returns (a': Arena)
    requires Valid(a) && A != [] && WalkAll(a, A).Ok?
    ensures Valid(a') && WalkAll(a, A) == WalkAll(a', A[1..]) && WalkAll(a, A + B) == WalkAll(a', A[1..] + B)
  {
    assert A[0].0 != [];
    WalkAllCons(a, A);
    a' := Walk(a, At(0), A[0].0, 0, A[0].1).value;
    ConsAppend(A, B);
    WalkAllCons(a, A + B);
  }

  lemma ConsAppend<T>(A: seq<T>, B: seq<T>)
    requires A != []
    ensures (A + B)[0] == A[0] && (A + B)[1..] == A[1..] + B
  {
  }

  /** The first leaf of a sequence that is stored is stored first. */
  lemma WalkAllCons(a: Arena, ls: seq<(seq<Seg>, Value)>)
    requires Valid(a) && ls != [] && ls[0].0 != []
    ensures WalkAll(a, ls).Ok? ==> Walk(a, At(0), ls[0].0, 0, ls[0].1).Ok?
    ensures Walk(a, At(0), ls[0].0, 0, ls[0].1).Ok? ==>
      WalkAll(a, ls) == WalkAll(Walk(a, At(0), ls[0].0, 0, ls[0].1).value, ls[1..])
  {
  }

  /** Two arenas in which the first leaf lands in the same arena store the
      whole sequence alike. */
  lemma WalkAllSameHead(a: Arena, a1: Arena, ls: seq<(seq<Seg>, Value)>)
    requires Valid(a) && Valid(a1) && ls != [] && ls[0].0 != []
    requires Walk(a, At(0), ls[0].0, 0, ls[0].1) == Walk(a1, At(0), ls[0].0, 0, ls[0].1)
    ensures WalkAll(a, ls) == WalkAll(a1, ls)
  {
  }

  /** The leaves ls, each below path P. */
  function Prefixed(P: seq<Seg>, ls: seq<(seq<Seg>, Value)>): (r: seq<(seq<Seg>, Value)>)
    ensures |r| == |ls|
    ensures forall t :: 0 <= t < |ls| ==> r[t] == (P + ls[t].0, ls[t].1)
  {
    seq(|ls|, t requires 0 <= t < |ls| => (P + ls[t].0, ls[t].1))
  }

  lemma PrefixedAppend(P: seq<Seg>, A: seq<(seq<Seg>, Value)>, B: seq<(seq<Seg>, Value)>)
    ensures Prefixed(P, A + B) == Prefixed(P, A) + Prefixed(P, B)
  {
  }

  lemma PrefixedUnder(P: seq<Seg>, s: Seg, ls: seq<(seq<Seg>, Value)>)
    ensures Prefixed(P, Under(s, ls)) == Prefixed(P + [s], ls)
  {
    forall t | 0 <= t < |ls| ensures P + ([s] + ls[t].0) == P + [s] + ls[t].0 {
    }
  }

  /** The leaves of the members of container y from the i-th on. */
  function MembersLeaves(y: Value, i: nat): seq<(seq<Seg>, Value)>
    requires y.IsContainer() && i <= |Members(y)|
  {
    if y.Map? then EntryLeaves(y, i) else ItemLeaves(y, i)
  }

  lemma MembersLeavesStep(y: Value, i: nat)
    requires y.IsContainer() && i < |Members(y)|
    ensures MembersLeaves(y, i) == MemberLeaves(SegAt(y, i), Members(y)[i]) + MembersLeaves(y, i + 1)
  {
  }

  // ---------------------------------------------------------------------------
  // The values inflate_dict can rebuild
  // ---------------------------------------------------------------------------

  /** A dict key that reads back as itself: not empty, without a character of
      the separator or '/', and not starting with the index pattern. */
  predicate KeyFits(k: string, sep: Separator, br: Brackets) {
    k != [] && Avoids(k, sep) && Avoids(k, "/") && forall n: nat :: n < |k| ==> !IndexMatch(k, br, n)
  }

  /** The separator has no digit and no bracket, so the text of an index is
      one piece of the split. */
  predicate SepFits(sep: Separator, br: Brackets) {
    forall i :: 0 <= i < |sep| ==> !IsDigit(sep[i]) && sep[i] != br.open && sep[i] != br.close
  }

  /** Every key in v fits, and every dict or list inside v (v excepted) has a
      member: flatten_dict leaves no trace of an empty one. */
  predicate Inflatable(v: Value, sep: Separator, br: Brackets) {
    match v
    case Map(es) => forall i :: 0 <= i < |es| ==>
      KeyFits(es[i].0, sep, br) && es[i].1 != Map([]) && es[i].1 != List([]) && Inflatable(es[i].1, sep, br)
    case List(xs) => forall i :: 0 <= i < |xs| ==>
      xs[i] != Map([]) && xs[i] != List([]) && Inflatable(xs[i], sep, br)
    case _ => true
  }

  lemma MemberInflatable(y: Value, i: nat, sep: Separator, br: Brackets)
    requires y.IsContainer() && i < |Members(y)| && Inflatable(y, sep, br) && WellKeyed(y)
    ensures Members(y)[i] < y
    ensures Inflatable(Members(y)[i], sep, br) && WellKeyed(Members(y)[i])
    ensures Members(y)[i] != Map([]) && Members(y)[i] != List([])
    ensures y.Map? ==> KeyFits(y.entries[i].0, sep, br)
  {
    if y.Map? { assert y.entries[i] in y.entries; } else { assert y.items[i] in y.items; }
  }

  // ---------------------------------------------------------------------------
  // The keys of the list cache
  // ---------------------------------------------------------------------------

  /** The cache keys of the paths that extend P. */
  function Below(P: seq<Seg>): string {
    if P == [] then "" else CachePath(P) + "/"
  }

  lemma CachePathSnoc(P: seq<Seg>, s: Seg)
    ensures CachePath(P + [s]) == Below(P) + CacheText(s)
  {
    var Q := P + [s];
    var parts := seq(|Q|, t requires 0 <= t < |Q| => CacheText(Q[t]));
    if P == [] {
      assert parts == [CacheText(s)];
    } else {
      JoinSnoc(parts, "/");
      assert parts[..|parts| - 1] == seq(|P|, t requires 0 <= t < |P| => CacheText(P[t]));
    }
  }

  /** The cache entries that storing the leaves of y below P creates: one for
      every container y holds, at any depth, at a list position. */
  function NewKeys(P: seq<Seg>, y: Value): set<string>
    decreases y, 2
  {
    if y.IsContainer() then MemberKeys(P, y, 0) else {}
  }

  function MemberKeys(P: seq<Seg>, y: Value, i: nat): set<string>
    requires y.IsContainer() && i <= |Members(y)|
    decreases y, 1, |Members(y)| - i
  {
    if i == |Members(y)| then {} else MemberKey(P, y, i) + MemberKeys(P, y, i + 1)
  }

  function MemberKey(P: seq<Seg>, y: Value, i: nat): set<string>
    requires y.IsContainer() && i < |Members(y)|
    decreases y, 0
  {
    var m := Members(y)[i];
    assert m < y by {
      if y.Map? { assert y.entries[i] in y.entries; } else { assert y.items[i] in y.items; }
    }
    var P' := P + [SegAt(y, i)];
    (if y.List? && m.IsContainer() then {CachePath(P')} else {}) + NewKeys(P', m)
  }

  /** The cache key f is the path W, or a path below it. */
  predicate Region(f: string, W: string) {
    f == W || StartsWith(f, W + "/")
  }

  lemma {:induction false} NewKeysBelow(P: seq<Seg>, y: Value)
    requires P != []
    ensures forall f :: f in NewKeys(P, y) ==> StartsWith(f, CachePath(P) + "/")
    decreases y, 2
  {
    if y.IsContainer() {
      MemberKeysBelow(P, y, 0);
    }
  }

  lemma {:induction false} MemberKeysBelow(P: seq<Seg>, y: Value, i: nat)
    requires P != [] && y.IsContainer() && i <= |Members(y)|
    ensures forall f :: f in MemberKeys(P, y, i) ==> StartsWith(f, CachePath(P) + "/")
    decreases y, 1, |Members(y)| - i
  {
    if i < |Members(y)| {
      MemberKeyBelow(P, y, i);
      MemberKeysBelow(P, y, i + 1);
    }
  }

  lemma {:induction false} MemberKeyBelow(P: seq<Seg>, y: Value, i: nat)
    requires P != [] && y.IsContainer() && i < |Members(y)|
    ensures forall f :: f in MemberKey(P, y, i) ==> StartsWith(f, CachePath(P) + "/")
    decreases y, 0, 1
  {
    MemberKeyRegion(P, y, i);
    CachePathSnoc(P, SegAt(y, i));
    forall f | f in MemberKey(P, y, i) ensures StartsWith(f, CachePath(P) + "/") {
      RegionStartsWith(f, CachePath(P) + "/", CacheText(SegAt(y, i)));
    }
  }

  /** Every key member i of y adds is in the region of its own path. */
  lemma {:induction false} MemberKeyRegion(P: seq<Seg>, y: Value, i: nat)
    requires y.IsContainer() && i < |Members(y)|
    ensures forall f :: f in MemberKey(P, y, i) ==> Region(f, CachePath(P + [SegAt(y, i)]))
    decreases y, 0, 0
  {
    var m := Members(y)[i];
    assert m < y by {
      if y.Map? { assert y.entries[i] in y.entries; } else { assert y.items[i] in y.items; }
    }
    NewKeysBelow(P + [SegAt(y, i)], m);
  }

  /** A key in the region of X + u starts with X. */
  lemma RegionStartsWith(f: string, X: string, u: string)
    requires Region(f, X + u)
    ensures StartsWith(f, X)
  {
    if f != X + u {
      assert f[..|X|] == (X + u + "/")[..|X|] == X;
    } else {
      assert f[..|X|] == X;
    }
  }

  /** The text before the first '/' of g. */
  lemma FirstPiece(g: string, u: string, u': string)
    requires Avoids(u, "/") && Avoids(u', "/") && |u| <= |u'|
    requires g == u || StartsWith(g, u + "/")
    requires g == u' || StartsWith(g, u' + "/")
    ensures u == u'
  {
    assert g[..|u'|] == u';
    assert forall j :: 0 <= j < |u'| ==> g[j] == u'[j];
    assert |u| < |g| ==> g[|u|] == '/' by {
      if g != u { assert (u + "/")[|u|] == '/'; }
    }
    assert g[..|u|] == u;
  }

  /** Two keys of one container whose texts differ have disjoint regions. */
  lemma RegionsApart(f: string, A: string, u: string, u': string)
    requires Avoids(u, "/") && Avoids(u', "/")
    requires Region(f, A + u) && Region(f, A + u')
    ensures u == u'
  {
    RegionStartsWith(f, A, u);
    var g := f[|A|..];
    assert f == A + g;
    assert g == u || StartsWith(g, u + "/") by {
      if f != A + u { assert (A + u + "/")[|A|..] == u + "/"; assert f[..|A + u + "/"|][|A|..] == g[..|u + "/"|]; }
    }
    assert g == u' || StartsWith(g, u' + "/") by {
      if f != A + u' { assert (A + u' + "/")[|A|..] == u' + "/"; assert f[..|A + u' + "/"|][|A|..] == g[..|u' + "/"|]; }
    }
    if |u| <= |u'| { FirstPiece(g, u, u'); } else { FirstPiece(g, u', u); }
  }

  /** Distinct members of one container have distinct cache texts, none with
      a '/'. */
  lemma CacheTextsApart(y: Value, i: nat, j: nat, sep: Separator, br: Brackets)
    requires y.IsContainer() && WellKeyed(y) && Inflatable(y, sep, br)
    requires i < |Members(y)| && j < |Members(y)|
    ensures Avoids(CacheText(SegAt(y, i)), "/")
    ensures i != j ==> CacheText(SegAt(y, i)) != CacheText(SegAt(y, j))
  {
    if y.List? {
      var u := NatToString(i);
      assert forall t :: 0 <= t < |u| ==> IsDigit(u[t]);
      if i != j && NatToString(i) == NatToString(j) {
        NatToStringInjective(i, j);
      }
    } else {
      MemberInflatable(y, i, sep, br);
    }
  }

  /** The keys member i adds are not among those the later members add. */
  lemma {:induction false} SiblingKeysApart(P: seq<Seg>, y: Value, i: nat, j: nat, sep: Separator, br: Brackets)
    requires y.IsContainer() && WellKeyed(y) && Inflatable(y, sep, br)
    requires i < j <= |Members(y)|
    ensures forall f :: f in MemberKeys(P, y, j) ==> !Region(f, CachePath(P + [SegAt(y, i)]))
    decreases |Members(y)| - j
  {
    if j < |Members(y)| {
      SiblingKeysApart(P, y, i, j + 1, sep, br);
      SiblingKeyApart(P, y, i, j, sep, br);
    }
  }

  /** The keys member j adds are not in the region of another member i. */
  lemma SiblingKeyApart(P: seq<Seg>, y: Value, i: nat, j: nat, sep: Separator, br: Brackets)
    requires y.IsContainer() && WellKeyed(y) && Inflatable(y, sep, br)
    requires i < j < |Members(y)|
    ensures forall f :: f in MemberKey(P, y, j) ==> !Region(f, CachePath(P + [SegAt(y, i)]))
  {
    MemberKeyRegion(P, y, j);
    CachePathSnoc(P, SegAt(y, i));
    CachePathSnoc(P, SegAt(y, j));
    CacheTextsApart(y, i, j, sep, br);
    CacheTextsApart(y, j, i, sep, br);
    forall f | f in MemberKey(P, y, j) ensures !Region(f, CachePath(P + [SegAt(y, i)])) {
      if Region(f, CachePath(P + [SegAt(y, i)])) {
        RegionsApart(f, Below(P), CacheText(SegAt(y, i)), CacheText(SegAt(y, j)));
      }
    }
  }

  lemma MemberKeyApart(P: seq<Seg>, y: Value, i: nat, sep: Separator, br: Brackets)
    requires y.IsContainer() && WellKeyed(y) && Inflatable(y, sep, br) && i < |Members(y)|
    ensures MemberKey(P, y, i) !! MemberKeys(P, y, i + 1)
  {
    SiblingKeysApart(P, y, i, i + 1, sep, br);
    MemberKeyRegion(P, y, i);
  }

  // ---------------------------------------------------------------------------
  // Building one container
  // ---------------------------------------------------------------------------

  /** The container at c holds the first i members of y, in order. */
  predicate Built(h: Heap, c: nat, y: Value, i: nat)
    requires WellFormed(h) && c < |h| && y.IsContainer()
  {
    i <= |Members(y)| && (h[c].DictObj? <==> y.Map?) && |Slots(h[c])| == i
    && (forall t :: 0 <= t < i ==> Denotes(h, Slots(h[c])[t], Members(y)[t]))
    && (y.Map? ==> forall t :: 0 <= t < i ==> h[c].entries[t].0 == StrKey(y.entries[t].0))
  }

  /** A container holding all the members of y reads back as y. */
  lemma BuiltDone(h: Heap, c: nat, y: Value)
    requires WellFormed(h) && c < |h| && y.IsContainer() && Built(h, c, y, |Members(y)|)
    ensures Materialize(h, c) == Ok(y)
  {
    if y.Map? {
      forall t | 0 <= t < |y.entries|
        ensures h[c].entries[t].0 == StrKey(y.entries[t].0) && Denotes(h, h[c].entries[t].1, y.entries[t].1)
      {
        assert Slots(h[c])[t] == h[c].entries[t].1;
      }
      EntriesDenote(h, c, 0, y.entries);
      assert y.entries[0..] == y.entries;
    } else {
      ItemsDenote(h, c, 0, y.items);
      assert y.items[0..] == y.items;
    }
  }

  /** Appending member i keeps the members before it, whose containers lie
      after c and are left alone. */
  lemma BuiltStep(h: Heap, h': Heap, c: nat, y: Value, i: nat, slot: Slot)
    requires WellFormed(h) && WellFormed(h') && c < |h| <= |h'| && y.IsContainer()
    requires Built(h, c, y, i) && i < |Members(y)|
    requires forall j :: c < j < |h| ==> h'[j] == h[j]
    requires h'[c] == Extend(h[c], SegAt(y, i), slot) && Denotes(h', slot, Members(y)[i])
    ensures Built(h', c, y, i + 1)
  {
    var old_ := Slots(h[c]);
    assert forall t :: 0 <= t < i ==> Slots(h'[c])[t] == old_[t];
    assert Slots(h'[c])[i] == slot;
    forall t | 0 <= t < i ensures Denotes(h', Slots(h'[c])[t], Members(y)[t]) {
      assert RefsWithin(old_, c, |h|);
      if old_[t].Ref? {
        assert AgreeFrom(h, h', old_[t].id);
      }
      DenotesFrame(h, h', old_[t], Members(y)[t]);
    }
    if y.Map? {
      assert h'[c].entries[i].0 == KeyOf(SegAt(y, i));
    }
  }

  /** A container holding the first i members of y can take member i. */
  lemma BuiltAppendable(a: Arena, c: nat, y: Value, i: nat)
    requires Valid(a) && c < |a.heap| && y.IsContainer() && WellKeyed(y)
    requires Built(a.heap, c, y, i) && i < |Members(y)|
    ensures Appendable(a, c, SegAt(y, i))
  {
    if y.Map? {
      var es := a.heap[c].entries;
      forall t | 0 <= t < |es| ensures es[t].0 != StrKey(y.entries[i].0) {
        assert es[t].0 == StrKey(y.entries[t].0);
      }
    }
  }

  /** The first leaf of a non-empty container goes through its first member. */
  lemma {:induction false} FirstLeaf(m: Value, sep: Separator, br: Brackets)
    requires m.IsContainer() && m != Map([]) && m != List([]) && WellKeyed(m) && Inflatable(m, sep, br)
    ensures |Members(m)| >= 1 && |Leaves(m)| >= 1 && Leaves(m)[0].0 != [] && Leaves(m)[0].0[0] == SegAt(m, 0)
    decreases m
  {
    assert |Members(m)| >= 1 by {
      if m.Map? { assert m.entries != []; } else { assert m.items != []; }
    }
    MembersLeavesStep(m, 0);
    MemberInflatable(m, 0, sep, br);
    var x := Members(m)[0];
    if x.IsContainer() {
      FirstLeaf(x, sep, br);
    }
    assert Leaves(m) == MembersLeaves(m, 0);
  }

  /** The arena a' grew out of a: nothing before c changed and the cache
      only gained entries. */
  predicate Grown(a: Arena, a': Arena, c: nat) {
    Valid(a') && c < |a.heap| <= |a'.heap| && a'.heap[..c] == a.heap[..c] && Extends(a.cache, a'.cache)
  }

  lemma GrownTrans(a: Arena, a1: Arena, a2: Arena, c: nat)
    requires Grown(a, a1, c) && Grown(a1, a2, c)
    ensures Grown(a, a2, c)
  {
  }

  /** A scalar member is appended to its container by its one leaf. */
  lemma BuildScalar(a: Arena, P: seq<Seg>, c: nat, y: Value, i: nat)
    requires Valid(a) && y.IsContainer() && WellKeyed(y) && i < |Members(y)| && !Members(y)[i].IsContainer()
    requires Reach(a, P) == Some(c) && c < |a.heap| && Built(a.heap, c, y, i)
    ensures WalkAll(a, Prefixed(P, MemberLeaves(SegAt(y, i), Members(y)[i]))).Ok?
    ensures var a' := WalkAll(a, Prefixed(P, MemberLeaves(SegAt(y, i), Members(y)[i]))).value;
      Grown(a, a', c) && Built(a'.heap, c, y, i + 1) && Reach(a', P) == Some(c) && a'.cache == a.cache
  {
    var m := Members(y)[i];
    var s := SegAt(y, i);
    var h := a.heap;
    BuiltAppendable(a, c, y, i);
    PlaceLeaf(a, P, s, m);
    var a1 := Arena(h[c := Extend(h[c], s, Scalar(m))], a.cache);
    assert Prefixed(P, MemberLeaves(s, m)) == [(P + [s], m)];
    assert WalkAll(a, [(P + [s], m)]) == WalkAll(a1, []);
    BuiltStep(h, a1.heap, c, y, i, Scalar(m));
    assert a1.heap[..c] == h[..c];
    ReachStable(a, a1, P);
  }

  /** The cache entries before a member's first leaf, with the one that leaf
      adds for a container at a list position, are none of those the
      member's own leaves add. */
  lemma MemberFresh(a: Arena, P: seq<Seg>, y: Value, i: nat)
    requires y.IsContainer() && i < |Members(y)| && Members(y)[i].IsContainer()
    requires a.cache.Keys !! MemberKeys(P, y, i)
    ensures var s := SegAt(y, i);
      (s.IdxSeg? ==> CachePath(P + [s]) !in a.cache)
      && (a.cache.Keys + (if s.IdxSeg? then {CachePath(P + [s])} else {})) !! MemberKeys(P + [s], Members(y)[i], 0)
      && MemberKey(P, y, i) == (if s.IdxSeg? then {CachePath(P + [s])} else {}) + MemberKeys(P + [s], Members(y)[i], 0)
  {
    var s := SegAt(y, i);
    var m := Members(y)[i];
    var f := CachePath(P + [s]);
    assert m < y by {
      if y.Map? { assert y.entries[i] in y.entries; } else { assert y.items[i] in y.items; }
    }
    NewKeysBelow(P + [s], m);
    assert NewKeys(P + [s], m) == MemberKeys(P + [s], m, 0);
    assert MemberKeys(P, y, i) == MemberKey(P, y, i) + MemberKeys(P, y, i + 1);
    assert forall g :: g in NewKeys(P + [s], m) ==> |g| > |f|;
  }

  /** The arena after the first leaf below member s of container c has
      created the member's container, whose first segment is `first`. */
  function Created(a: Arena, P: seq<Seg>, c: nat, s: Seg, first: Seg): Arena
    requires c < |a.heap|
  {
    Arena(a.heap[c := Extend(a.heap[c], s, Ref(|a.heap|))] + [Fresh(first)],
          if s.IdxSeg? then a.cache[CachePath(P + [s]) := |a.heap|] else a.cache)
  }

  /** The first leaf of a dict or list member creates its container, empty,
      and the leaves of the member can be stored from there. */
  lemma CreateStep(a: Arena, P: seq<Seg>, c: nat, y: Value, i: nat, sep: Separator, br: Brackets)
    requires Valid(a) && y.IsContainer() && WellKeyed(y) && Inflatable(y, sep, br) && i < |Members(y)|
    requires Members(y)[i].IsContainer()
    requires Reach(a, P) == Some(c) && c < |a.heap| && Built(a.heap, c, y, i)
    requires a.cache.Keys !! MemberKeys(P, y, i)
    ensures |Leaves(Members(y)[i])| >= 1 && Leaves(Members(y)[i])[0].0 != []
    ensures var m := Members(y)[i];
      var s := SegAt(y, i);
      var a1 := Created(a, P, c, s, Leaves(m)[0].0[0]);
      Valid(a1) && Reach(a1, P + [s]) == Some(|a.heap|) && Built(a1.heap, |a.heap|, m, 0)
      && WalkAll(a, Prefixed(P, MemberLeaves(s, m))) == WalkAll(a1, Prefixed(P + [s], Leaves(m)))
      && a1.cache.Keys !! MemberKeys(P + [s], m, 0)
      && Extends(a.cache, a1.cache)
      && a1.cache.Keys + MemberKeys(P + [s], m, 0) == a.cache.Keys + MemberKey(P, y, i)
  {
    CreateState(a, P, c, y, i, sep, br);
    CreateWalk(a, P, c, y, i, sep, br);
  }

  /** The arena right after the member's container is created. */
  lemma CreateState(a: Arena, P: seq<Seg>, c: nat, y: Value, i: nat, sep: Separator, br: Brackets)
    requires Valid(a) && y.IsContainer() && WellKeyed(y) && Inflatable(y, sep, br) && i < |Members(y)|
    requires Members(y)[i].IsContainer()
    requires Reach(a, P) == Some(c) && c < |a.heap| && Built(a.heap, c, y, i)
    requires a.cache.Keys !! MemberKeys(P, y, i)
    ensures |Leaves(Members(y)[i])| >= 1 && Leaves(Members(y)[i])[0].0 != []
    ensures var m := Members(y)[i];
      var s := SegAt(y, i);
      var a1 := Created(a, P, c, s, Leaves(m)[0].0[0]);
      Valid(a1) && Reach(a1, P + [s]) == Some(|a.heap|) && Built(a1.heap, |a.heap|, m, 0)
      && a1.cache.Keys !! MemberKeys(P + [s], m, 0)
      && Extends(a.cache, a1.cache)
      && a1.cache.Keys + MemberKeys(P + [s], m, 0) == a.cache.Keys + MemberKey(P, y, i)
  {
    var m := Members(y)[i];
    var s := SegAt(y, i);
    MemberInflatable(y, i, sep, br);
    BuiltAppendable(a, c, y, i);
    FirstLeaf(m, sep, br);
    ReachCreated(a, P, c, s, Leaves(m)[0].0[0]);
    CreatedEmpty(a, P, c, s, m);
    CreatedCache(a, P, c, y, i, Leaves(m)[0].0[0]);
  }

  /** The created container is empty and of the member's kind. */
  lemma CreatedEmpty(a: Arena, P: seq<Seg>, c: nat, s: Seg, m: Value)
    requires Valid(a) && Reach(a, P) == Some(c) && c < |a.heap| && Appendable(a, c, s)
    requires s.IdxSeg? ==> CachePath(P + [s]) !in a.cache
    requires m.IsContainer() && |Members(m)| >= 1
    ensures Valid(Created(a, P, c, s, SegAt(m, 0)))
    ensures Built(Created(a, P, c, s, SegAt(m, 0)).heap, |a.heap|, m, 0)
  {
    ReachCreated(a, P, c, s, SegAt(m, 0));
    var h1 := Created(a, P, c, s, SegAt(m, 0)).heap;
    var o := Fresh(SegAt(m, 0));
    assert h1[|a.heap|] == o;
    assert Slots(o) == [] && (o.DictObj? <==> m.Map?);
  }

  /** The cache after the member's container is created. */
  lemma CreatedCache(a: Arena, P: seq<Seg>, c: nat, y: Value, i: nat, first: Seg)
    requires y.IsContainer() && i < |Members(y)| && Members(y)[i].IsContainer() && c < |a.heap|
    requires a.cache.Keys !! MemberKeys(P, y, i)
    ensures var m := Members(y)[i];
      var s := SegAt(y, i);
      var a1 := Created(a, P, c, s, first);
      a1.cache.Keys !! MemberKeys(P + [s], m, 0)
      && Extends(a.cache, a1.cache)
      && a1.cache.Keys + MemberKeys(P + [s], m, 0) == a.cache.Keys + MemberKey(P, y, i)
  {
    MemberFresh(a, P, y, i);
  }

  /** Storing the member's leaves from before and from after its container is
      created comes to the same thing. */
  lemma CreateWalk(a: Arena, P: seq<Seg>, c: nat, y: Value, i: nat, sep: Separator, br: Brackets)
    requires Valid(a) && y.IsContainer() && WellKeyed(y) && Inflatable(y, sep, br) && i < |Members(y)|
    requires Members(y)[i].IsContainer()
    requires Reach(a, P) == Some(c) && c < |a.heap| && Built(a.heap, c, y, i)
    requires a.cache.Keys !! MemberKeys(P, y, i)
    ensures |Leaves(Members(y)[i])| >= 1 && Leaves(Members(y)[i])[0].0 != []
    ensures var m := Members(y)[i];
      var s := SegAt(y, i);
      var a1 := Created(a, P, c, s, Leaves(m)[0].0[0]);
      Valid(a1) && WalkAll(a, Prefixed(P, MemberLeaves(s, m))) == WalkAll(a1, Prefixed(P + [s], Leaves(m)))
  {
    var m := Members(y)[i];
    var s := SegAt(y, i);
    MemberInflatable(y, i, sep, br);
    BuiltAppendable(a, c, y, i);
    var L := Leaves(m);
    FirstLeaf(m, sep, br);
    var q := L[0].0;
    MemberFresh(a, P, y, i);
    CreateMember(a, P, s, q, L[0].1);
    var a1 := Created(a, P, c, s, q[0]);
    PrefixedUnder(P, s, L);
    var Lp := Prefixed(P + [s], L);
    assert Lp[0] == (P + [s] + q, L[0].1);
    WalkAllSameHead(a, a1, Lp);
  }

  /** Once the member's container reads back as the member, the container c
      holds one member more. */
  lemma AfterChild(a: Arena, a1: Arena, a2: Arena, P: seq<Seg>, c: nat, y: Value, i: nat, first: Seg)
    requires Valid(a) && y.IsContainer() && i < |Members(y)| && c < |a.heap|
    requires Reach(a, P) == Some(c) && Built(a.heap, c, y, i)
    requires a1 == Created(a, P, c, SegAt(y, i), first) && Extends(a.cache, a1.cache)
    requires Grown(a1, a2, |a.heap|) && Materialize(a2.heap, |a.heap|) == Ok(Members(y)[i])
    ensures Grown(a, a2, c) && Built(a2.heap, c, y, i + 1) && Reach(a2, P) == Some(c)
  {
    var h := a.heap;
    var n := |h|;
    assert a2.heap[..c] == h[..c] by {
      assert a2.heap[..c] == a2.heap[..n][..c] && a1.heap[..c] == a1.heap[..n][..c];
    }
    assert a2.heap[c] == a1.heap[..n][c];
    assert forall j :: c < j < n ==> a2.heap[j] == a2.heap[..n][j] == h[j];
    BuiltStep(h, a2.heap, c, y, i, Ref(n));
    ReachStable(a, a2, P);
  }

  /** A dict or list member is created by its first leaf and completed by
      all of its leaves. */
  lemma {:induction false} BuildContainer(a: Arena, P: seq<Seg>, c: nat, y: Value, i: nat, sep: Separator, br: Brackets)
    requires Valid(a) && y.IsContainer() && WellKeyed(y) && Inflatable(y, sep, br) && i < |Members(y)|
    requires Members(y)[i].IsContainer()
    requires Reach(a, P) == Some(c) && c < |a.heap| && Built(a.heap, c, y, i)
    requires a.cache.Keys !! MemberKeys(P, y, i)
    ensures WalkAll(a, Prefixed(P, MemberLeaves(SegAt(y, i), Members(y)[i]))).Ok?
    ensures var a' := WalkAll(a, Prefixed(P, MemberLeaves(SegAt(y, i), Members(y)[i]))).value;
      Grown(a, a', c) && Built(a'.heap, c, y, i + 1) && Reach(a', P) == Some(c)
      && a'.cache.Keys == a.cache.Keys + MemberKey(P, y, i)
    decreases y, 0, 0
  {
    var m := Members(y)[i];
    var s := SegAt(y, i);
    CreateStep(a, P, c, y, i, sep, br);
    var a1 := Created(a, P, c, s, Leaves(m)[0].0[0]);
    assert m < y by {
      if y.Map? { assert y.entries[i] in y.entries; } else { assert y.items[i] in y.items; }
    }
    MemberInflatable(y, i, sep, br);
    BuildFrom(a1, P + [s], |a.heap|, m, 0, sep, br);
    var a2 := WalkAll(a1, Prefixed(P + [s], MembersLeaves(m, 0))).value;
    assert MembersLeaves(m, 0) == Leaves(m);
    AfterChild(a, a1, a2, P, c, y, i, Leaves(m)[0].0[0]);
  }

  /** Storing the leaves of member i of y completes that member. */
  lemma {:induction false} BuildMember(a: Arena, P: seq<Seg>, c: nat, y: Value, i: nat, sep: Separator, br: Brackets)
    requires Valid(a) && y.IsContainer() && WellKeyed(y) && Inflatable(y, sep, br) && i < |Members(y)|
    requires Reach(a, P) == Some(c) && c < |a.heap| && Built(a.heap, c, y, i)
    requires a.cache.Keys !! MemberKeys(P, y, i)
    ensures WalkAll(a, Prefixed(P, MemberLeaves(SegAt(y, i), Members(y)[i]))).Ok?
    ensures var a' := WalkAll(a, Prefixed(P, MemberLeaves(SegAt(y, i), Members(y)[i]))).value;
      Grown(a, a', c) && Built(a'.heap, c, y, i + 1) && Reach(a', P) == Some(c)
      && a'.cache.Keys == a.cache.Keys + MemberKey(P, y, i)
    decreases y, 0, 1
  {
    if Members(y)[i].IsContainer() {
      BuildContainer(a, P, c, y, i, sep, br);
    } else {
      BuildScalar(a, P, c, y, i);
      assert MemberKey(P, y, i) == {};
    }
  }

  lemma SplitLeaves(P: seq<Seg>, y: Value, i: nat)
    requires y.IsContainer() && i < |Members(y)|
    ensures Prefixed(P, MembersLeaves(y, i))
         == Prefixed(P, MemberLeaves(SegAt(y, i), Members(y)[i])) + Prefixed(P, MembersLeaves(y, i + 1))
  {
    MembersLeavesStep(y, i);
    PrefixedAppend(P, MemberLeaves(SegAt(y, i), Members(y)[i]), MembersLeaves(y, i + 1));
  }

  /** After member i, the cache still lacks every key the later members
      add. */
  lemma NextFresh(a: Arena, a1: Arena, P: seq<Seg>, y: Value, i: nat, sep: Separator, br: Brackets)
    requires y.IsContainer() && WellKeyed(y) && Inflatable(y, sep, br) && i < |Members(y)|
    requires a.cache.Keys !! MemberKeys(P, y, i) && a1.cache.Keys == a.cache.Keys + MemberKey(P, y, i)
    ensures a1.cache.Keys !! MemberKeys(P, y, i + 1)
  {
    MemberKeyApart(P, y, i, sep, br);
    assert MemberKeys(P, y, i) == MemberKey(P, y, i) + MemberKeys(P, y, i + 1);
  }

  /** Member i, then the members after it. */
  lemma NextBuilt(a: Arena, a1: Arena, P: seq<Seg>, c: nat, y: Value, i: nat, A: seq<(seq<Seg>, Value)>, B: seq<(seq<Seg>, Value)>)
    requires Valid(a) && y.IsContainer() && i < |Members(y)|
    requires WalkAll(a, A) == Ok(a1) && Grown(a, a1, c) && a1.cache.Keys == a.cache.Keys + MemberKey(P, y, i)
    requires WalkAll(a1, B).Ok?
    requires var a2 := WalkAll(a1, B).value;
      Grown(a1, a2, c) && Materialize(a2.heap, c) == Ok(y) && a2.cache.Keys == a1.cache.Keys + MemberKeys(P, y, i + 1)
    ensures WalkAll(a, A + B).Ok?
    ensures var a' := WalkAll(a, A + B).value;
      Grown(a, a', c) && Materialize(a'.heap, c) == Ok(y) && a'.cache.Keys == a.cache.Keys + MemberKeys(P, y, i)
  {
    WalkAllAppend(a, A, B);
    GrownTrans(a, a1, WalkAll(a1, B).value, c);
    assert MemberKeys(P, y, i) == MemberKey(P, y, i) + MemberKeys(P, y, i + 1);
  }

  /** Storing the leaves of members i.. of y, below the container c that
      holds the first i, completes c as y. */
  lemma {:induction false} BuildFrom(a: Arena, P: seq<Seg>, c: nat, y: Value, i: nat, sep: Separator, br: Brackets)
    requires Valid(a) && y.IsContainer() && WellKeyed(y) && Inflatable(y, sep, br) && i <= |Members(y)|
    requires Reach(a, P) == Some(c) && c < |a.heap| && Built(a.heap, c, y, i)
    requires a.cache.Keys !! MemberKeys(P, y, i)
    ensures WalkAll(a, Prefixed(P, MembersLeaves(y, i))).Ok?
    ensures var a' := WalkAll(a, Prefixed(P, MembersLeaves(y, i))).value;
      Grown(a, a', c) && Materialize(a'.heap, c) == Ok(y)
      && a'.cache.Keys == a.cache.Keys + MemberKeys(P, y, i)
    decreases y, 1, |Members(y)| - i
  {
    if i == |Members(y)| {
      BuiltDone(a.heap, c, y);
      assert MembersLeaves(y, i) == [];
      assert Prefixed(P, []) == [];
    } else {
      var A := Prefixed(P, MemberLeaves(SegAt(y, i), Members(y)[i]));
      var B := Prefixed(P, MembersLeaves(y, i + 1));
      SplitLeaves(P, y, i);
      BuildMember(a, P, c, y, i, sep, br);
      var a1 := WalkAll(a, A).value;
      NextFresh(a, a1, P, y, i, sep, br);
      BuildFrom(a1, P, c, y, i + 1, sep, br);
      NextBuilt(a, a1, P, c, y, i, A, B);
    }
  }

  // ---------------------------------------------------------------------------
  // The leaves of a value inflate_dict can rebuild
  // ---------------------------------------------------------------------------

  /** Every key segment of p fits. */
  predicate PathFits(p: seq<Seg>, sep: Separator, br: Brackets) {
    forall i :: 0 <= i < |p| ==> p[i].KeySeg? ==> KeyFits(p[i].key, sep, br)
  }

  /** Every leaf has a non-empty path whose keys fit, and no two leaves share
      a path. */
  predicate LeafPaths(L: seq<(seq<Seg>, Value)>, sep: Separator, br: Brackets) {
    (forall t :: 0 <= t < |L| ==> L[t].0 != [] && PathFits(L[t].0, sep, br))
    && forall t, u :: 0 <= t < u < |L| ==> L[t].0 != L[u].0
  }

  /** Every leaf's path starts with a segment of y's kind other than y's
      first i segments. */
  predicate HeadsFrom(L: seq<(seq<Seg>, Value)>, y: Value, i: nat)
    requires y.IsContainer() && i <= |Members(y)|
  {
    forall t :: 0 <= t < |L| ==>
      L[t].0 != [] && (L[t].0[0].KeySeg? <==> y.Map?) && (forall j :: 0 <= j < i ==> L[t].0[0] != SegAt(y, j))
  }

  lemma SegsApart(y: Value, i: nat, j: nat)
    requires y.IsContainer() && WellKeyed(y) && i < |Members(y)| && j < |Members(y)| && i != j
    ensures SegAt(y, i) != SegAt(y, j)
  {
  }

  lemma PathFitsCons(s: Seg, q: seq<Seg>, sep: Separator, br: Brackets)
    requires PathFits(q, sep, br) && (s.KeySeg? ==> KeyFits(s.key, sep, br))
    ensures PathFits([s] + q, sep, br)
  {
    forall i | 0 <= i < |[s] + q| ensures ([s] + q)[i].KeySeg? ==> KeyFits(([s] + q)[i].key, sep, br) {
      if i > 0 { assert ([s] + q)[i] == q[i - 1]; }
    }
  }

  lemma UnderPaths(s: Seg, ls: seq<(seq<Seg>, Value)>, sep: Separator, br: Brackets)
    requires LeafPaths(ls, sep, br) && (s.KeySeg? ==> KeyFits(s.key, sep, br))
    ensures LeafPaths(Under(s, ls), sep, br)
    ensures forall t :: 0 <= t < |ls| ==> Under(s, ls)[t].0[0] == s
  {
    var L := Under(s, ls);
    forall t | 0 <= t < |L| ensures L[t].0 != [] && PathFits(L[t].0, sep, br) {
      PathFitsCons(s, ls[t].0, sep, br);
    }
    forall t, u | 0 <= t < u < |L| ensures L[t].0 != L[u].0 {
      assert L[t].0[1..] == ls[t].0 && L[u].0[1..] == ls[u].0;
    }
  }

  /** The leaves through one member: non-empty fitting paths through the
      member's segment, all different. */
  lemma {:induction false} MemberLeavesFacts(s: Seg, x: Value, sep: Separator, br: Brackets)
    requires WellKeyed(x) && Inflatable(x, sep, br) && (s.KeySeg? ==> KeyFits(s.key, sep, br))
    ensures LeafPaths(MemberLeaves(s, x), sep, br)
    ensures forall t :: 0 <= t < |MemberLeaves(s, x)| ==> MemberLeaves(s, x)[t].0[0] == s
    decreases x, 3
  {
    if x.IsContainer() {
      LeavesFacts(x, sep, br);
      UnderPaths(s, Leaves(x), sep, br);
    } else {
      assert MemberLeaves(s, x) == [([s], x)];
      assert PathFits([s], sep, br);
    }
  }

  lemma LeafPathsConcat(M: seq<(seq<Seg>, Value)>, R: seq<(seq<Seg>, Value)>, s: Seg, sep: Separator, br: Brackets)
    requires LeafPaths(M, sep, br) && LeafPaths(R, sep, br)
    requires forall t :: 0 <= t < |M| ==> M[t].0[0] == s
    requires forall t :: 0 <= t < |R| ==> R[t].0[0] != s
    ensures LeafPaths(M + R, sep, br)
  {
    var L := M + R;
    forall t | 0 <= t < |L| ensures L[t].0 != [] && PathFits(L[t].0, sep, br) {
      if t >= |M| { assert L[t] == R[t - |M|]; }
    }
    forall t, u | 0 <= t < u < |L| ensures L[t].0 != L[u].0 {
      if u >= |M| {
        assert L[u] == R[u - |M|];
        if t >= |M| { assert L[t] == R[t - |M|]; }
      }
    }
  }

  lemma HeadsConcat(M: seq<(seq<Seg>, Value)>, R: seq<(seq<Seg>, Value)>, y: Value, i: nat)
    requires y.IsContainer() && WellKeyed(y) && i < |Members(y)|
    requires forall t :: 0 <= t < |M| ==> M[t].0 != [] && M[t].0[0] == SegAt(y, i)
    requires HeadsFrom(R, y, i + 1)
    ensures HeadsFrom(M + R, y, i)
  {
    forall j | 0 <= j < i ensures SegAt(y, i) != SegAt(y, j) {
      SegsApart(y, i, j);
    }
    var L := M + R;
    forall t | 0 <= t < |L|
      ensures L[t].0 != [] && (L[t].0[0].KeySeg? <==> y.Map?)
      ensures forall j :: 0 <= j < i ==> L[t].0[0] != SegAt(y, j)
    {
      if t >= |M| { assert L[t] == R[t - |M|]; }
    }
  }

  /** The leaves of a container from member i on: non-empty fitting paths,
      all different, none through one of the first i members. */
  lemma {:induction false} MembersLeavesFacts(y: Value, i: nat, sep: Separator, br: Brackets)
    requires y.IsContainer() && WellKeyed(y) && Inflatable(y, sep, br) && i <= |Members(y)|
    ensures LeafPaths(MembersLeaves(y, i), sep, br) && HeadsFrom(MembersLeaves(y, i), y, i)
    decreases y, 1, |Members(y)| - i
  {
    if i == |Members(y)| {
      assert MembersLeaves(y, i) == [];
    } else {
      var s := SegAt(y, i);
      var x := Members(y)[i];
      MemberInflatable(y, i, sep, br);
      MemberLeavesFacts(s, x, sep, br);
      MembersLeavesFacts(y, i + 1, sep, br);
      MembersLeavesStep(y, i);
      var M := MemberLeaves(s, x);
      var R := MembersLeaves(y, i + 1);
      LeafPathsConcat(M, R, s, sep, br);
      HeadsConcat(M, R, y, i);
    }
  }

  lemma {:induction false} LeavesFacts(v: Value, sep: Separator, br: Brackets)
    requires WellKeyed(v) && Inflatable(v, sep, br)
    ensures LeafPaths(Leaves(v), sep, br)
    ensures v.IsContainer() ==> HeadsFrom(Leaves(v), v, 0)
    decreases v, 2
  {
    if v.IsContainer() {
      MembersLeavesFacts(v, 0, sep, br);
      assert Leaves(v) == MembersLeaves(v, 0);
    }
  }

  // ---------------------------------------------------------------------------
  // A flat key unravels to the path of its leaf
  // ---------------------------------------------------------------------------

  /** The texts of the segments of p. */
  function Texts(p: seq<Seg>, br: Brackets): (r: seq<string>)
    ensures |r| == |p| && forall i :: 0 <= i < |p| ==> r[i] == SegText(p[i], br)
  {
    seq(|p|, i requires 0 <= i < |p| => SegText(p[i], br))
  }

  /** flatten_dict's text of a path is the separator, then the segment texts
      joined by the separator. */
  lemma {:induction false} PathTextJoin(p: seq<Seg>, sep: Separator, br: Brackets)
    requires p != []
    ensures PathText(p, sep, br) == sep + Join(sep, Texts(p, br))
    decreases |p|
  {
    if |p| == 1 {
      assert PathText(p[1..], sep, br) == "";
    } else {
      PathTextJoin(p[1..], sep, br);
      assert Texts(p, br)[1..] == Texts(p[1..], br);
    }
  }

  /** lstrip of the separator's characters removes exactly the leading
      separator when the text after it starts with another character. */
  lemma StripLeading(sep: Separator, J: string)
    requires J != [] && J[0] !in sep
    ensures LStripChars(sep + J, sep) == J
  {
    var s := sep + J;
    LStripCharsSpec(s, sep);
    var r := LStripChars(s, sep);
    assert forall i :: 0 <= i < |sep| ==> s[i] in sep;
    assert s[|sep|] !in sep;
    assert |r| == |J|;
    assert s[|sep|..] == J;
  }

  /** The text of an index has no character of the separator. */
  lemma IndexTextAvoids(n: nat, sep: Separator, br: Brackets)
    requires SepFits(sep, br)
    ensures Avoids(SegText(IdxSeg(n), br), sep)
  {
    var t := SegText(IdxSeg(n), br);
    var d := NatToString(n);
    forall i | 0 <= i < |t| ensures t[i] !in sep {
      assert t[i] == br.open || t[i] == br.close || t[i] == d[i - 1];
    }
  }

  /** The texts of a fitting path have no character of the separator. */
  lemma TextsAvoid(p: seq<Seg>, sep: Separator, br: Brackets)
    requires SepFits(sep, br) && PathFits(p, sep, br)
    ensures forall k :: 0 <= k < |p| ==> Avoids(Texts(p, br)[k], sep)
  {
    forall k | 0 <= k < |p| ensures Avoids(Texts(p, br)[k], sep) {
      if p[k].IdxSeg? { IndexTextAvoids(p[k].index, sep, br); }
    }
  }

  /** The texts of a fitting path read back as its segments. */
  lemma TextsParse(p: seq<Seg>, sep: Separator, br: Brackets)
    requires ValidBrackets(br) && PathFits(p, sep, br)
    ensures forall i :: 0 <= i < |p| ==> ParseSeg(Texts(p, br)[i], br) == p[i]
  {
    forall i | 0 <= i < |p| ensures ParseSeg(Texts(p, br)[i], br) == p[i] {
      match p[i]
      case IdxSeg(n) => ParseIndexText(n, br);
      case KeySeg(k) =>
        assert forall n :: !IndexMatch(k, br, n) by {
          forall n: nat ensures !IndexMatch(k, br, n) {
            if n < |k| { assert KeyFits(k, sep, br); }
          }
        }
        ParseKeyText(k, br);
    }
  }

  lemma JoinHead(sep: Separator, texts: seq<string>)
    requires |texts| >= 1 && texts[0] != []
    ensures Join(sep, texts) != [] && Join(sep, texts)[0] == texts[0][0]
  {
    if |texts| > 1 { assert Join(sep, texts) == texts[0] + sep + Join(sep, texts[1..]); }
  }

  /** inflate_dict's unravel of a flat key gives back the path of its leaf. */
  lemma UnravelLeaf(p: seq<Seg>, sep: Separator, br: Brackets)
    requires ValidBrackets(br) && SepFits(sep, br)
    requires p != [] && p[0].KeySeg? && PathFits(p, sep, br)
    ensures Unravel(LStripChars(PathText(p, sep, br), sep), sep, br) == p
  {
    var texts := Texts(p, br);
    PathTextJoin(p, sep, br);
    assert texts[0] == p[0].key && KeyFits(p[0].key, sep, br);
    JoinHead(sep, texts);
    TextsAvoid(p, sep, br);
    assert texts[0][0] !in sep;
    StripLeading(sep, Join(sep, texts));
    UnravelJoin(texts, sep, br);
    TextsParse(p, sep, br);
  }

  // ---------------------------------------------------------------------------
  // inflate_dict(flatten_dict(d)) == d
  // ---------------------------------------------------------------------------

  /** Storing flat pairs whose keys unravel to the given paths is storing the
      paths. */
  lemma {:induction false} InsertFromWalkAll(a: Arena, flat: seq<(string, Value)>, ls: seq<(seq<Seg>, Value)>, j: nat, sep: Separator, br: Brackets)
    requires Valid(a) && ValidBrackets(br) && |flat| == |ls| && j <= |flat|
    requires forall t :: 0 <= t < |flat| ==> Unravel(flat[t].0, sep, br) == ls[t].0 && flat[t].1 == ls[t].1
    ensures InsertFrom(a, flat, j, sep, br) == WalkAll(a, ls[j..])
    decreases |flat| - j
  {
    if j < |flat| {
      assert ls[j..][0] == ls[j] && ls[j..][1..] == ls[j + 1..];
      var r := Walk(a, At(0), ls[j].0, 0, ls[j].1);
      if r.Ok? {
        InsertFromWalkAll(r.value, flat, ls, j + 1, sep, br);
      }
    }
  }

  /** Each flat key of a rebuildable dict unravels to the path of its leaf. */
  lemma FlatKeysUnravel(d: Value, sep: Separator, br: Brackets)
    requires ValidBrackets(br) && SepFits(sep, br)
    requires d.Map? && WellKeyed(d) && Inflatable(d, sep, br)
    ensures var flat := FlatPairs(d, sep, br);
      forall t :: 0 <= t < |flat| ==> Unravel(flat[t].0, sep, br) == Leaves(d)[t].0 && flat[t].1 == Leaves(d)[t].1
  {
    var ls := Leaves(d);
    LeavesFacts(d, sep, br);
    forall t | 0 <= t < |ls| ensures Unravel(LStripChars(PathText(ls[t].0, sep, br), sep), sep, br) == ls[t].0 {
      UnravelLeaf(ls[t].0, sep, br);
    }
  }

  /** flatten_dict never produces the same flat key twice for a rebuildable
      dict, so nothing it produces is overwritten. */
  lemma FlatKeysDistinct(d: Value, sep: Separator, br: Brackets)
    requires ValidBrackets(br) && SepFits(sep, br)
    requires d.Map? && WellKeyed(d) && Inflatable(d, sep, br)
    ensures FlatDict(d, sep, br) == FlatPairs(d, sep, br)
  {
    var flat := FlatPairs(d, sep, br);
    FlatKeysUnravel(d, sep, br);
    LeavesFacts(d, sep, br);
    assert DistinctKeys(flat) by {
      forall t, u | 0 <= t < u < |flat| ensures flat[t].0 != flat[u].0 {
        assert Unravel(flat[t].0, sep, br) != Unravel(flat[u].0, sep, br);
      }
    }
    OneEntryPerLeaf(d, sep, br);
  }

  /** Storing the leaves of d into a fresh arena rebuilds d at the root. */
  lemma BuildRoot(d: Value, sep: Separator, br: Brackets)
    requires d.Map? && WellKeyed(d) && Inflatable(d, sep, br)
    ensures WellFormed(Start.heap)
    ensures WalkAll(Start, Leaves(d)).Ok?
    ensures var a := WalkAll(Start, Leaves(d)).value; Valid(a) && Materialize(a.heap, 0) == Ok(d)
  {
    assert WellFormed(Start.heap);
    assert Built(Start.heap, 0, d, 0);
    BuildFrom(Start, [], 0, d, 0, sep, br);
    var ls := Leaves(d);
    assert MembersLeaves(d, 0) == ls;
    assert forall t :: 0 <= t < |ls| ==> [] + ls[t].0 == ls[t].0;
    assert Prefixed([], ls) == ls;
  }

  /** inflate_dict(flatten_dict(d, sep, br), sep, br) == d for a dict whose
      keys are not empty, contain no character of the separator and no '/',
      do not start with the index pattern, and which holds no empty dict or
      list, when the separator has no digit and no bracket. */
  lemma RoundTrip(d: Value, sep: Separator, br: Brackets)
    requires ValidBrackets(br) && SepFits(sep, br)
    requires d.Map? && WellKeyed(d) && Inflatable(d, sep, br)
    ensures Inflate(FlatDict(d, sep, br), sep, br) == Ok(d)
  {
    var flat := FlatPairs(d, sep, br);
    FlatKeysDistinct(d, sep, br);
    FlatKeysUnravel(d, sep, br);
    BuildRoot(d, sep, br);
    InsertFromWalkAll(Start, flat, Leaves(d), 0, sep, br);
    assert Leaves(d)[0..] == Leaves(d);
  }

  /** The round trip with flatten_dict's default brackets and '.' as the
      separator. */
  lemma RoundTripDotParens(d: Value)
    requires d.Map? && WellKeyed(d) && Inflatable(d, ".", Brackets('(', ')'))
    ensures Inflate(FlatDict(d, ".", Brackets('(', ')')), ".", Brackets('(', ')')) == Ok(d)
  {
    RoundTrip(d, ".", Brackets('(', ')'));
  }

  /** The round trip with square brackets and ':' as the separator. */
  lemma RoundTripColonSquare(d: Value)
    requires d.Map? && WellKeyed(d) && Inflatable(d, ":", Brackets('[', ']'))
    ensures Inflate(FlatDict(d, ":", Brackets('[', ']')), ":", Brackets('[', ']')) == Ok(d)
  {
    RoundTrip(d, ":", Brackets('[', ']'));
  }

  /** A nested configuration survives flattening and inflating. */
  lemma RoundTripServer(d: Value)
    requires d == Map([("server", Map([("host", Str("db")), ("ports", List([Int(80), Map([("tls", Bool(true))])]))])), ("debug", Null)])
    ensures Inflate(FlatDict(d, ".", Brackets('(', ')')), ".", Brackets('(', ')')) == Ok(d)
  {
    var server := d.entries[0].1;
    var ports := server.entries[1].1;
    PortsInflatable(ports);
    FieldsInflatable(server, "host", Str("db"), "ports", ports);
    FieldsInflatable(d, "server", server, "debug", Null);
    RoundTripDotParens(d);
  }

  lemma PortsInflatable(ports: Value)
    requires ports == List([Int(80), Map([("tls", Bool(true))])])
    ensures WellKeyed(ports) && Inflatable(ports, ".", Brackets('(', ')'))
  {
    WordFits("tls");
    assert Inflatable(ports.items[1], ".", Brackets('(', ')'));
  }

  /** A dict of two fields with different lower-case names and rebuildable,
      non-empty values is rebuildable. */
  lemma FieldsInflatable(d: Value, k1: string, v1: Value, k2: string, v2: Value)
    requires d == Map([(k1, v1), (k2, v2)]) && k1 != k2
    requires k1 != [] && forall i :: 0 <= i < |k1| ==> 'a' <= k1[i] <= 'z'
    requires k2 != [] && forall i :: 0 <= i < |k2| ==> 'a' <= k2[i] <= 'z'
    requires v1 != Map([]) && v1 != List([]) && WellKeyed(v1) && Inflatable(v1, ".", Brackets('(', ')'))
    requires v2 != Map([]) && v2 != List([]) && WellKeyed(v2) && Inflatable(v2, ".", Brackets('(', ')'))
    ensures WellKeyed(d) && Inflatable(d, ".", Brackets('(', ')'))
  {
    WordFits(k1);
    WordFits(k2);
    assert d.entries[0].1 == v1 && d.entries[1].1 == v2;
  }

  /** A key of lower-case letters fits the default separator and brackets. */
  lemma WordFits(k: string)
    requires k != [] && forall i :: 0 <= i < |k| ==> 'a' <= k[i] <= 'z'
    ensures KeyFits(k, ".", Brackets('(', ')'))
  {
  }
}
