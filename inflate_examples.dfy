/**
 * What inflate_dict builds: a flat dict whose keys hold no separator comes
 * back unchanged, and some small flat dicts show the list placement and the
 * exceptions of the walk.
 */
module InflateExamples {
  import opened Values
  import opened Text
  import opened Paths
  import opened InflateArena
  import opened InflateProperties

  /** A key that unravels to a single dict segment. */
  ghost predicate PlainKey(k: string, sep: Separator, br: Brackets) {
    k != [] && Avoids(k, sep) && forall n :: !IndexMatch(k, br, n)
  }

  lemma UnravelPlain(k: string, sep: Separator, br: Brackets)
    requires ValidBrackets(br) && PlainKey(k, sep, br)
    ensures Unravel(k, sep, br) == [KeySeg(k)]
  {
    UnravelJoin([k], sep, br);
    assert Join(sep, [k]) == k;
  }

  /** main_d holds the pairs, in order, and nothing else. */
  predicate RootHolds(a: Arena, pairs: seq<(string, Value)>) {
    Valid(a) && |a.heap[0].entries| == |pairs|
    && forall t :: 0 <= t < |pairs| ==>
      a.heap[0].entries[t].0 == StrKey(pairs[t].0) && Denotes(a.heap, a.heap[0].entries[t].1, pairs[t].1)
  }

  /** Storing under a new top-level key appends the pair to main_d. */
  lemma PlaceNewKey(a: Arena, pairs: seq<(string, Value)>, k: string, v: Value)
    requires RootHolds(a, pairs) && !HasKey(pairs, k)
    ensures Place(a, At(0), KeySeg(k), v).Ok?
    ensures RootHolds(Place(a, At(0), KeySeg(k), v).value, pairs + [(k, v)])
  {
    var (h, slot) := Intern(a.heap, v);
    InternDenotes(a.heap, v);
    var es := a.heap[0].entries;
    assert h[0] == a.heap[0] by { assert h[..|a.heap|][0] == h[0]; }
    assert FindKey(es, StrKey(k)) == None by {
      forall t | 0 <= t < |es| ensures es[t].0 != StrKey(k) {
        assert pairs[t].0 != k;
      }
    }
    var o := DictObj(es + [(StrKey(k), slot)]);
    var h' := h[0 := o];
    assert Place(a, At(0), KeySeg(k), v) == Ok(Arena(h', a.cache));
    var a' := Arena(h', a.cache);
    assert Valid(a');
    var pairs' := pairs + [(k, v)];
    forall t | 0 <= t < |pairs'|
      ensures h'[0].entries[t].0 == StrKey(pairs'[t].0) && Denotes(h', h'[0].entries[t].1, pairs'[t].1)
    {
      if t < |pairs| {
        var s := es[t].1;
        assert Slots(a.heap[0])[t] == s;
        if s.Ref? {
          assert AgreeFrom(a.heap, h, s.id) by {
            forall j | s.id <= j < |a.heap| ensures h[j] == a.heap[j] {
              assert h[..|a.heap|][j] == h[j];
            }
          }
        }
        DenotesFrame(a.heap, h, s, pairs[t].1);
        DenotesFrame(h, h', s, pairs[t].1);
      } else {
        DenotesFrame(h, h', slot, v);
      }
    }
  }

  lemma {:induction false} InsertPlainKeys(a: Arena, flat: seq<(string, Value)>, j: nat, sep: Separator, br: Brackets)
    requires ValidBrackets(br) && j <= |flat| && DistinctKeys(flat)
    requires forall t :: 0 <= t < |flat| ==> PlainKey(flat[t].0, sep, br)
    requires RootHolds(a, flat[..j])
    ensures InsertFrom(a, flat, j, sep, br).Ok?
    ensures RootHolds(InsertFrom(a, flat, j, sep, br).value, flat)
    decreases |flat| - j
  {
    if j == |flat| {
      assert flat[..j] == flat;
    } else {
      var (k, v) := flat[j];
      UnravelPlain(k, sep, br);
      assert !HasKey(flat[..j], k);
      PlaceNewKey(a, flat[..j], k, v);
      assert flat[..j] + [(k, v)] == flat[..j + 1];
      InsertPlainKeys(Place(a, At(0), KeySeg(k), v).value, flat, j + 1, sep, br);
    }
  }

  /** A flat dict whose keys contain no separator character and do not start
      with a list index inflates to itself. */
  lemma InflateShallow(flat: seq<(string, Value)>, sep: Separator, br: Brackets)
    requires ValidBrackets(br) && DistinctKeys(flat)
    requires forall t :: 0 <= t < |flat| ==> PlainKey(flat[t].0, sep, br)
    ensures Inflate(flat, sep, br) == Ok(Map(flat))
  {
    assert WellFormed(Start.heap);
    assert RootHolds(Start, flat[..0]);
    InsertPlainKeys(Start, flat, 0, sep, br);
    var a := InsertFrom(Start, flat, 0, sep, br).value;
    EntriesDenote(a.heap, 0, 0, flat);
    assert flat[0..] == flat;
  }
}

module InflateCases {
  import opened Values
  import opened Text
  import opened Paths
  import opened InflateArena
  import opened InflateProperties

  const Dot: Separator := "."
  const Parens := Brackets('(', ')')

  // The arenas the cases go through.
  const ListOfOne := Arena([DictObj([(StrKey("a"), Ref(1))]), ListObj([Scalar(Int(1))])], map[])
  const ListOfTwo := Arena([DictObj([(StrKey("a"), Ref(1))]), ListObj([Scalar(Int(2)), Scalar(Int(1))])], map[])
  const ScalarAtA := Arena([DictObj([(StrKey("a"), Scalar(Int(1)))])], map[])
  const IntKeyAtRoot := Arena([DictObj([(IntKey(0), Scalar(Int(1)))])], map[])

  lemma IndexText()
    ensures SegText(IdxSeg(0), Parens) == "(0)" && SegText(IdxSeg(1), Parens) == "(1)"
  {
    assert NatToString(0) == "0" && NatToString(1) == "1";
  }

  lemma UnravelKeyIndex(i: nat)
    ensures Unravel("a." + SegText(IdxSeg(i), Parens), Dot, Parens) == [KeySeg("a"), IdxSeg(i)]
  {
    var t := SegText(IdxSeg(i), Parens);
    assert Avoids(t, Dot) by {
      assert forall j :: 0 <= j < |NatToString(i)| ==> IsDigit(NatToString(i)[j]);
    }
    UnravelJoin(["a", t], Dot, Parens);
    assert Join(Dot, ["a", t]) == "a." + t;
    ParseIndexText(i, Parens);
  }

  /** A key of one piece, or of two pieces around the separator. */
  lemma UnravelOne(x: string, sep: Separator, br: Brackets)
    requires ValidBrackets(br) && x != [] && Avoids(x, sep)
    ensures Unravel(x, sep, br) == [ParseSeg(x, br)]
  {
    UnravelJoin([x], sep, br);
    assert Join(sep, [x]) == x;
  }

  lemma UnravelPair(x: string, y: string, sep: Separator, br: Brackets)
    requires ValidBrackets(br) && x != [] && Avoids(x, sep) && Avoids(y, sep)
    ensures Unravel(x + sep + y, sep, br) == [ParseSeg(x, br), ParseSeg(y, br)]
  {
    UnravelJoin([x, y], sep, br);
    assert Join(sep, [x, y]) == x + sep + y;
  }

  lemma PlainLetters()
    ensures ParseSeg("a", Parens) == KeySeg("a") && ParseSeg("b", Parens) == KeySeg("b")
  {
    assert forall n :: !IndexMatch("a", Parens, n) && !IndexMatch("b", Parens, n);
  }

  lemma UnravelKeys()
    ensures Unravel("a", Dot, Parens) == [KeySeg("a")]
    ensures Unravel("a.b", Dot, Parens) == [KeySeg("a"), KeySeg("b")]
  {
    PlainLetters();
    UnravelOne("a", Dot, Parens);
    UnravelPair("a", "b", Dot, Parens);
    assert "a" + Dot + "b" == "a.b";
  }

  lemma UnravelIndexFirst()
    ensures Unravel("(0).a", Dot, Parens) == [IdxSeg(0), KeySeg("a")]
    ensures Unravel("(0)", Dot, Parens) == [IdxSeg(0)]
  {
    IndexText();
    ParseIndexText(0, Parens);
    PlainLetters();
    var t := "(0)";
    assert Avoids(t, Dot);
    UnravelPair(t, "a", Dot, Parens);
    assert t + Dot + "a" == "(0).a";
    UnravelOne(t, Dot, Parens);
  }

  lemma NewList(n: nat)
    ensures Descend(Start, At(0), [KeySeg("a"), IdxSeg(n)], 0)
      == Ok((Arena([DictObj([(StrKey("a"), Ref(1))]), ListObj([])], map[]), At(1)))
  {
    var mid := Arena([DictObj([(StrKey("a"), Ref(1))]), ListObj([])], map[]);
    assert Start.heap[0 := DictObj([(StrKey("a"), Ref(1))])] + [ListObj([])] == mid.heap;
    assert Start.heap[0].DictObj?;
    assert FindKey(Start.heap[0].entries, StrKey("a")) == None;
    assert Fresh(IdxSeg(n)) == ListObj([]);
    assert Start.heap[0].entries + [(StrKey("a"), Ref(1))] == [(StrKey("a"), Ref(1))];
    assert |Start.heap| == 1;
  }

  lemma InsertIntoEmpty(n: nat)
    ensures Place(Arena([DictObj([(StrKey("a"), Ref(1))]), ListObj([])], map[]), At(1), IdxSeg(n), Int(1)) == Ok(ListOfOne)
  {
    var mid := Arena([DictObj([(StrKey("a"), Ref(1))]), ListObj([])], map[]);
    assert Intern(mid.heap, Int(1)) == (mid.heap, Scalar(Int(1)));
    assert mid.heap[1] == ListObj([]);
    assert ListInsert([], n, Scalar(Int(1))) == [Scalar(Int(1))];
    assert mid.heap[1 := ListObj([Scalar(Int(1))])] == ListOfOne.heap;
  }

  lemma NewListThenInsert()
    ensures Walk(Start, At(0), [KeySeg("a"), IdxSeg(1)], 0, Int(1)) == Ok(ListOfOne)
  {
    NewList(1);
    InsertIntoEmpty(1);
  }

  lemma InsertInFront()
    ensures Walk(ListOfOne, At(0), [KeySeg("a"), IdxSeg(0)], 0, Int(2)) == Ok(ListOfTwo)
  {
    assert FindKey(ListOfOne.heap[0].entries, StrKey("a")) == Some(0);
    assert Descend(ListOfOne, At(0), [KeySeg("a"), IdxSeg(0)], 0) == Ok((ListOfOne, At(1)));
    assert Intern(ListOfOne.heap, Int(2)) == (ListOfOne.heap, Scalar(Int(2)));
    assert ListInsert([Scalar(Int(1))], 0, Scalar(Int(2))) == [Scalar(Int(2)), Scalar(Int(1))];
    assert ListOfOne.heap[1 := ListObj([Scalar(Int(2)), Scalar(Int(1))])] == ListOfTwo.heap;
  }

  lemma ReadListOfTwo()
    ensures Materialize(ListOfTwo.heap, 0) == Ok(Map([("a", List([Int(2), Int(1)]))]))
  {
    var h := ListOfTwo.heap;
    assert WellFormed(h) by {
      assert Slots(h[0]) == [Ref(1)];
    }
    ItemsDenote(h, 1, 0, [Int(2), Int(1)]);
    EntriesDenote(h, 0, 0, [("a", List([Int(2), Int(1)]))]);
  }

  /** list.insert: an index past the end appends, and a later smaller index
      goes in front: {"a.(1)": 1, "a.(0)": 2} inflates to {"a": [2, 1]}. */
  lemma ListPlacementByInsert()
    ensures Inflate([("a.(1)", Int(1)), ("a.(0)", Int(2))], Dot, Parens) == Ok(Map([("a", List([Int(2), Int(1)]))]))
  {
    InsertBothIndices();
    ReadListOfTwo();
  }

  lemma UnravelIndexKeys()
    ensures Unravel("a.(0)", Dot, Parens) == [KeySeg("a"), IdxSeg(0)]
    ensures Unravel("a.(1)", Dot, Parens) == [KeySeg("a"), IdxSeg(1)]
  {
    IndexText();
    UnravelKeyIndex(0);
    UnravelKeyIndex(1);
    assert "a." + "(0)" == "a.(0)" && "a." + "(1)" == "a.(1)";
  }

  /** Two pairs inserted one after the other. */
  lemma InsertTwo(a: Arena, flat: seq<(string, Value)>, a1: Arena, a2: Arena)
    requires Valid(a) && Valid(a1) && |flat| == 2
    requires Walk(a, At(0), Unravel(flat[0].0, Dot, Parens), 0, flat[0].1) == Ok(a1)
    requires Walk(a1, At(0), Unravel(flat[1].0, Dot, Parens), 0, flat[1].1) == Ok(a2)
    ensures InsertFrom(a, flat, 0, Dot, Parens) == Ok(a2)
  {
    assert InsertFrom(a1, flat, 1, Dot, Parens) == InsertFrom(a2, flat, 2, Dot, Parens);
  }

  /** A second pair whose walk raises makes the whole call raise. */
  lemma InsertThenRaise(a: Arena, flat: seq<(string, Value)>, a1: Arena, e: PyError)
    requires Valid(a) && Valid(a1) && |flat| == 2
    requires Walk(a, At(0), Unravel(flat[0].0, Dot, Parens), 0, flat[0].1) == Ok(a1)
    requires Walk(a1, At(0), Unravel(flat[1].0, Dot, Parens), 0, flat[1].1) == Err(e)
    ensures InsertFrom(a, flat, 0, Dot, Parens) == Err(e)
  {
  }

  lemma InsertBothIndices()
    ensures InsertFrom(Start, [("a.(1)", Int(1)), ("a.(0)", Int(2))], 0, Dot, Parens) == Ok(ListOfTwo)
  {
    var flat := [("a.(1)", Int(1)), ("a.(0)", Int(2))];
    var p1, p0 := [KeySeg("a"), IdxSeg(1)], [KeySeg("a"), IdxSeg(0)];
    UnravelIndexKeys();
    assert Unravel(flat[0].0, Dot, Parens) == p1 && flat[0].1 == Int(1);
    assert Unravel(flat[1].0, Dot, Parens) == p0 && flat[1].1 == Int(2);
    NewListThenInsert();
    InsertInFront();
    assert Valid(ListOfOne) by { assert Slots(ListOfOne.heap[0]) == [Ref(1)]; }
    InsertTwo(Start, flat, ListOfOne, ListOfTwo);
  }

  lemma KeyIntoList()
    ensures Walk(ListOfOne, At(0), [KeySeg("a"), KeySeg("b")], 0, Int(2)) == Err(TypeError)
  {
    assert FindKey(ListOfOne.heap[0].entries, StrKey("a")) == Some(0);
    assert Descend(ListOfOne, At(0), [KeySeg("a"), KeySeg("b")], 0) == Ok((ListOfOne, At(1)));
  }

  /** A key segment that reaches a list raises TypeError, as list[str] does. */
  lemma KeyIntoListRaises()
    ensures Inflate([("a.(0)", Int(1)), ("a.b", Int(2))], Dot, Parens) == Err(TypeError)
  {
    KeyAfterListRaises();
  }

  lemma KeyAfterListRaises()
    ensures InsertFrom(Start, [("a.(0)", Int(1)), ("a.b", Int(2))], 0, Dot, Parens) == Err(TypeError)
  {
    ListAtA();
    KeyBelowList();
    assert Valid(ListOfOne) by { assert Slots(ListOfOne.heap[0]) == [Ref(1)]; }
    InsertThenRaise(Start, [("a.(0)", Int(1)), ("a.b", Int(2))], ListOfOne, TypeError);
  }

  lemma ListAtA()
    ensures Walk(Start, At(0), Unravel("a.(0)", Dot, Parens), 0, Int(1)) == Ok(ListOfOne)
  {
    UnravelIndexKeys();
    NewListThenInsertAtZero();
  }

  lemma KeyBelowList()
    ensures Walk(ListOfOne, At(0), Unravel("a.b", Dot, Parens), 0, Int(2)) == Err(TypeError)
  {
    UnravelKeys();
    KeyIntoList();
  }

  lemma NewListThenInsertAtZero()
    ensures Walk(Start, At(0), [KeySeg("a"), IdxSeg(0)], 0, Int(1)) == Ok(ListOfOne)
  {
    NewList(0);
    InsertIntoEmpty(0);
  }

  /** An index segment that reaches a dict raises AttributeError, as
      dict.insert does: a key may not start with a list index. */
  lemma IndexIntoDictRaises()
    ensures Inflate([("(0).a", Int(1))], Dot, Parens) == Err(AttributeError)
  {
    UnravelIndexFirst();
    assert Descend(Start, At(0), [IdxSeg(0), KeySeg("a")], 0) == Err(AttributeError);
  }

  /** A last index segment that lands in a dict stores an int key, which a
      string-keyed value cannot hold. */
  lemma IndexLeafInDictUnrepresentable()
    ensures Inflate([("(0)", Int(1))], Dot, Parens) == Err(UnrepresentableKey)
  {
    var flat := [("(0)", Int(1))];
    UnravelIndexFirst();
    assert Unravel(flat[0].0, Dot, Parens) == [IdxSeg(0)] && flat[0].1 == Int(1);
    StoreIntKey();
    InsertOne(Start, flat, IntKeyAtRoot);
  }

  lemma StoreIntKey()
    ensures Walk(Start, At(0), [IdxSeg(0)], 0, Int(1)) == Ok(IntKeyAtRoot)
  {
    assert Intern(Start.heap, Int(1)) == (Start.heap, Scalar(Int(1)));
    assert SetKey([], IntKey(0), Scalar(Int(1))) == [(IntKey(0), Scalar(Int(1)))];
    assert Start.heap[0 := DictObj([(IntKey(0), Scalar(Int(1)))])] == IntKeyAtRoot.heap;
  }

  /** A single pair inserted. */
  lemma InsertOne(a: Arena, flat: seq<(string, Value)>, a1: Arena)
    requires Valid(a) && Valid(a1) && |flat| == 1
    requires Walk(a, At(0), Unravel(flat[0].0, Dot, Parens), 0, flat[0].1) == Ok(a1)
    ensures InsertFrom(a, flat, 0, Dot, Parens) == Ok(a1)
  {
    assert InsertFrom(a1, flat, 1, Dot, Parens) == Ok(a1);
  }

  lemma StoreScalar()
    ensures Walk(Start, At(0), [KeySeg("a")], 0, Int(1)) == Ok(ScalarAtA)
  {
    assert Intern(Start.heap, Int(1)) == (Start.heap, Scalar(Int(1)));
    assert SetKey([], StrKey("a"), Scalar(Int(1))) == [(StrKey("a"), Scalar(Int(1)))];
    assert Start.heap[0 := DictObj([(StrKey("a"), Scalar(Int(1)))])] == ScalarAtA.heap;
  }

  lemma BelowScalar()
    ensures Walk(ScalarAtA, At(0), [KeySeg("a"), KeySeg("b")], 0, Int(2)) == Ok(ScalarAtA)
  {
    assert FindKey(ScalarAtA.heap[0].entries, StrKey("a")) == Some(0);
    assert Descend(ScalarAtA, At(0), [KeySeg("a"), KeySeg("b")], 0) == Ok((ScalarAtA, OnScalar(Int(1))));
  }

  /** A path that continues below a scalar stores nothing: the last step
      only assigns into a dict or a list. */
  lemma PathBelowScalarIgnored()
    ensures Inflate([("a", Int(1)), ("a.b", Int(2))], Dot, Parens) == Ok(Map([("a", Int(1))]))
  {
    var flat := [("a", Int(1)), ("a.b", Int(2))];
    UnravelKeys();
    StoreScalar();
    BelowScalar();
    assert InsertFrom(ScalarAtA, flat, 2, Dot, Parens) == Ok(ScalarAtA);
    assert InsertFrom(ScalarAtA, flat, 1, Dot, Parens) == Ok(ScalarAtA);
    assert InsertFrom(Start, flat, 0, Dot, Parens) == Ok(ScalarAtA);
    assert WellFormed(ScalarAtA.heap);
    EntriesDenote(ScalarAtA.heap, 0, 0, [("a", Int(1))]);
  }
}
