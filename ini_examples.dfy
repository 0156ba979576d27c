/**
 * A top-level key through unparse_ini and parse_ini: {"x": 1} is written as
 * option "x" of the section ".", and parse_ini reads it back as the flat key
 * "..x", which inflates to {"": {"x": "1"}}. With the corrected rebuild it
 * comes back as {"x": "1"}.
 */
module IniCases {
  import opened Values
  import opened Text
  import opened Paths
  import opened Flatten
  import opened FlattenProperties
  import opened InflateArena
  import opened InflateProperties
  import opened InflateExamples
  import opened Ini

  const Dot: Separator := "."
  const Parens := Brackets('(', ')')
  const TopLevel := Map([("x", Int(1))])

  /** The arena after storing "..x": main_d[""] is a new dict holding "x". */
  const NestedUnderEmpty := Arena([DictObj([(StrKey(""), Ref(1))]), DictObj([(StrKey("x"), Scalar(Str("1")))])], map[])

  lemma FlatTopLevel()
    ensures FlatDict(TopLevel, Dot, Parens) == [("x", Int(1))]
  {
    FlatPairsTopLevel();
    var fp: seq<(string, Value)> := [("x", Int(1))];
    assert Put([], "x", Int(1)) == fp;
    assert PutAll([], fp) == PutAll(fp, []);
  }

  lemma FlatPairsTopLevel()
    ensures FlatPairs(TopLevel, Dot, Parens) == [("x", Int(1))]
  {
    var d := Map([("x", Int(1))]);
    assert EntryLeaves(d, 1) == [];
    assert Leaves(d) == [([KeySeg("x")], Int(1))];
    assert PathText([KeySeg("x")], Dot, Parens) == ".x";
    assert LStripChars(".x", Dot) == "x" by {
      assert ".x"[1..] == "x";
    }
  }

  lemma SectionOfTopLevel()
    ensures SectionOf("x", Dot) == "." && OptionOf("x", Dot) == "x"
  {
    FindNoOccurrence("x", Dot);
    assert Split("x", Dot) == ["x"];
    assert Split("x", Dot)[..0] == [];
  }

  lemma GroupTopLevel()
    ensures GroupAll([], [("x", Int(1))], Dot) == [(".", [("x", "1")])]
  {
    SectionOfTopLevel();
    assert PyStr(Int(1)) == "1";
    var none: IniDoc := [];
    var opts: Section := [("x", "1")];
    assert !HasKey(none, ".");
    assert Put([], "x", "1") == opts;
    assert Put(none, ".", opts) == [(".", opts)];
    assert GroupInto(none, ".", "x", "1") == [(".", opts)];
    assert [("x", Int(1))][1..] == [];
  }

  lemma ReadBackTopLevel()
    ensures IniPairs(AsWritten, [(".", [("x", "1")])], Dot) == [("..x", Str("1"))]
    ensures IniPairs(Corrected, [(".", [("x", "1")])], Dot) == [("x", Str("1"))]
  {
    var doc := [(".", [("x", "1")])];
    assert doc[1..] == [];
    assert IniKey(".", "x", Dot) == "..x";
    assert IniKeyFixed(".", "x", Dot) == "x";
    assert OptionPairs(AsWritten, ".", [("x", "1")], Dot) == [("..x", Str("1"))];
    assert OptionPairs(Corrected, ".", [("x", "1")], Dot) == [("x", Str("1"))];
  }

  lemma UnravelDoubleSeparator()
    ensures Unravel("..x", Dot, Parens) == [KeySeg(""), KeySeg("x")]
  {
    assert StartsWith("..x", Dot);
    assert "..x"[1..] == ".x";
    SplitJoin(["", "x"], Dot);
    assert Join(Dot, ["", "x"]) == ".x";
  }

  lemma WalkDoubleSeparator()
    ensures Walk(Start, At(0), [KeySeg(""), KeySeg("x")], 0, Str("1")) == Ok(NestedUnderEmpty)
  {
    var mid := Arena([DictObj([(StrKey(""), Ref(1))]), DictObj([])], map[]);
    assert |Start.heap| == 1;
    assert FindKey(Start.heap[0].entries, StrKey("")) == None;
    assert Fresh(KeySeg("x")) == DictObj([]);
    assert Start.heap[0].entries + [(StrKey(""), Ref(1))] == [(StrKey(""), Ref(1))];
    assert Start.heap[0 := DictObj([(StrKey(""), Ref(1))])] + [DictObj([])] == mid.heap;
    assert Descend(Start, At(0), [KeySeg(""), KeySeg("x")], 0) == Ok((mid, At(1)));
    assert Intern(mid.heap, Str("1")) == (mid.heap, Scalar(Str("1")));
    assert SetKey([], StrKey("x"), Scalar(Str("1"))) == [(StrKey("x"), Scalar(Str("1")))];
    assert mid.heap[1 := DictObj([(StrKey("x"), Scalar(Str("1")))])] == NestedUnderEmpty.heap;
  }

  lemma ReadNestedUnderEmpty()
    ensures Materialize(NestedUnderEmpty.heap, 0) == Ok(Map([("", Map([("x", Str("1"))]))]))
  {
    var h := NestedUnderEmpty.heap;
    assert WellFormed(h) by {
      assert Slots(h[0]) == [Ref(1)];
      assert Slots(h[1]) == [Scalar(Str("1"))];
    }
    EntriesDenote(h, 1, 0, [("x", Str("1"))]);
    EntriesDenote(h, 0, 0, [("", Map([("x", Str("1"))]))]);
  }

  /** As written, {"x": 1} comes back from parse_ini(unparse_ini(...)) as
      {"": {"x": "1"}}. */
  lemma TopLevelKeyNested()
    ensures Inflate(PutAll([], IniPairs(AsWritten, GroupAll([], FlatDict(TopLevel, Dot, Parens), Dot), Dot)), Dot, Parens)
      == Ok(Map([("", Map([("x", Str("1"))]))]))
  {
    FlatTopLevel();
    GroupTopLevel();
    ReadBackTopLevel();
    var flat: seq<(string, Value)> := [("..x", Str("1"))];
    assert Put([], "..x", Str("1")) == flat;
    assert PutAll([], flat) == PutAll(flat, []);
    InflateDoubleSeparator();
  }

  lemma InflateDoubleSeparator()
    ensures Inflate([("..x", Str("1"))], Dot, Parens) == Ok(Map([("", Map([("x", Str("1"))]))]))
  {
    var flat := [("..x", Str("1"))];
    UnravelDoubleSeparator();
    WalkDoubleSeparator();
    assert InsertFrom(NestedUnderEmpty, flat, 1, Dot, Parens) == Ok(NestedUnderEmpty);
    assert InsertFrom(Start, flat, 0, Dot, Parens) == Ok(NestedUnderEmpty);
    ReadNestedUnderEmpty();
  }

  /** With the corrected rebuild, {"x": 1} comes back as {"x": "1"}. */
  lemma TopLevelKeyFixed()
    ensures ParseIniFixed(GroupAll([], FlatDict(TopLevel, Dot, Parens), Dot), Dot, Parens) == Ok(Map([("x", Str("1"))]))
  {
    FlatTopLevel();
    GroupTopLevel();
    ReadBackTopLevel();
    var flat: seq<(string, Value)> := [("x", Str("1"))];
    assert Put([], "x", Str("1")) == flat;
    assert PutAll([], flat) == PutAll(flat, []);
    InflatePlainX();
  }

  lemma InflatePlainX()
    ensures Inflate([("x", Str("1"))], Dot, Parens) == Ok(Map([("x", Str("1"))]))
  {
    assert PlainKey("x", Dot, Parens) by {
      assert forall n :: !IndexMatch("x", Parens, n);
    }
    InflateShallow([("x", Str("1"))], Dot, Parens);
  }
}
