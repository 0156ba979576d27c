/**
 * unparse_ini and parse_ini: a nested dict is flattened, each flat key is
 * cut at its last separator into a section and an option, and the value is
 * stored as its str(); reading back joins section and option with the
 * separator and inflates the result.
 *
 * The ConfigParser between the two is taken as the identity: unparse_ini is
 * modelled up to the dict it hands to read_dict, parse_ini from the dict of
 * sections it reads back.
 */
module Ini {
  import opened Values
  import opened Text
  import opened Paths
  import opened Flatten
  import opened FlattenProperties
  import opened InflateArena

  /** One section: option names to value strings, in insertion order. */
  type Section = seq<(string, string)>

  /** The sections, in insertion order. */
  type IniDoc = seq<(string, Section)>

  /** str(v) for a scalar: None, True, False, the decimal text of an int,
      the repr of a float and the string itself. */
  function PyStr(v: Value): (s: string)
    requires !v.IsContainer()
    ensures v.Str? ==> s == v.s
    ensures v.Int? && v.i >= 0 ==> (forall j :: 0 <= j < |s| ==> IsDigit(s[j])) && DigitsValue(s) == v.i
    ensures v.Int? && v.i < 0 ==>
      |s| >= 2 && s[0] == '-' && (forall j :: 1 <= j < |s| ==> IsDigit(s[j])) && DigitsValue(s[1..]) == -v.i
  {
    match v
    case Null => "None"
    case Bool(b) => if b then "True" else "False"
    case Int(i) =>
      DigitsValueOfNatToString(if i < 0 then -i else i);
      if i < 0 then
        assert ("-" + NatToString(-i))[1..] == NatToString(-i);
        "-" + NatToString(-i)
      else NatToString(i)
    case Float(r) => r
    case Str(t) => t
  }

  // ---------------------------------------------------------------------------
  // Sections and options
  // ---------------------------------------------------------------------------

  /** The section of a flat key: its pieces but the last, joined by the
      separator; the separator itself when that is empty. */
  function SectionOf(k: string, sep: Separator): (sect: string)
    ensures sect != []
  {
    var parts := Split(k, sep);
    var s := Join(sep, parts[..|parts| - 1]);
    if s == [] then sep else s
  }

  /** The option of a flat key: its last piece. */
  function OptionOf(k: string, sep: Separator): string {
    var parts := Split(k, sep);
    parts[|parts| - 1]
  }

  /** The flat key parse_ini builds from a section and an option. */
  function IniKey(sect: string, opt: string, sep: Separator): string {
    sect + sep + opt
  }

  /** The flat key parse_ini evidently means to build: an option of the
      separator section is a top-level key. */
  function IniKeyFixed(sect: string, opt: string, sep: Separator): string {
    if sect == sep then opt else sect + sep + opt
  }

  /** A key with at least one separator is cut into a section that is
      neither empty nor the separator, and rejoining gives it back. */
  lemma SectionOptionJoin(k: string, sep: Separator)
    requires !StartsWith(k, sep) && |Split(k, sep)| >= 2
    ensures SectionOf(k, sep) != sep
    ensures SectionOf(k, sep) + sep + OptionOf(k, sep) == k
  {
    var parts := Split(k, sep);
    var n := |parts|;
    var init := parts[..n - 1];
    var s := Join(sep, init);
    SplitHead(k, sep);
    JoinSplit(k, sep);
    JoinSnoc(parts, sep);
    if n == 2 {
      assert s == parts[0];
    } else {
      assert s == parts[0] + sep + Join(sep, init[1..]);
    }
    assert s != [] && s != sep;
  }

  /** parse_ini gives back a flat key that does not start with the separator
      exactly when the key holds a separator: a top-level key comes back
      with two separators in front. */
  lemma RebuildAsWritten(k: string, sep: Separator)
    requires !StartsWith(k, sep)
    ensures IniKey(SectionOf(k, sep), OptionOf(k, sep), sep) == k <==> |Split(k, sep)| >= 2
    ensures |Split(k, sep)| == 1 ==> IniKey(SectionOf(k, sep), OptionOf(k, sep), sep) == sep + sep + k
  {
    var parts := Split(k, sep);
    if |parts| >= 2 {
      SectionOptionJoin(k, sep);
    } else {
      JoinSplit(k, sep);
      assert parts[..0] == [];
    }
  }

  /** The corrected rebuild gives back every flat key that does not start
      with the separator. */
  lemma RebuildFixed(k: string, sep: Separator)
    requires !StartsWith(k, sep)
    ensures IniKeyFixed(SectionOf(k, sep), OptionOf(k, sep), sep) == k
  {
    var parts := Split(k, sep);
    if |parts| >= 2 {
      SectionOptionJoin(k, sep);
    } else {
      JoinSplit(k, sep);
      assert parts[..0] == [];
    }
  }

  /** No two such keys share a section and an option. */
  lemma SectionOptionInjective(k1: string, k2: string, sep: Separator)
    requires !StartsWith(k1, sep) && !StartsWith(k2, sep)
    requires SectionOf(k1, sep) == SectionOf(k2, sep) && OptionOf(k1, sep) == OptionOf(k2, sep)
    ensures k1 == k2
  {
    RebuildFixed(k1, sep);
    RebuildFixed(k2, sep);
  }

  // ---------------------------------------------------------------------------
  // Grouping flat pairs into sections
  // ---------------------------------------------------------------------------

  /** ini_dict[sect][opt] = text on a defaultdict(dict). */
  function GroupInto(doc: IniDoc, sect: string, opt: string, text: string): IniDoc {
    var existing := if HasKey(doc, sect) then Get(doc, sect) else [];
    Put(doc, sect, Put(existing, opt, text))
  }

  /** unparse_ini's loop over the flat pairs, from doc on. */
  function GroupAll(doc: IniDoc, flat: seq<(string, Value)>, sep: Separator): IniDoc
    requires forall t :: 0 <= t < |flat| ==> !flat[t].1.IsContainer()
    decreases |flat|
  {
    if flat == [] then doc
    else GroupAll(GroupInto(doc, SectionOf(flat[0].0, sep), OptionOf(flat[0].0, sep), PyStr(flat[0].1)), flat[1..], sep)
  }

  /** ini_dict[sect][opt] is text. */
  ghost predicate Holds(doc: IniDoc, sect: string, opt: string, text: string) {
    HasKey(doc, sect) && HasKey(Get(doc, sect), opt) && Get(Get(doc, sect), opt) == text
  }

  /** Section s, option o and text x are where unparse_ini writes the pair. */
  ghost predicate FromPair(pair: (string, Value), sep: Separator, s: string, o: string, x: string) {
    !pair.1.IsContainer() && s == SectionOf(pair.0, sep) && o == OptionOf(pair.0, sep) && x == PyStr(pair.1)
  }

  lemma GroupIntoHolds(doc: IniDoc, sect: string, opt: string, text: string)
    ensures Holds(GroupInto(doc, sect, opt, text), sect, opt, text)
    ensures forall s, o, x :: (s != sect || o != opt) && Holds(doc, s, o, x) ==> Holds(GroupInto(doc, sect, opt, text), s, o, x)
    ensures forall s, o, x :: Holds(GroupInto(doc, sect, opt, text), s, o, x) ==>
      (s == sect && o == opt && x == text) || Holds(doc, s, o, x)
  {
    var existing := if HasKey(doc, sect) then Get(doc, sect) else [];
    var inner := Put(existing, opt, text);
    GetPut(doc, sect, inner);
    GetPut(existing, opt, text);
  }

  /** Each pair is written once: when no two pairs share a section and an
      option, every pair can be read back from the grouped sections. */
  lemma {:induction false} GroupAllComplete(doc: IniDoc, flat: seq<(string, Value)>, sep: Separator)
    requires forall t :: 0 <= t < |flat| ==> !flat[t].1.IsContainer()
    requires forall t, u :: 0 <= t < u < |flat| ==>
      SectionOf(flat[t].0, sep) != SectionOf(flat[u].0, sep) || OptionOf(flat[t].0, sep) != OptionOf(flat[u].0, sep)
    ensures forall t :: 0 <= t < |flat| ==>
      Holds(GroupAll(doc, flat, sep), SectionOf(flat[t].0, sep), OptionOf(flat[t].0, sep), PyStr(flat[t].1))
    decreases |flat|
  {
    if flat != [] {
      var s, o, x := SectionOf(flat[0].0, sep), OptionOf(flat[0].0, sep), PyStr(flat[0].1);
      var doc' := GroupInto(doc, s, o, x);
      GroupIntoHolds(doc, s, o, x);
      GroupAllComplete(doc', flat[1..], sep);
      GroupAllKeeps(doc', flat[1..], sep, s, o, x);
      forall t | 1 <= t < |flat|
        ensures Holds(GroupAll(doc, flat, sep), SectionOf(flat[t].0, sep), OptionOf(flat[t].0, sep), PyStr(flat[t].1))
      {
        assert flat[t] == flat[1..][t - 1];
      }
    }
  }

  /** A section entry that no later pair writes stays as it is. */
  lemma {:induction false} GroupAllKeeps(doc: IniDoc, flat: seq<(string, Value)>, sep: Separator, s: string, o: string, x: string)
    requires forall t :: 0 <= t < |flat| ==> !flat[t].1.IsContainer()
    requires forall t :: 0 <= t < |flat| ==> SectionOf(flat[t].0, sep) != s || OptionOf(flat[t].0, sep) != o
    requires Holds(doc, s, o, x)
    ensures Holds(GroupAll(doc, flat, sep), s, o, x)
    decreases |flat|
  {
    if flat != [] {
      var doc' := GroupInto(doc, SectionOf(flat[0].0, sep), OptionOf(flat[0].0, sep), PyStr(flat[0].1));
      GroupIntoHolds(doc, SectionOf(flat[0].0, sep), OptionOf(flat[0].0, sep), PyStr(flat[0].1));
      GroupAllKeeps(doc', flat[1..], sep, s, o, x);
    }
  }

  /** Nothing else is written: every entry of the grouped sections was there
      before or comes from a pair. */
  lemma {:induction false} GroupAllSound(doc: IniDoc, flat: seq<(string, Value)>, sep: Separator, s: string, o: string, x: string)
    requires forall t :: 0 <= t < |flat| ==> !flat[t].1.IsContainer()
    requires Holds(GroupAll(doc, flat, sep), s, o, x)
    ensures Holds(doc, s, o, x) || exists t :: 0 <= t < |flat| && FromPair(flat[t], sep, s, o, x)
    decreases |flat|
  {
    if flat != [] {
      var doc' := GroupInto(doc, SectionOf(flat[0].0, sep), OptionOf(flat[0].0, sep), PyStr(flat[0].1));
      GroupIntoHolds(doc, SectionOf(flat[0].0, sep), OptionOf(flat[0].0, sep), PyStr(flat[0].1));
      GroupAllSound(doc', flat[1..], sep, s, o, x);
      if !Holds(doc', s, o, x) {
        var t :| 0 <= t < |flat[1..]| && FromPair(flat[1..][t], sep, s, o, x);
        assert flat[1..][t] == flat[t + 1];
      }
    }
  }

  /** The sections unparse_ini builds from a dict: every flat pair of the
      dict is read back as its section, option and str(), and nothing else is
      in them. */
  lemma UnparseIniSections(d: Value, sep: Separator, br: Brackets)
    ensures var flat := FlatDict(d, sep, br);
      var doc := GroupAll([], flat, sep);
      (forall t :: 0 <= t < |flat| ==>
        Holds(doc, SectionOf(flat[t].0, sep), OptionOf(flat[t].0, sep), PyStr(flat[t].1)))
      && (forall s, o, x :: Holds(doc, s, o, x) ==> exists t :: 0 <= t < |flat| && FromPair(flat[t], sep, s, o, x))
  {
    GroupedSections(FlatDict(d, sep, br), sep);
  }

  /** What flatten_dict returns: distinct keys, none starting with the
      separator, scalar values. */
  ghost predicate IsFlatDict(flat: seq<(string, Value)>, sep: Separator) {
    DistinctKeys(flat) && forall t :: 0 <= t < |flat| ==> !StartsWith(flat[t].0, sep) && !flat[t].1.IsContainer()
  }

  lemma GroupedSections(flat: seq<(string, Value)>, sep: Separator)
    requires IsFlatDict(flat, sep)
    ensures var doc := GroupAll([], flat, sep);
      (forall t :: 0 <= t < |flat| ==>
        Holds(doc, SectionOf(flat[t].0, sep), OptionOf(flat[t].0, sep), PyStr(flat[t].1)))
      && (forall s, o, x :: Holds(doc, s, o, x) ==> exists t :: 0 <= t < |flat| && FromPair(flat[t], sep, s, o, x))
  {
    forall t, u | 0 <= t < u < |flat|
      ensures SectionOf(flat[t].0, sep) != SectionOf(flat[u].0, sep) || OptionOf(flat[t].0, sep) != OptionOf(flat[u].0, sep)
    {
      if SectionOf(flat[t].0, sep) == SectionOf(flat[u].0, sep) && OptionOf(flat[t].0, sep) == OptionOf(flat[u].0, sep) {
        SectionOptionInjective(flat[t].0, flat[u].0, sep);
      }
    }
    GroupAllComplete([], flat, sep);
    forall s, o, x | Holds(GroupAll([], flat, sep), s, o, x)
      ensures exists t :: 0 <= t < |flat| && FromPair(flat[t], sep, s, o, x)
    {
      GroupAllSound([], flat, sep, s, o, x);
    }
  }

  /** The loop over the flat pairs, one pair at a time. */
  lemma GroupStep(doc: IniDoc, flat: seq<(string, Value)>, j: nat, sep: Separator)
    requires j < |flat| && forall t :: 0 <= t < |flat| ==> !flat[t].1.IsContainer()
    ensures GroupAll(doc, flat[j..], sep)
      == GroupAll(GroupInto(doc, SectionOf(flat[j].0, sep), OptionOf(flat[j].0, sep), PyStr(flat[j].1)), flat[j + 1..], sep)
  {
    assert flat[j..][1..] == flat[j + 1..];
  }

  /** unparse_ini(dictionary, path_sep, list_brackets), up to the dict handed
      to ConfigParser.read_dict. */
  method UnparseIni(d: Value, sep: Separator, br: Brackets) returns (doc: IniDoc)
    ensures doc == GroupAll([], FlatDict(d, sep, br), sep)
  {
    var flat := FlattenDict(d, sep, br);
    assert flat == FlatDict(d, sep, br);
    doc := [];
    assert flat[0..] == flat;
    var j := 0;
    while j < |flat|
      invariant 0 <= j <= |flat|
      invariant GroupAll(doc, flat[j..], sep) == GroupAll([], flat, sep)
    {
      GroupStep(doc, flat, j, sep);
      doc := GroupInto(doc, SectionOf(flat[j].0, sep), OptionOf(flat[j].0, sep), PyStr(flat[j].1));
      j := j + 1;
    }
    assert flat[j..] == [];
  }

  // ---------------------------------------------------------------------------
  // Reading the sections back
  // ---------------------------------------------------------------------------

  /** How parse_ini joins a section and an option into a flat key: as
      written, or with the separator section read as the top level. */
  datatype Rebuild = AsWritten | Corrected

  function FlatKey(rb: Rebuild, sect: string, opt: string, sep: Separator): string {
    match rb
    case AsWritten => IniKey(sect, opt, sep)
    case Corrected => IniKeyFixed(sect, opt, sep)
  }

  /** The flat pairs of one section; every value is a string. */
  function OptionPairs(rb: Rebuild, sect: string, opts: Section, sep: Separator): (r: seq<(string, Value)>)
    ensures |r| == |opts|
    ensures forall m :: 0 <= m < |opts| ==> r[m] == (FlatKey(rb, sect, opts[m].0, sep), Str(opts[m].1))
  {
    seq(|opts|, m requires 0 <= m < |opts| => (FlatKey(rb, sect, opts[m].0, sep), Str(opts[m].1)))
  }

  /** The flat pairs of all sections, section by section. */
  function IniPairs(rb: Rebuild, doc: IniDoc, sep: Separator): seq<(string, Value)>
    decreases |doc|
  {
    if doc == [] then [] else OptionPairs(rb, doc[0].0, doc[0].1, sep) + IniPairs(rb, doc[1..], sep)
  }

  /** Every option of every section gives a pair. */
  lemma {:induction false} IniPairsHas(rb: Rebuild, doc: IniDoc, sep: Separator, i: nat, m: nat)
    requires i < |doc| && m < |doc[i].1|
    ensures (FlatKey(rb, doc[i].0, doc[i].1[m].0, sep), Str(doc[i].1[m].1)) in IniPairs(rb, doc, sep)
    decreases i
  {
    if i == 0 {
      assert OptionPairs(rb, doc[0].0, doc[0].1, sep)[m] == (FlatKey(rb, doc[i].0, doc[i].1[m].0, sep), Str(doc[i].1[m].1));
    } else {
      IniPairsHas(rb, doc[1..], sep, i - 1, m);
      assert doc[1..][i - 1] == doc[i];
    }
  }

  /** Every pair comes from an option of a section. */
  lemma {:induction false} IniPairsFrom(rb: Rebuild, doc: IniDoc, sep: Separator, e: (string, Value))
    requires e in IniPairs(rb, doc, sep)
    ensures exists i, m :: 0 <= i < |doc| && 0 <= m < |doc[i].1| && e == (FlatKey(rb, doc[i].0, doc[i].1[m].0, sep), Str(doc[i].1[m].1))
    decreases |doc|
  {
    var head := OptionPairs(rb, doc[0].0, doc[0].1, sep);
    if e in head {
      var m :| 0 <= m < |head| && head[m] == e;
      assert 0 < |doc| && m < |doc[0].1|;
    } else {
      IniPairsFrom(rb, doc[1..], sep, e);
      var i, m :| 0 <= i < |doc[1..]| && 0 <= m < |doc[1..][i].1|
        && e == (FlatKey(rb, doc[1..][i].0, doc[1..][i].1[m].0, sep), Str(doc[1..][i].1[m].1));
      assert doc[1..][i] == doc[i + 1];
    }
  }

  /** Storing the options of a section one at a time: the first remaining
      option is stored, then the others. */
  lemma OptionStep(flat: seq<(string, Value)>, sect: string, opts: Section, m: nat, rest: seq<(string, Value)>, sep: Separator)
    requires m < |opts|
    ensures PutAll(flat, OptionPairs(AsWritten, sect, opts[m..], sep) + rest)
      == PutAll(Put(flat, IniKey(sect, opts[m].0, sep), Str(opts[m].1)), OptionPairs(AsWritten, sect, opts[m + 1..], sep) + rest)
  {
    var ps := OptionPairs(AsWritten, sect, opts[m..], sep) + rest;
    assert ps[0] == (IniKey(sect, opts[m].0, sep), Str(opts[m].1));
    assert ps[1..] == OptionPairs(AsWritten, sect, opts[m + 1..], sep) + rest;
  }

  /** The pairs of the sections from i on are those of section i, then those
      of the sections after it. */
  lemma SectionStep(doc: IniDoc, i: nat, sep: Separator)
    requires i < |doc|
    ensures IniPairs(AsWritten, doc[i..], sep)
      == OptionPairs(AsWritten, doc[i].0, doc[i].1[0..], sep) + IniPairs(AsWritten, doc[i + 1..], sep)
  {
    assert doc[i..][1..] == doc[i + 1..];
    assert doc[i].1[0..] == doc[i].1;
  }

  /** parse_ini(config, path_sep, list_brackets), from the dict of sections
      the ConfigParser gives back: every option of every section is stored
      under section + path_sep + option, and the flat dict is inflated. */
  method ParseIni(doc: IniDoc, sep: Separator, br: Brackets) returns (r: Result<Value>)
    requires ValidBrackets(br)
    ensures r == Inflate(PutAll([], IniPairs(AsWritten, doc, sep)), sep, br)
    ensures r.Ok? ==> r.value.Map?
  {
    var flat: seq<(string, Value)> := [];
    var i := 0;
    while i < |doc|
      invariant 0 <= i <= |doc|
      invariant PutAll(flat, IniPairs(AsWritten, doc[i..], sep)) == PutAll([], IniPairs(AsWritten, doc, sep))
    {
      var sect := doc[i].0;
      var opts := doc[i].1;
      ghost var rest := IniPairs(AsWritten, doc[i + 1..], sep);
      SectionStep(doc, i, sep);
      var m := 0;
      while m < |opts|
        invariant 0 <= m <= |opts|
        invariant PutAll(flat, OptionPairs(AsWritten, sect, opts[m..], sep) + rest) == PutAll([], IniPairs(AsWritten, doc, sep))
      {
        OptionStep(flat, sect, opts, m, rest, sep);
        flat := Put(flat, sect + sep + opts[m].0, Str(opts[m].1));
        m := m + 1;
      }
      assert OptionPairs(AsWritten, sect, opts[m..], sep) + rest == rest;
      i := i + 1;
    }
    assert doc[i..] == [];
    r := InflateDict(flat, sep, br);
  }

  /** The correction changes only the options of a section named by the
      separator. */
  lemma {:induction false} IniPairsAgree(doc: IniDoc, sep: Separator)
    requires forall i :: 0 <= i < |doc| ==> doc[i].0 != sep
    ensures IniPairs(Corrected, doc, sep) == IniPairs(AsWritten, doc, sep)
    decreases |doc|
  {
    if doc != [] {
      IniPairsAgree(doc[1..], sep);
      assert OptionPairs(Corrected, doc[0].0, doc[0].1, sep) == OptionPairs(AsWritten, doc[0].0, doc[0].1, sep);
    }
  }

  /** parse_ini with the corrected rebuild of the flat key: a dict, and the
      same result as parse_ini whenever no section is named by the
      separator. */
  function ParseIniFixed(doc: IniDoc, sep: Separator, br: Brackets): (r: Result<Value>)
    requires ValidBrackets(br)
    ensures r.Ok? ==> r.value.Map?
    ensures (forall i :: 0 <= i < |doc| ==> doc[i].0 != sep) ==> r == Inflate(PutAll([], IniPairs(AsWritten, doc, sep)), sep, br)
  {
    if forall i :: 0 <= i < |doc| ==> doc[i].0 != sep then
      IniPairsAgree(doc, sep);
      Inflate(PutAll([], IniPairs(Corrected, doc, sep)), sep, br)
    else
      Inflate(PutAll([], IniPairs(Corrected, doc, sep)), sep, br)
  }

  // ---------------------------------------------------------------------------
  // The round trip of the flat dict
  // ---------------------------------------------------------------------------

  /** Section names are distinct, and so are the option names of each
      section, as in a dict of dicts. */
  predicate DocDistinct(doc: IniDoc) {
    DistinctKeys(doc) && forall i :: 0 <= i < |doc| ==> DistinctKeys(doc[i].1)
  }

  lemma GroupIntoDistinct(doc: IniDoc, sect: string, opt: string, text: string)
    requires DocDistinct(doc)
    ensures DocDistinct(GroupInto(doc, sect, opt, text))
  {
    var existing := if HasKey(doc, sect) then Get(doc, sect) else [];
    PutKeepsDistinct(existing, opt, text);
    PutKeepsDistinct(doc, sect, Put(existing, opt, text));
  }

  lemma {:induction false} GroupAllDistinct(doc: IniDoc, flat: seq<(string, Value)>, sep: Separator)
    requires forall t :: 0 <= t < |flat| ==> !flat[t].1.IsContainer()
    requires DocDistinct(doc)
    ensures DocDistinct(GroupAll(doc, flat, sep))
    decreases |flat|
  {
    if flat != [] {
      GroupIntoDistinct(doc, SectionOf(flat[0].0, sep), OptionOf(flat[0].0, sep), PyStr(flat[0].1));
      GroupAllDistinct(GroupInto(doc, SectionOf(flat[0].0, sep), OptionOf(flat[0].0, sep), PyStr(flat[0].1)), flat[1..], sep);
    }
  }

  /** In a dict of dicts, an option stored at a position is what a lookup
      finds. */
  lemma HoldsAt(doc: IniDoc, i: nat, m: nat)
    requires DocDistinct(doc) && i < |doc| && m < |doc[i].1|
    ensures Holds(doc, doc[i].0, doc[i].1[m].0, doc[i].1[m].1)
  {
    assert IndexOf(doc, doc[i].0) == i;
    assert IndexOf(doc[i].1, doc[i].1[m].0) == m;
  }

  /** Every pair the corrected rebuild reads back is a flat pair with its
      value as a string. */
  lemma RebuiltFrom(flat: seq<(string, Value)>, sep: Separator, e: (string, Value))
    requires IsFlatDict(flat, sep)
    requires e in IniPairs(Corrected, GroupAll([], flat, sep), sep)
    ensures exists t :: 0 <= t < |flat| && e == (flat[t].0, Str(PyStr(flat[t].1)))
  {
    var doc := GroupAll([], flat, sep);
    GroupedSections(flat, sep);
    GroupAllDistinct([], flat, sep);
    IniPairsFrom(Corrected, doc, sep, e);
    var i, m :| 0 <= i < |doc| && 0 <= m < |doc[i].1|
      && e == (FlatKey(Corrected, doc[i].0, doc[i].1[m].0, sep), Str(doc[i].1[m].1));
    HoldsAt(doc, i, m);
    var t :| 0 <= t < |flat| && FromPair(flat[t], sep, doc[i].0, doc[i].1[m].0, doc[i].1[m].1);
    RebuildFixed(flat[t].0, sep);
  }

  /** Every flat pair is read back by the corrected rebuild. */
  lemma RebuiltHas(flat: seq<(string, Value)>, sep: Separator, t: nat)
    requires IsFlatDict(flat, sep) && t < |flat|
    ensures (flat[t].0, Str(PyStr(flat[t].1))) in IniPairs(Corrected, GroupAll([], flat, sep), sep)
  {
    var doc := GroupAll([], flat, sep);
    GroupedSections(flat, sep);
    var s, o := SectionOf(flat[t].0, sep), OptionOf(flat[t].0, sep);
    assert Holds(doc, s, o, PyStr(flat[t].1));
    var i := IndexOf(doc, s);
    var m := IndexOf(doc[i].1, o);
    IniPairsHas(Corrected, doc, sep, i, m);
    RebuildFixed(flat[t].0, sep);
  }

  /** With the corrected rebuild, reading back the sections of a flat dict
      gives the flat dict with every value as its str(), and no other key. */
  lemma RoundTripFlat(flat: seq<(string, Value)>, sep: Separator)
    requires IsFlatDict(flat, sep)
    ensures var back := PutAll([], IniPairs(Corrected, GroupAll([], flat, sep), sep));
      (forall t :: 0 <= t < |flat| ==> HasKey(back, flat[t].0) && Get(back, flat[t].0) == Str(PyStr(flat[t].1)))
      && (forall k :: HasKey(back, k) ==> HasKey(flat, k))
  {
    var pairs := IniPairs(Corrected, GroupAll([], flat, sep), sep);
    var back := PutAll([], pairs);
    forall t | 0 <= t < |flat| ensures HasKey(back, flat[t].0) && Get(back, flat[t].0) == Str(PyStr(flat[t].1)) {
      RebuiltHas(flat, sep, t);
      forall e | e in pairs && e.0 == flat[t].0 ensures e.1 == Str(PyStr(flat[t].1)) {
        RebuiltFrom(flat, sep, e);
        var u :| 0 <= u < |flat| && e == (flat[u].0, Str(PyStr(flat[u].1)));
        assert flat[u].0 == flat[t].0;
      }
      PutAllGet([], pairs, flat[t].0, Str(PyStr(flat[t].1)));
    }
    forall k | HasKey(back, k) ensures HasKey(flat, k) {
      PutAllFrom([], pairs);
      var j :| 0 <= j < |back| && back[j].0 == k;
      assert back[j] in back;
      RebuiltFrom(flat, sep, back[j]);
    }
  }

  /** With the corrected rebuild, parse_ini after unparse_ini reads back the
      flat dict of the input with every value as its str(), and no other
      key. */
  lemma RoundTripFixed(d: Value, sep: Separator, br: Brackets)
    ensures var flat := FlatDict(d, sep, br);
      var back := PutAll([], IniPairs(Corrected, GroupAll([], flat, sep), sep));
      (forall t :: 0 <= t < |flat| ==> HasKey(back, flat[t].0) && Get(back, flat[t].0) == Str(PyStr(flat[t].1)))
      && (forall k :: HasKey(back, k) ==> HasKey(flat, k))
  {
    RoundTripFlat(FlatDict(d, sep, br), sep);
  }
}
