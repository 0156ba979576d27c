/**
 * What the native validator decides, stated per property and per element:
 * an object node checks its properties in declaration order and stops at the
 * first one that fails or raises; an array node checks its bounds and then
 * its elements in order in the same way. The per-property and per-element
 * verdicts are defined here on their own, and the lemmas connect them with
 * the loops of SchemaValidation.
 */
module ValidationProperties {
  import opened Values
  import opened Text
  import opened NativeTypes
  import opened SchemaNodes
  import opened SchemaValidation

  datatype Verdict = Pass | Fail

  /** The outcome of a sequence of checks run in order with early exit:
      True when every check passes, otherwise the first failure or error. */
  function FirstFailure(vs: seq<Result<Verdict>>): Result<bool>
    decreases |vs|
  {
    if vs == [] then Ok(true)
    else match vs[0]
      case Err(e) => Err(e)
      case Ok(Fail) => Ok(false)
      case Ok(Pass) => FirstFailure(vs[1..])
  }

  predicate PassesBefore(vs: seq<Result<Verdict>>, i: int)
    requires 0 <= i <= |vs|
  {
    forall j :: 0 <= j < i ==> vs[j] == Ok(Pass)
  }

  /** All checks before i + 1 pass iff the first passes and all the others
      before i + 1 do. */
  lemma PassesBeforeTail(vs: seq<Result<Verdict>>, i: nat)
    requires i < |vs|
    ensures PassesBefore(vs, i + 1) <==> vs[0] == Ok(Pass) && PassesBefore(vs[1..], i)
  {
    if vs[0] == Ok(Pass) && PassesBefore(vs[1..], i) {
      forall j | 0 < j < i + 1 ensures vs[j] == Ok(Pass) {
        assert vs[j] == vs[1..][j - 1];
      }
    }
    if PassesBefore(vs, i + 1) {
      forall j | 0 <= j < i ensures vs[1..][j] == Ok(Pass) {
        assert vs[1..][j] == vs[j + 1];
      }
    }
  }

  /** An early-exit run passes iff every check passes. */
  lemma {:induction false} FirstFailurePasses(vs: seq<Result<Verdict>>)
    ensures FirstFailure(vs) == Ok(true) <==> PassesBefore(vs, |vs|)
    decreases |vs|
  {
    if vs != [] {
      FirstFailurePasses(vs[1..]);
      PassesBeforeTail(vs, |vs| - 1);
    }
  }

  /** An early-exit run stops with the outcome of r iff some check gives r
      after only passes. */
  lemma {:induction false} FirstFailureStops(vs: seq<Result<Verdict>>, r: Result<Verdict>)
    requires r != Ok(Pass)
    ensures FirstFailure(vs) == AfterFirst(r, Ok(true)) <==>
      exists i :: 0 <= i < |vs| && vs[i] == r && PassesBefore(vs, i)
    decreases |vs|
  {
    if vs != [] {
      var t := vs[1..];
      FirstFailureStops(t, r);
      if vs[0] == r {
        assert PassesBefore(vs, 0);
      } else if vs[0] != Ok(Pass) {
        forall i | 0 < i < |vs| ensures !PassesBefore(vs, i) {
          assert vs[0] != Ok(Pass);
        }
      } else {
        if exists i :: 0 <= i < |t| && t[i] == r && PassesBefore(t, i) {
          var i :| 0 <= i < |t| && t[i] == r && PassesBefore(t, i);
          PassesBeforeTail(vs, i);
          assert vs[i + 1] == t[i];
        }
        if exists i :: 0 <= i < |vs| && vs[i] == r && PassesBefore(vs, i) {
          var i :| 0 <= i < |vs| && vs[i] == r && PassesBefore(vs, i);
          PassesBeforeTail(vs, i - 1);
          assert t[i - 1] == vs[i];
        }
      }
    }
  }

  /** An early-exit run passes iff every check passes, fails iff some check
      fails after only passes, and raises iff some check raises after only
      passes. */
  lemma {:induction false} FirstFailureSpec(vs: seq<Result<Verdict>>)
    ensures FirstFailure(vs) == Ok(true) <==> PassesBefore(vs, |vs|)
    ensures FirstFailure(vs) == Ok(false) <==>
      exists i :: 0 <= i < |vs| && vs[i] == Ok(Fail) && PassesBefore(vs, i)
    ensures forall e :: FirstFailure(vs) == Err(e) <==>
      exists i :: 0 <= i < |vs| && vs[i] == Err(e) && PassesBefore(vs, i)
  {
    FirstFailurePasses(vs);
    FirstFailureStops(vs, Ok(Fail));
    forall e ensures FirstFailure(vs) == Err(e) <==>
      exists i :: 0 <= i < |vs| && vs[i] == Err(e) && PassesBefore(vs, i)
    {
      FirstFailureStops(vs, Err(e));
    }
  }

  // ---------------------------------------------------------------------------
  // Object nodes
  // ---------------------------------------------------------------------------

  /** The decision for one declared property (k, v) of an object node:
      absent and required fails; absent and not required passes with no
      further check; present runs the type check with the property's
      nullable flag (False when missing) and then, for a raw type "object"
      or "array", validates the value against v. Reading the keys of a
      value that is not a dict raises AttributeError. */
  function PropertyVerdict(obj: Value, k: string, v: SchemaNode, formats: FormatOracle): Result<Verdict> {
    if !obj.Map? then Err(AttributeError)
    else if !HasKey(obj.entries, k) then Ok(if v.required.GetOr(false) then Fail else Pass)
    else
      var x := Get(obj.entries, k);
      var passed :- CheckType(x, v, v.nullable.GetOr(false), formats);
      if !passed then Ok(Fail)
      else if v.tag.value == "object" || v.tag.value == "array" then
        var sub :- Validate(x, v, formats);
        Ok(if sub == Some(true) then Pass else Fail)
      else Ok(Pass)
  }

  function PropertyVerdicts(obj: Value, ps: seq<(string, SchemaNode)>, formats: FormatOracle): (vs: seq<Result<Verdict>>)
    ensures |vs| == |ps|
  {
    seq(|ps|, i requires 0 <= i < |ps| => PropertyVerdict(obj, ps[i].0, ps[i].1, formats))
  }

  /** The result of a run whose first check gave r. */
  function AfterFirst(r: Result<Verdict>, rest: Result<bool>): Result<bool> {
    match r
    case Err(e) => Err(e)
    case Ok(Fail) => Ok(false)
    case Ok(Pass) => rest
  }

  /** One pass of the property loop decides property i as its verdict says. */
  lemma CheckPropsStep(obj: Value, s: SchemaNode, i: nat, formats: FormatOracle)
    requires s.properties.Props? && i < |s.properties.entries|
    ensures CheckProps(obj, s, i, formats)
         == AfterFirst(PropertyVerdict(obj, s.properties.entries[i].0, s.properties.entries[i].1, formats),
                       CheckProps(obj, s, i + 1, formats))
  {
    var k := s.properties.entries[i].0;
    var v := s.properties.entries[i].1;
    if obj.Map? && HasKey(obj.entries, k) {
      var x := Get(obj.entries, k);
      var c := CheckType(x, v, v.nullable.GetOr(false), formats);
      if c.Ok? && c.value && (v.tag.value == "object" || v.tag.value == "array") {
        var sub := Validate(x, v, formats);
        assert sub.Ok? ==> PropertyVerdict(obj, k, v, formats) == Ok(if sub.value == Some(true) then Pass else Fail);
      }
    }
  }

  lemma {:induction false} CheckPropsIsFirstFailure(obj: Value, s: SchemaNode, i: nat, formats: FormatOracle)
    requires s.properties.Props? && i <= |s.properties.entries|
    ensures CheckProps(obj, s, i, formats) == FirstFailure(PropertyVerdicts(obj, s.properties.entries, formats)[i..])
    decreases |s.properties.entries| - i
  {
    var ps := s.properties.entries;
    var vs := PropertyVerdicts(obj, ps, formats);
    if i < |ps| {
      CheckPropsIsFirstFailure(obj, s, i + 1, formats);
      CheckPropsStep(obj, s, i, formats);
      assert vs[i..][1..] == vs[i + 1..];
      assert vs[i..][0] == PropertyVerdict(obj, ps[i].0, ps[i].1, formats);
    }
  }

  /** An object node with properties passes iff every property passes,
      fails iff some property fails after only passing ones, and raises the
      error of the first property that raises after only passing ones. */
  lemma ObjectNode(obj: Value, s: SchemaNode, formats: FormatOracle)
    requires s.tag == Some("object") && s.properties.Props?
    ensures var vs := PropertyVerdicts(obj, s.properties.entries, formats);
      && (Validate(obj, s, formats) == Ok(Some(true)) <==> PassesBefore(vs, |vs|))
      && (Validate(obj, s, formats) == Ok(Some(false)) <==>
            exists i :: 0 <= i < |vs| && vs[i] == Ok(Fail) && PassesBefore(vs, i))
      && (forall e :: Validate(obj, s, formats) == Err(e) <==>
            exists i :: 0 <= i < |vs| && vs[i] == Err(e) && PassesBefore(vs, i))
  {
    var vs := PropertyVerdicts(obj, s.properties.entries, formats);
    CheckPropsIsFirstFailure(obj, s, 0, formats);
    assert vs[0..] == vs;
    FirstFailureSpec(vs);
  }

  // ---------------------------------------------------------------------------
  // Array nodes
  // ---------------------------------------------------------------------------

  /** The length bounds of an array node, each skipped when it is -1 or
      missing (any value not above -1 counts as unset). */
  predicate WithinBounds(s: SchemaNode, n: nat) {
    var length := s.length.GetOr(-1);
    var min := s.min.GetOr(-1);
    var max := s.max.GetOr(-1);
    (length <= -1 || n == length) && (min <= -1 || n >= min) && (max <= -1 || n <= max)
  }

  /** The decision for one element against the item schema: the element's
      JSON kind must equal the item's raw type unless that is "any"; the
      item's nullable flag plays no part; object and array items recurse. */
  function ElementVerdict(o: Value, item: SchemaNode, formats: FormatOracle): Result<Verdict> {
    if item.tag.None? then Err(KeyError)
    else if item.tag.value != "any" && KindName(o) != item.tag.value then Ok(Fail)
    else if item.tag.value == "object" || item.tag.value == "array" then
      var sub :- Validate(o, item, formats);
      Ok(if sub == Some(true) then Pass else Fail)
    else Ok(Pass)
  }

  function ElementVerdicts(xs: seq<Value>, item: SchemaNode, formats: FormatOracle): (vs: seq<Result<Verdict>>)
    ensures |vs| == |xs|
  {
    seq(|xs|, i requires 0 <= i < |xs| => ElementVerdict(xs[i], item, formats))
  }

  lemma {:induction false} CheckElemsIsFirstFailure(xs: seq<Value>, s: SchemaNode, i: nat, formats: FormatOracle)
    requires s.items.Items? && |s.items.elems| > 0 && i <= |xs|
    ensures CheckElems(List(xs), s, i, |xs|, formats)
         == FirstFailure(ElementVerdicts(xs, s.items.elems[0], formats)[i..])
    decreases |xs| - i
  {
    var vs := ElementVerdicts(xs, s.items.elems[0], formats);
    if i < |xs| {
      CheckElemsIsFirstFailure(xs, s, i + 1, formats);
      assert vs[i..][1..] == vs[i + 1..];
      assert vs[i..][0] == ElementVerdict(xs[i], s.items.elems[0], formats);
    }
  }

  /** An array node given a list: a list outside the bounds fails; within
      them, a node without items (or with an empty items list) passes, and
      otherwise the elements are checked in order against items[0] with
      early exit. */
  lemma ArrayNode(xs: seq<Value>, s: SchemaNode, formats: FormatOracle)
    requires s.tag == Some("array")
    ensures !WithinBounds(s, |xs|) ==> Validate(List(xs), s, formats) == Ok(Some(false))
    ensures WithinBounds(s, |xs|) && (s.items.NoItems? || s.items.elems == []) ==>
      Validate(List(xs), s, formats) == Ok(Some(true))
    ensures WithinBounds(s, |xs|) && s.items.Items? && s.items.elems != [] ==>
      var vs := ElementVerdicts(xs, s.items.elems[0], formats);
      && (Validate(List(xs), s, formats) == Ok(Some(true)) <==> PassesBefore(vs, |vs|))
      && (Validate(List(xs), s, formats) == Ok(Some(false)) <==>
            exists i :: 0 <= i < |vs| && vs[i] == Ok(Fail) && PassesBefore(vs, i))
      && (forall e :: Validate(List(xs), s, formats) == Err(e) <==>
            exists i :: 0 <= i < |vs| && vs[i] == Err(e) && PassesBefore(vs, i))
  {
    if WithinBounds(s, |xs|) && s.items.Items? && s.items.elems != [] {
      var vs := ElementVerdicts(xs, s.items.elems[0], formats);
      CheckElemsIsFirstFailure(xs, s, 0, formats);
      assert vs[0..] == vs;
      FirstFailureSpec(vs);
    }
  }

  /** A nullable array node accepts null without looking at its bounds or
      items; a non-nullable one raises TypeError on null, since len(None)
      fails. */
  lemma ArrayNodeNull(s: SchemaNode, formats: FormatOracle)
    requires s.tag == Some("array")
    ensures s.nullable == Some(true) ==> Validate(Null, s, formats) == Ok(Some(true))
    ensures s.nullable != Some(true) ==> Validate(Null, s, formats) == Err(TypeError)
  {
  }

  // ---------------------------------------------------------------------------
  // The type check
  // ---------------------------------------------------------------------------

  /** A tag made of lower-case letters and dashes is its own lowered and
      stripped form. */
  lemma PlainTypeKey(t: string)
    requires forall i :: 0 <= i < |t| ==> ('a' <= t[i] <= 'z') || t[i] == '-'
    ensures TypeKey(t) == t
  {
    assert Lower(t) == t;
    StripWithoutSpace(t);
  }

  /** The tag is lower-cased and stripped before the type check, so
      "Object" is checked as "object"; the raw tag is what the recursion
      test and the item comparison see. */
  lemma TypeKeyOfCapitalisedTag()
    ensures TypeKey("Object") == "object"
  {
    assert Lower("Object") == "object";
    PlainTypeKey("object");
  }

  lemma NumericKinds(params: seq<(string, Value)>, formats: FormatOracle, i: int, f: string, b: bool)
    ensures KindMatches("number", Int(i), params, formats) == Ok(true)
    ensures KindMatches("integer", Float(f), params, formats) == Ok(false)
    ensures KindMatches("integer", Bool(b), params, formats) == Ok(false)
  {
    TagGroupsDisjoint("number");
    TagGroupsDisjoint("integer");
  }

  /** At property level an integer satisfies "number", nullable or not. */
  lemma IntegerSatisfiesNumber(info: SchemaNode, nullable: bool, formats: FormatOracle, i: int)
    requires info.tag.Some? && TypeKey(info.tag.value) == "number"
    ensures CheckType(Int(i), info, nullable, formats) == Ok(true)
  {
    NumericKinds(info.params, formats, i, "", false);
    CheckTypeRule(Int(i), info, nullable, formats, true);
  }

  /** A float never satisfies "integer", nullable or not. */
  lemma FloatNeverInteger(info: SchemaNode, nullable: bool, formats: FormatOracle, f: string)
    requires info.tag.Some? && TypeKey(info.tag.value) == "integer"
    ensures CheckType(Float(f), info, nullable, formats) == Ok(false)
  {
    NumericKinds(info.params, formats, 0, f, false);
    CheckTypeRule(Float(f), info, nullable, formats, false);
  }

  /** A bool never satisfies "integer", nullable or not: its JSON name is
      "boolean". */
  lemma BoolNeverInteger(info: SchemaNode, nullable: bool, formats: FormatOracle, b: bool)
    requires info.tag.Some? && TypeKey(info.tag.value) == "integer"
    ensures CheckType(Bool(b), info, nullable, formats) == Ok(false)
  {
    NumericKinds(info.params, formats, 0, "", b);
    CheckTypeRule(Bool(b), info, nullable, formats, false);
  }

  /** "any" accepts every value, with or without nullable. */
  lemma AnyAcceptsEverything(value: Value, info: SchemaNode, nullable: bool, formats: FormatOracle)
    requires info.tag.Some? && TypeKey(info.tag.value) == "any"
    ensures CheckType(value, info, nullable, formats) == Ok(true)
  {
    TagGroupsDisjoint("any");
    CheckTypeRule(value, info, nullable, formats, false);
  }

  /** A tag that is neither "any", "regex", a named format nor a JSON-Schema
      type never matches: only null under nullable gets through. */
  lemma UnknownTagNeverMatches(value: Value, info: SchemaNode, nullable: bool, formats: FormatOracle)
    requires info.tag.Some?
    requires var st := TypeKey(info.tag.value);
      st != "any" && st != "regex" && st !in NamedFormats && !IsJsonSchemaType(st)
    ensures CheckType(value, info, nullable, formats) == Ok(nullable && value.Null?)
  {
  }

  /** Under nullable, null passes every JSON-Schema type; without it, null
      passes only "null" (and "any"). */
  lemma NullAgainstJsonTypes(info: SchemaNode, nullable: bool, formats: FormatOracle)
    requires info.tag.Some? && IsJsonSchemaType(TypeKey(info.tag.value))
    ensures CheckType(Null, info, nullable, formats) == Ok(nullable || TypeKey(info.tag.value) == "null")
  {
  }

  /** A nullable `regex` property holding null raises TypeError: the regular
      expression is applied before nullability is considered. */
  lemma NullableRegexNullRaises(info: SchemaNode, formats: FormatOracle)
    requires info.tag.Some? && TypeKey(info.tag.value) == "regex"
    requires HasKey(info.params, "pattern") && Get(info.params, "pattern").Str?
    ensures CheckType(Null, info, true, formats) == Err(TypeError)
  {
  }

  /** A `regex` node without a `pattern` key raises KeyError whatever the
      value. */
  lemma RegexWithoutPatternRaises(value: Value, info: SchemaNode, nullable: bool, formats: FormatOracle)
    requires info.tag.Some? && TypeKey(info.tag.value) == "regex" && !HasKey(info.params, "pattern")
    ensures CheckType(value, info, nullable, formats) == Err(KeyError)
  {
  }

  // ---------------------------------------------------------------------------
  // Properties and items compared
  // ---------------------------------------------------------------------------

  /** The element test as written, with its separate integer-under-number
      clause, is plain kind inequality: the clause adds nothing. */
  lemma ItemMismatchIsKindInequality(elemType: string, itemType: string)
    ensures ItemMismatch(elemType, itemType) <==> itemType != "any" && elemType != itemType
  {
  }

  /** Unlike a property, an array element that is an integer fails under
      item type "number"; a float passes. */
  lemma IntegerFailsUnderNumberItems(i: int, f: string, item: SchemaNode, formats: FormatOracle)
    requires item.tag == Some("number")
    ensures ElementVerdict(Int(i), item, formats) == Ok(Fail)
    ensures ElementVerdict(Float(f), item, formats) == Ok(Pass)
  {
  }

  /** Item schemas ignore nullable: a null element fails under any item type
      but "null" and "any", even when the item is marked nullable. */
  lemma ItemsIgnoreNullable(item: SchemaNode, formats: FormatOracle)
    requires item.tag.Some? && item.tag.value != "null" && item.tag.value != "any"
    ensures ElementVerdict(Null, item, formats) == Ok(Fail)
  {
  }

  /** An item type that is not a JSON-Schema name (a named format such as
      "regex", or a capitalised name such as "String") matches no element,
      strings included. */
  lemma NonJsonItemTypeMatchesNothing(o: Value, item: SchemaNode, formats: FormatOracle)
    requires item.tag.Some? && item.tag.value != "any" && !IsJsonSchemaType(item.tag.value)
    ensures ElementVerdict(o, item, formats) == Ok(Fail)
  {
  }

  // ---------------------------------------------------------------------------
  // Raising paths and raw tags
  // ---------------------------------------------------------------------------

  /** A declared property with no `type` raises ValueError once the value is
      present; when it is absent and not required it is skipped. */
  lemma PropertyWithoutType(obj: Value, k: string, v: SchemaNode, formats: FormatOracle)
    requires obj.Map? && v.tag.None?
    ensures HasKey(obj.entries, k) ==> PropertyVerdict(obj, k, v, formats) == Err(ValueError)
    ensures !HasKey(obj.entries, k) && v.required != Some(true) ==> PropertyVerdict(obj, k, v, formats) == Ok(Pass)
  {
  }

  /** A nullable object property holding null passes the type check and is
      then validated as an object: with declared properties this reads the
      keys of None and raises AttributeError; with none it passes. */
  lemma NullableObjectHoldingNull(obj: Value, k: string, v: SchemaNode, formats: FormatOracle)
    requires obj.Map? && HasKey(obj.entries, k) && Get(obj.entries, k) == Null
    requires v.tag == Some("object") && v.nullable == Some(true) && v.properties.Props?
    ensures v.properties.entries != [] ==> PropertyVerdict(obj, k, v, formats) == Err(AttributeError)
    ensures v.properties.entries == [] ==> PropertyVerdict(obj, k, v, formats) == Ok(Pass)
  {
    PlainTypeKey("object");
    TagGroupsDisjoint("object");
    assert KindMatches("object", Null, v.params, formats) == Ok(false);
    assert CheckType(Null, v, true, formats) == Ok(true);
    if v.properties.entries != [] {
      assert CheckProps(Null, v, 0, formats) == Err(AttributeError);
    } else {
      assert CheckProps(Null, v, 0, formats) == Ok(true);
    }
  }

  /** A present property whose type check passes and whose raw tag is
      neither "object" nor "array" passes without recursion. */
  lemma PresentScalarTagPasses(obj: Value, k: string, v: SchemaNode, formats: FormatOracle)
    requires obj.Map? && HasKey(obj.entries, k) && v.tag.Some?
    requires CheckType(Get(obj.entries, k), v, v.nullable.GetOr(false), formats) == Ok(true)
    requires v.tag.value != "object" && v.tag.value != "array"
    ensures PropertyVerdict(obj, k, v, formats) == Ok(Pass)
  {
  }

  /** A property whose tag only lowers to "object" (such as "Object") is
      type-checked as an object but not recursed into: its own properties
      are never looked at, not even their absence. */
  lemma RawTagSkipsRecursion(obj: Value, k: string, v: SchemaNode, formats: FormatOracle)
    requires obj.Map? && HasKey(obj.entries, k) && Get(obj.entries, k).Map?
    requires v.tag.Some? && TypeKey(v.tag.value) == "object" && v.tag.value != "object"
    ensures PropertyVerdict(obj, k, v, formats) == Ok(Pass)
  {
    var x := Get(obj.entries, k);
    assert KindMatches("object", x, v.params, formats) == Ok(true);
    CheckTypeRule(x, v, v.nullable.GetOr(false), formats, true);
    assert v.tag.value != "array" by {
      PlainTypeKey("array");
    }
    PresentScalarTagPasses(obj, k, v, formats);
  }
}
