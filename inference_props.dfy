/**
 * What schema inference promises: the shape of the generated schema, the
 * extended properties on every node, the three cases of array inference, and
 * that the native validator accepts the sample a schema was generated from
 * whenever the sample's lists are homogeneous.
 */
module InferenceProperties {
  import opened Values
  import opened Text
  import opened NativeTypes
  import opened SchemaNodes
  import opened SchemaInference
  import opened SchemaValidation
  import opened ValidationProperties

  // ---------------------------------------------------------------------------
  // Extended properties
  // ---------------------------------------------------------------------------

  /** The keys data_types_to_schema puts on one node besides `type`,
      `properties` and `items`: with extended properties required=False,
      nullable=True, description=None, and on array nodes length, min and
      max all -1; without them nothing else. */
  predicate NodeKeys(n: SchemaNode, ext: bool) {
    var isArray := n.tag == Some("array");
    n.params == []
    && (ext ==> n.required == Some(false) && n.nullable == Some(true) && n.description == Some(Null))
    && (!ext ==> n.required.None? && n.nullable.None? && n.description.None?)
    && (ext && isArray ==> n.length == Some(-1) && n.min == Some(-1) && n.max == Some(-1))
    && (!ext || !isArray ==> n.length.None? && n.min.None? && n.max.None?)
  }

  /** NodeKeys holds at every node of a schema tree. */
  predicate EveryNode(n: SchemaNode, ext: bool)
    decreases n
  {
    NodeKeys(n, ext)
    && (n.properties.Props? ==>
          forall i :: 0 <= i < |n.properties.entries| ==> EveryNode(n.properties.entries[i].1, ext))
    && (n.items.Items? ==>
          forall i :: 0 <= i < |n.items.elems| ==> EveryNode(n.items.elems[i], ext))
  }

  lemma {:induction false} EveryNodeOfTree(t: TypeTree, ext: bool)
    ensures EveryNode(DataTypesToSchema(t, ext), ext)
    decreases t
  {
    match t
    case Leaf(_) =>
    case NoneLeaf =>
    case DictOf(es) =>
      forall i | 0 <= i < |es| ensures EveryNode(DataTypesToSchema(es[i].1, ext), ext) {
        assert es[i] in es;
        EveryNodeOfTree(es[i].1, ext);
      }
    case ListOf(xs) =>
      if |xs| > 0 && OneKind(xs) {
        EveryNodeOfTree(xs[0], ext);
      }
  }

  /** Every node of a generated schema carries exactly the extended keys, or
      exactly none of them. */
  lemma GeneratedNodesCarryExtendedKeys(obj: Value, ext: bool)
    ensures EveryNode(GenerateFromObj(obj, ext), ext)
  {
    EveryNodeOfTree(ExtractDataTypes(obj), ext);
  }

  // ---------------------------------------------------------------------------
  // Array inference
  // ---------------------------------------------------------------------------

  /** All elements have the Python type of the first. */
  predicate OnePythonType(xs: seq<Value>) {
    forall i :: 0 <= i < |xs| ==> PythonTypeName(xs[i]) == PythonTypeName(xs[0])
  }

  lemma KindOfExtract(a: Value, b: Value)
    ensures KindOf(ExtractDataTypes(a)) == KindOf(ExtractDataTypes(b)) <==> PythonTypeName(a) == PythonTypeName(b)
  {
  }

  /** The item list generated for a list: empty for an empty list, the
      schema of element 0 when all elements share one Python type (any two
      lists, or any two dicts, count as one type), and the single null
      schema otherwise. */
  lemma ArrayInference(xs: seq<Value>, ext: bool)
    ensures xs == [] ==> GenerateFromObj(List(xs), ext).items == Items([])
    ensures xs != [] && OnePythonType(xs) ==>
      GenerateFromObj(List(xs), ext).items == Items([GenerateFromObj(xs[0], ext)])
    ensures xs != [] && !OnePythonType(xs) ==>
      GenerateFromObj(List(xs), ext).items == Items([NamedSchema("null", ext)])
  {
    var t := ExtractDataTypes(List(xs));
    if xs != [] {
      forall i | 0 <= i < |xs| ensures KindOf(t.elems[i]) == KindOf(t.elems[0]) <==> PythonTypeName(xs[i]) == PythonTypeName(xs[0]) {
        KindOfExtract(xs[i], xs[0]);
      }
      assert OneKind(t.elems) <==> OnePythonType(xs);
    }
  }

  /** The schema generated without extended properties for the sample of
      the unit test of generate_from_obj. */
  lemma GenerateFromObjExample()
    ensures GenerateFromObj(
      Map([("config", Map([("version", Str("0.1.0")), ("name", Str("rickle_unittest")), ("threshold", Float("3.14"))]))]),
      false)
      == TypeOnly("object").(properties := Props([
           ("config", TypeOnly("object").(properties := Props([
              ("version", TypeOnly("string")),
              ("name", TypeOnly("string")),
              ("threshold", TypeOnly("number"))])))]))
  {
    var inner := [("version", Str("0.1.0")), ("name", Str("rickle_unittest")), ("threshold", Float("3.14"))];
    var t := ExtractDataTypes(Map(inner));
    ExampleConfigSchema();
    assert ExtractDataTypes(Map([("config", Map(inner))])) == DictOf([("config", t)]);
  }

  lemma ExampleConfigSchema()
    ensures var t := ExtractDataTypes(Map([("version", Str("0.1.0")), ("name", Str("rickle_unittest")), ("threshold", Float("3.14"))]));
      DataTypesToSchema(t, false) == TypeOnly("object").(properties := Props([
        ("version", TypeOnly("string")),
        ("name", TypeOnly("string")),
        ("threshold", TypeOnly("number"))]))
  {
    var inner := [("version", Str("0.1.0")), ("name", Str("rickle_unittest")), ("threshold", Float("3.14"))];
    var t := ExtractDataTypes(Map(inner));
    assert t == DictOf([("version", Leaf(StrType)), ("name", Leaf(StrType)), ("threshold", Leaf(FloatType))]);
  }

  // ---------------------------------------------------------------------------
  // The validator accepts the sample
  // ---------------------------------------------------------------------------

  /** Every dict has distinct keys and, in every list, each element has the
      same type tree as the first. */
  predicate Homogeneous(v: Value)
    decreases v
  {
    match v
    case Map(es) =>
      DistinctKeys(es) && forall i :: 0 <= i < |es| ==> Homogeneous(es[i].1)
    case List(xs) =>
      forall i :: 0 <= i < |xs| ==> ExtractDataTypes(xs[i]) == ExtractDataTypes(xs[0]) && Homogeneous(xs[i])
    case _ => true
  }

  lemma KindNameKey(x: Value)
    ensures IsJsonSchemaType(KindName(x)) && TypeKey(KindName(x)) == KindName(x)
  {
    match x
    case Null => PlainTypeKey("null");
    case Bool(_) => PlainTypeKey("boolean");
    case Int(_) => PlainTypeKey("integer");
    case Float(_) => PlainTypeKey("number");
    case Str(_) => PlainTypeKey("string");
    case List(_) => PlainTypeKey("array");
    case Map(_) => PlainTypeKey("object");
  }

  /** A present value passes the type check of the schema generated from it. */
  lemma GeneratedTypeCheck(x: Value, ext: bool, nullable: bool, formats: FormatOracle)
    ensures CheckType(x, GenerateFromObj(x, ext), nullable, formats) == Ok(true)
  {
    var n := GenerateFromObj(x, ext);
    KindNameKey(x);
    assert KindMatches(KindName(x), x, n.params, formats) == Ok(true);
    CheckTypeRule(x, n, nullable, formats, true);
  }

  lemma GetAt<V>(es: seq<(string, V)>, i: nat)
    requires DistinctKeys(es) && i < |es|
    ensures HasKey(es, es[i].0) && Get(es, es[i].0) == es[i].1
  {
    assert HasKey(es, es[i].0);
    var j := IndexOf(es, es[i].0);
    assert j == i;
  }

  /** The validator accepts a homogeneous dict or list against the schema
      generated from it, with or without extended properties, whatever the
      named-format predicates answer. */
  lemma {:induction false} GeneratedSchemaAcceptsSample(v: Value, ext: bool, formats: FormatOracle)
    requires Homogeneous(v) && (v.Map? || v.List?)
    ensures Validate(v, GenerateFromObj(v, ext), formats) == Ok(Some(true))
    decreases v, 1
  {
    var s := GenerateFromObj(v, ext);
    match v
    case Map(es) =>
      ObjectNode(v, s, formats);
      var ps := s.properties.entries;
      var vs := PropertyVerdicts(v, ps, formats);
      forall i | 0 <= i < |vs| ensures vs[i] == Ok(Pass) {
        assert es[i] in es;
        PropertyPasses(v, es, i, ext, formats);
      }
    case List(xs) =>
      ArrayNode(xs, s, formats);
      if xs != [] {
        var item := s.items.elems[0];
        var vs := ElementVerdicts(xs, item, formats);
        forall j | 0 <= j < |xs| ensures vs[j] == Ok(Pass) {
          assert xs[j] in xs;
          ElementPasses(xs, j, ext, formats);
        }
      }
  }

  /** Property i of the schema generated from a dict is the dict's key i
      with the schema generated from its value. */
  lemma GeneratedProperty(es: seq<(string, Value)>, i: nat, ext: bool)
    requires i < |es|
    ensures var s := GenerateFromObj(Map(es), ext);
      s.properties.Props? && |s.properties.entries| == |es|
      && s.properties.entries[i] == (es[i].0, GenerateFromObj(es[i].1, ext))
  {
    var t := ExtractDataTypes(Map(es));
    assert t.entries[i] == (es[i].0, ExtractDataTypes(es[i].1));
  }

  lemma {:induction false} PropertyPasses(v: Value, es: seq<(string, Value)>, i: nat, ext: bool, formats: FormatOracle)
    requires v == Map(es) && Homogeneous(v) && i < |es|
    ensures var s := GenerateFromObj(v, ext);
      s.properties.Props? && i < |s.properties.entries| &&
      PropertyVerdict(v, s.properties.entries[i].0, s.properties.entries[i].1, formats) == Ok(Pass)
    decreases v, 0
  {
    var k := es[i].0;
    var x := es[i].1;
    var p := GenerateFromObj(x, ext);
    GeneratedProperty(es, i, ext);
    assert es[i] in es;
    GetAt(es, i);
    GeneratedTypeCheck(x, ext, p.nullable.GetOr(false), formats);
    if x.Map? || x.List? {
      GeneratedSchemaAcceptsSample(x, ext, formats);
      assert PropertyVerdict(v, k, p, formats) == Ok(Pass);
    } else {
      assert p.tag.value != "object" && p.tag.value != "array";
      assert PropertyVerdict(v, k, p, formats) == Ok(Pass);
    }
  }

  lemma {:induction false} ElementPasses(xs: seq<Value>, j: nat, ext: bool, formats: FormatOracle)
    requires Homogeneous(List(xs)) && j < |xs|
    ensures var s := GenerateFromObj(List(xs), ext);
      s.items.Items? && |s.items.elems| > 0 &&
      ElementVerdict(xs[j], s.items.elems[0], formats) == Ok(Pass)
    decreases List(xs), 0
  {
    var t := ExtractDataTypes(List(xs));
    assert forall i :: 0 <= i < |xs| ==> t.elems[i] == ExtractDataTypes(xs[i]);
    assert OneKind(t.elems);
    var item := GenerateFromObj(xs[0], ext);
    assert GenerateFromObj(List(xs), ext).items.elems[0] == item;
    assert GenerateFromObj(xs[j], ext) == item;
    assert KindName(xs[j]) == KindName(xs[0]) by {
      assert item.tag == Some(KindName(xs[j])) && item.tag == Some(KindName(xs[0]));
    }
    assert xs[j] in xs;
    if xs[j].Map? || xs[j].List? {
      GeneratedSchemaAcceptsSample(xs[j], ext, formats);
    }
  }

  /** A schema generated from a scalar has a root type that is neither
      "object" nor "array", so validation against it yields None. */
  lemma ScalarRootYieldsNone(v: Value, w: Value, ext: bool, formats: FormatOracle)
    requires !(v.Map? || v.List?)
    ensures Validate(w, GenerateFromObj(v, ext), formats) == Ok(None)
  {
  }

  /** The item schema inferred for a list of mixed types, {type: "null"},
      accepts a list only when all its elements are null. */
  lemma MixedItemsAcceptOnlyNulls(sample: seq<Value>, xs: seq<Value>, ext: bool, formats: FormatOracle)
    requires sample != [] && !OnePythonType(sample)
    ensures Validate(List(xs), GenerateFromObj(List(sample), ext), formats)
         == Ok(Some(forall i :: 0 <= i < |xs| ==> xs[i].Null?))
  {
    var s := GenerateFromObj(List(sample), ext);
    ArrayInference(sample, ext);
    ArrayNode(xs, s, formats);
    var item := s.items.elems[0];
    var vs := ElementVerdicts(xs, item, formats);
    forall i | 0 <= i < |xs| ensures vs[i] == (if xs[i].Null? then Ok(Pass) else Ok(Fail)) {
      NullItemVerdict(xs[i], item, formats);
    }
    if !(forall i :: 0 <= i < |xs| ==> xs[i].Null?) {
      var i :| 0 <= i < |xs| && !xs[i].Null?;
      var i0 := FirstNonNull(xs, i);
      assert vs[i0] == Ok(Fail) && PassesBefore(vs, i0);
    }
  }

  /** An element against the item schema {type: "null"}: only null passes. */
  lemma NullItemVerdict(x: Value, item: SchemaNode, formats: FormatOracle)
    requires item.tag == Some("null")
    ensures ElementVerdict(x, item, formats) == if x.Null? then Ok(Pass) else Ok(Fail)
  {
  }

  /** The position of the first element that is not null, given one. */
  function FirstNonNull(xs: seq<Value>, i: nat): (j: nat)
    requires i < |xs| && !xs[i].Null?
    ensures j <= i && !xs[j].Null? && forall k :: 0 <= k < j ==> xs[k].Null?
  {
    if i == 0 || forall k :: 0 <= k < i ==> xs[k].Null? then i
    else
      var k :| 0 <= k < i && !xs[k].Null?;
      FirstNonNull(xs, k)
  }

  /** A dict holding a list of mixed types under one key is rejected by the
      schema generated from it: the list gets item type "null" and holds an
      element that is not null. */
  lemma MixedListRejected(k: string, xs: seq<Value>, ext: bool, formats: FormatOracle)
    requires xs != [] && !OnePythonType(xs)
    ensures var v := Map([(k, List(xs))]);
      Validate(v, GenerateFromObj(v, ext), formats) == Ok(Some(false))
  {
    var v := Map([(k, List(xs))]);
    var s := GenerateFromObj(v, ext);
    ObjectNode(v, s, formats);
    var vs := PropertyVerdicts(v, s.properties.entries, formats);
    assert s.properties.entries[0] == (k, GenerateFromObj(List(xs), ext));
    MixedListPropertyFails(k, xs, ext, formats);
    assert vs[0] == Ok(Fail);
  }

  lemma MixedListPropertyFails(k: string, xs: seq<Value>, ext: bool, formats: FormatOracle)
    requires xs != [] && !OnePythonType(xs)
    ensures PropertyVerdict(Map([(k, List(xs))]), k, GenerateFromObj(List(xs), ext), formats) == Ok(Fail)
  {
    var es := [(k, List(xs))];
    var n := GenerateFromObj(List(xs), ext);
    assert es[0].0 == k;
    assert Get(es, k) == List(xs);
    GeneratedTypeCheck(List(xs), ext, n.nullable.GetOr(false), formats);
    var i :| 0 <= i < |xs| && PythonTypeName(xs[i]) != PythonTypeName(xs[0]);
    assert !xs[i].Null? || !xs[0].Null?;
    MixedItemsAcceptOnlyNulls(xs, xs, ext, formats);
  }

  /** Generating a schema from {"a": [1, "x"]} and validating the same
      sample fails. */
  lemma MixedSampleRejected(ext: bool, formats: FormatOracle)
    ensures var v := Map([("a", List([Int(1), Str("x")]))]);
      Validate(v, GenerateFromObj(v, ext), formats) == Ok(Some(false))
  {
    var xs := [Int(1), Str("x")];
    assert PythonTypeName(xs[1]) != PythonTypeName(xs[0]);
    MixedListRejected("a", xs, ext, formats);
  }
}
