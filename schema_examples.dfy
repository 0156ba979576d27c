/**
 * The validator on the schema and some documents of rickle's unit test for
 * primitive properties.
 */
module SchemaExamples {
  import opened Values
  import opened Text
  import opened NativeTypes
  import opened SchemaNodes
  import opened SchemaValidation
  import opened ValidationProperties

  /** The schema of the primitives test. */
  const Primitives := TypeOnly("object").(properties := Props([
    ("A", TypeOnly("integer").(required := Some(true))),
    ("a", TypeOnly("number")),
    ("b", TypeOnly("any")),
    ("c", TypeOnly("boolean")),
    ("d", TypeOnly("string").(nullable := Some(true))),
    ("e", TypeOnly("string").(nullable := Some(true), required := Some(true)))]))

  /** A document without the required "A" fails at the first property. */
  lemma PrimitivesMissingRequired(formats: FormatOracle)
    ensures Validate(Map([("b", Int(10)), ("c", Float("0.9")), ("e", Str("string"))]), Primitives, formats) == Ok(Some(false))
  {
    var obj := Map([("b", Int(10)), ("c", Float("0.9")), ("e", Str("string"))]);
    ObjectNode(obj, Primitives, formats);
    var vs := PropertyVerdicts(obj, Primitives.properties.entries, formats);
    assert !HasKey(obj.entries, "A");
    assert vs[0] == Ok(Fail);
  }

  /** A null "A", which is not nullable, fails the type check. */
  lemma PrimitivesNullInteger(formats: FormatOracle)
    ensures Validate(Map([("A", Null), ("e", Str("string"))]), Primitives, formats) == Ok(Some(false))
  {
    var obj := Map([("A", Null), ("e", Str("string"))]);
    ObjectNode(obj, Primitives, formats);
    var vs := PropertyVerdicts(obj, Primitives.properties.entries, formats);
    assert HasKey(obj.entries, "A") && Get(obj.entries, "A") == Null;
    NullIntegerFails(obj, formats);
    assert vs[0] == Ok(Fail);
  }

  lemma NullIntegerFails(obj: Value, formats: FormatOracle)
    requires obj.Map? && HasKey(obj.entries, "A") && Get(obj.entries, "A") == Null
    ensures PropertyVerdict(obj, "A", TypeOnly("integer").(required := Some(true)), formats) == Ok(Fail)
  {
    var info := TypeOnly("integer").(required := Some(true));
    PlainTypeKey("integer");
    NullAgainstJsonTypes(info, false, formats);
  }

  /** A value whose kind is the one a JSON-Schema tag names (an integer also
      satisfying "number") passes the type check, nullable or not. */
  lemma ScalarTypeCheck(x: Value, info: SchemaNode, formats: FormatOracle)
    requires info.tag.Some?
    requires var st := TypeKey(info.tag.value);
      IsJsonSchemaType(st) && (KindName(x) == st || (KindName(x) == "integer" && st == "number"))
    ensures CheckType(x, info, info.nullable.GetOr(false), formats) == Ok(true)
  {
    assert KindMatches(TypeKey(info.tag.value), x, info.params, formats) == Ok(true);
    CheckTypeRule(x, info, info.nullable.GetOr(false), formats, true);
  }
}
