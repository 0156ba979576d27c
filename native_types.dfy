/**
 * get_native_type_name: the mapping from Python type names to the type names
 * of each serialisation format, which the validator uses to name the kind of
 * a data value.
 */
module NativeTypes {
  import opened Values
  import opened Text

  const YamlTypes: seq<(string, string)> := [
    ("str", "str"), ("int", "int"), ("float", "float"), ("bool", "boolean"),
    ("list", "seq"), ("dict", "map"), ("Rickle", "map"), ("UnsafeRickle", "map"),
    ("BaseRickle", "map"), ("bytes", "binary"), ("NoneType", "null")]

  const JsonTypes: seq<(string, string)> := [
    ("str", "string"), ("int", "integer"), ("float", "number"), ("bool", "boolean"),
    ("list", "array"), ("dict", "object"), ("Rickle", "object"), ("UnsafeRickle", "object"),
    ("BaseRickle", "object"), ("NoneType", "null")]

  const TomlTypes: seq<(string, string)> := [
    ("str", "String"), ("int", "Integer"), ("float", "Float"), ("bool", "Boolean"),
    ("list", "Array"), ("dict", "Key/Value"), ("Rickle", "Key/Value"),
    ("UnsafeRickle", "Key/Value"), ("BaseRickle", "Key/Value")]

  const XmlTypes: seq<(string, string)> := [
    ("str", "xs:string"), ("int", "xs:integer"), ("float", "xs:decimal"), ("bool", "xs:boolean"),
    ("list", "xs:sequence"), ("dict", "xs:complexType"), ("Rickle", "xs:complexType"),
    ("UnsafeRickle", "xs:complexType"), ("BaseRickle", "xs:complexType")]

  /** The format names get_native_type_name accepts (after lower() and strip()). */
  predicate KnownFormat(f: string) {
    f == "yaml" || f == "json" || f == "toml" || f == "xml" || f == "ini" || f == "env" || f == "python"
  }

  /** type(v).__name__ */
  function PythonTypeName(v: Value): string {
    match v
    case Null => "NoneType"
    case Bool(_) => "bool"
    case Int(_) => "int"
    case Float(_) => "float"
    case Str(_) => "str"
    case List(_) => "list"
    case Map(_) => "dict"
  }

  /** The JSON-Schema name of a value's kind: the reference the validator
      compares declared types against. */
  function KindName(v: Value): string {
    match v
    case Null => "null"
    case Bool(_) => "boolean"
    case Int(_) => "integer"
    case Float(_) => "number"
    case Str(_) => "string"
    case List(_) => "array"
    case Map(_) => "object"
  }

  /** dict.get(key, fallback) */
  function Lookup(table: seq<(string, string)>, key: string, fallback: string): string {
    if HasKey(table, key) then Get(table, key) else fallback
  }

  /** `default if default else other`: a None or empty default is falsy. */
  function OrElse(default: Option<string>, other: string): string {
    if default.Some? && default.value != "" then default.value else other
  }

  /** The format name as get_native_type_name compares it: lower-cased, then
      stripped. */
  function FormatKey(formatType: string): string {
    Strip(Lower(formatType))
  }

  /** get_native_type_name(python_type_name, format_type, default). */
  function GetNativeTypeName(pythonTypeName: string, formatType: string, default: Option<string>): (r: Result<string>)
    ensures r.Err? <==> !KnownFormat(FormatKey(formatType))
    ensures r.Err? ==> r.error == ValueError
    ensures FormatKey(formatType) == "ini" || FormatKey(formatType) == "env" || FormatKey(formatType) == "python"
      ==> r == Ok(Strip(pythonTypeName))
  {
    var name := Strip(pythonTypeName);
    var format := FormatKey(formatType);
    if !KnownFormat(format) then Err(ValueError)
    else if format == "yaml" then Ok(Lookup(YamlTypes, name, OrElse(default, "Python")))
    else if format == "json" then Ok(Lookup(JsonTypes, name, OrElse(default, "object")))
    else if format == "toml" then Ok(Lookup(TomlTypes, name, OrElse(default, "Other")))
    else if format == "xml" then Ok(Lookup(XmlTypes, name, OrElse(default, "xs:any")))
    else Ok(name)
  }

  lemma StripOfPlainName(s: string)
    requires forall i :: 0 <= i < |s| ==> 'A' <= s[i] <= 'z'
    ensures Strip(s) == s
  {
    StripWithoutSpace(s);
  }

  lemma LookupAt(table: seq<(string, string)>, i: nat, k: string, v: string, fallback: string)
    requires i < |table| && table[i] == (k, v)
    requires forall j :: 0 <= j < i ==> table[j].0 != k
    ensures Lookup(table, k, fallback) == v
  {
    assert HasKey(table, k);
  }

  /** Asking for the "json" names is a lookup in the JSON table. */
  lemma JsonFormat(name: string, default: Option<string>)
    ensures GetNativeTypeName(name, "json", default) == Ok(Lookup(JsonTypes, Strip(name), OrElse(default, "object")))
  {
    assert Lower("json") == "json";
    StripOfPlainName("json");
    assert FormatKey("json") == "json";
    assert "json" != "yaml";
  }

  /** The JSON name of a plain Python type name found at position i of the
      table. */
  lemma JsonEntry(t: string, k: string, i: nat, fallback: string)
    requires forall c :: 0 <= c < |t| ==> 'A' <= t[c] <= 'z'
    requires i < |JsonTypes| && JsonTypes[i] == (t, k)
    requires forall j :: 0 <= j < i ==> JsonTypes[j].0 != t
    ensures Lookup(JsonTypes, Strip(t), fallback) == k
  {
    StripOfPlainName(t);
    LookupAt(JsonTypes, i, t, k, fallback);
  }

  /** The JSON table entry of each Python type name. */
  lemma JsonTableOfValue(v: Value, fallback: string)
    ensures Lookup(JsonTypes, Strip(PythonTypeName(v)), fallback) == KindName(v)
  {
    match v
    case Str(_) => JsonEntry("str", "string", 0, fallback);
    case Int(_) => JsonEntry("int", "integer", 1, fallback);
    case Float(_) => JsonEntry("float", "number", 2, fallback);
    case Bool(_) => JsonEntry("bool", "boolean", 3, fallback);
    case List(_) => JsonEntry("list", "array", 4, fallback);
    case Map(_) => JsonEntry("dict", "object", 5, fallback);
    case Null => JsonEntry("NoneType", "null", 9, fallback);
  }

  /** For every value, the JSON name of its Python type is its kind name:
      str→string, int→integer, float→number, bool→boolean, list→array,
      dict→object, NoneType→null. In particular a bool is never "integer". */
  lemma JsonNameOfValue(v: Value, default: Option<string>)
    ensures GetNativeTypeName(PythonTypeName(v), "json", default) == Ok(KindName(v))
  {
    JsonFormat(PythonTypeName(v), default);
    JsonTableOfValue(v, OrElse(default, "object"));
  }

  /** A name missing from the JSON table yields the default when it is truthy
      and "object" otherwise. */
  lemma JsonUnmappedName(name: string, default: Option<string>)
    requires !HasKey(JsonTypes, Strip(name))
    ensures GetNativeTypeName(name, "json", default)
         == Ok(if default.Some? && default.value != "" then default.value else "object")
  {
    JsonFormat(name, default);
  }
}
