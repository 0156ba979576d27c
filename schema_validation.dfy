/**
 * The native validator of Schema.validate: schema_validation walks a schema
 * node and a value in lockstep and answers True or False, failing fast; its
 * helper _check_type decides whether one property value has the declared
 * type. A root node whose type is neither "object" nor "array" falls off the
 * end of schema_validation, which then returns None.
 */
module SchemaValidation {
  import opened Values
  import opened Text
  import opened NativeTypes
  import opened SchemaNodes

  /** The foreign checks behind the `regex` tag (re.match) and the named
      formats (the pyvalidator predicates, present or not): given the lowered
      tag, the node's other keys and the value, they answer or raise. */
  type FormatOracle = (string, seq<(string, Value)>, Value) -> Result<bool>

  /** The tags _check_type hands to a named-format predicate. */
  const NamedFormats: set<string> := {
    "regex-pattern", "ip-address", "port-number", "fqdn", "url", "mac-address",
    "pyval-number", "prime-number", "hex", "base64", "ean", "colour-hex", "colour-rgb",
    "email", "phone", "iso-6391", "iso-lang", "iso-31661", "iso-country", "locale",
    "lat-long", "date", "uuid", "sem-ver", "mime-type", "cloud-aws-region",
    "cloud-aws-arn", "bic", "swift", "credit-card", "iban", "ethereum-address",
    "eth-address", "bitcoin-address", "btc-address", "magnet-uri", "hash"}

  /** The JSON-Schema names, "any" and "regex" are not named formats, and
      each of the first two groups is disjoint from the others. */
  lemma TagGroupsDisjoint(t: string)
    ensures IsJsonSchemaType(t) ==> t !in NamedFormats && t != "regex" && t != "any"
    ensures t == "any" ==> t !in NamedFormats && t != "regex" && !IsJsonSchemaType(t)
  {
  }

  /** The tag as _check_type compares it: lower-cased, then stripped. */
  function TypeKey(tag: string): string {
    Strip(Lower(tag))
  }

  /** object_type_matches: whether a value has the kind a lowered tag names.
      For the JSON-Schema names an integer also satisfies "number". */
  function KindMatches(st: string, v: Value, params: seq<(string, Value)>, formats: FormatOracle): (r: Result<bool>)
    ensures IsJsonSchemaType(st) ==> r == Ok(KindName(v) == st || (KindName(v) == "integer" && st == "number"))
    ensures st != "regex" && st !in NamedFormats && !IsJsonSchemaType(st) ==> r == Ok(false)
  {
    // The source tests the JSON-Schema names after the regex and named-format
    // branches; the groups are disjoint (TagGroupsDisjoint), so testing them
    // first decides the same.
    if IsJsonSchemaType(st) then Ok((KindName(v) == "integer" && st == "number") || KindName(v) == st)
    else if st == "regex" then
      if !HasKey(params, "pattern") then Err(KeyError)
      else if !Get(params, "pattern").Str? || !v.Str? then Err(TypeError)
      else formats("regex", params, v)
    else if st in NamedFormats then formats(st, params, v)
    else Ok(false)
  }

  /** _check_type(object_value, schema_info, is_nullable). */
  function CheckType(value: Value, info: SchemaNode, nullable: bool, formats: FormatOracle): (r: Result<bool>)
    ensures info.tag.None? ==> r == Err(ValueError)
    ensures info.tag.Some? ==>
      var st := TypeKey(info.tag.value);
      var m := KindMatches(st, value, info.params, formats);
      (m.Err? ==> r == m)
      && (m.Ok? ==> r.Ok? && (r.value <==>
            (nullable && (st == "any" || value.Null?))
            || (nullable && st != "any" && m.value)
            || (!nullable && (st == "any" || m.value))))
  {
    if info.tag.None? then Err(ValueError)
    else
      var st := TypeKey(info.tag.value);
      var matches :- KindMatches(st, value, info.params, formats);
      var nullNoType := nullable && (st == "any" || value.Null?);
      var nullWithType := nullable && st != "any" && matches;
      var nonNull := !nullable && (st == "any" || matches);
      Ok(nullNoType || nullWithType || nonNull)
  }

  /** The three cases of _check_type collapse to one rule: a value passes
      when the tag is "any", when its kind matches, or when it is null and
      the property is nullable. */
  lemma CheckTypeRule(value: Value, info: SchemaNode, nullable: bool, formats: FormatOracle, m: bool)
    requires info.tag.Some? && KindMatches(TypeKey(info.tag.value), value, info.params, formats) == Ok(m)
    ensures CheckType(value, info, nullable, formats)
         == Ok(TypeKey(info.tag.value) == "any" || m || (nullable && value.Null?))
  {
  }

  /** len(obj) */
  function Len(v: Value): (r: Result<nat>)
    ensures v.List? ==> r == Ok(|v.items|)
    ensures !(v.List? || v.Map? || v.Str?) ==> r == Err(TypeError)
  {
    match v
    case List(xs) => Ok(|xs|)
    case Map(es) => Ok(|es|)
    case Str(s) => Ok(|s|)
    case _ => Err(TypeError)
  }

  /** obj[i] for 0 <= i < len(obj): a string yields a one-character string
      and a dict, whose keys are strings, has no key i. */
  function ElemAt(v: Value, i: nat): Result<Value>
    requires Len(v).Ok? && i < Len(v).value
  {
    match v
    case List(xs) => Ok(xs[i])
    case Str(s) => Ok(Str([s[i]]))
    case Map(_) => Err(KeyError)
  }

  /** The failure test of the element loop, as written. */
  predicate ItemMismatch(elemType: string, itemType: string) {
    (itemType != "any" && elemType != itemType) || (elemType == "integer" && itemType == "number")
  }

  /** schema_validation(obj, schema): Ok(Some(b)) for True/False, Ok(None)
      when the node's type is neither "object" nor "array". */
  function Validate(obj: Value, s: SchemaNode, formats: FormatOracle): (r: Result<Option<bool>>)
    ensures s.tag.None? ==> r == Err(ValueError)
    ensures s.tag == Some("object") && s.properties.NoProps? ==> r == Err(KeyError)
    ensures s.tag.Some? && s.tag.value != "object" && s.tag.value != "array" ==> r == Ok(None)
    ensures s.tag == Some("object") || s.tag == Some("array") ==> r.Err? || r.value.Some?
    decreases s, 2
  {
    if s.tag.None? then Err(ValueError)
    else if s.tag.value == "object" then
      if s.properties.NoProps? then Err(KeyError)
      else
        var b :- CheckProps(obj, s, 0, formats);
        Ok(Some(b))
    else if s.tag.value == "array" then
      var b :- CheckArray(obj, s, formats);
      Ok(Some(b))
    else Ok(None)
  }

  /** The loop over schema['properties'], from property i on. */
  function CheckProps(obj: Value, s: SchemaNode, i: nat, formats: FormatOracle): Result<bool>
    requires s.properties.Props? && i <= |s.properties.entries|
    decreases s, 1, |s.properties.entries| - i
  {
    var ps := s.properties.entries;
    if i == |ps| then Ok(true)
    else
      var k := ps[i].0;
      var v := ps[i].1;
      assert v < s by { assert ps[i] in ps; }
      if !obj.Map? then Err(AttributeError)
      else if !HasKey(obj.entries, k) then
        if v.required.GetOr(false) then Ok(false) else CheckProps(obj, s, i + 1, formats)
      else
        var x := Get(obj.entries, k);
        var passed :- CheckType(x, v, v.nullable.GetOr(false), formats);
        if !passed then Ok(false)
        else if v.tag.value == "object" || v.tag.value == "array" then
          var sub :- Validate(x, v, formats);
          if sub != Some(true) then Ok(false) else CheckProps(obj, s, i + 1, formats)
        else CheckProps(obj, s, i + 1, formats)
  }

  /** The body of an array node: the nullable shortcut, the three bounds and
      the element loop. */
  function CheckArray(obj: Value, s: SchemaNode, formats: FormatOracle): Result<bool>
    decreases s, 1
  {
    if s.nullable.GetOr(false) && obj.Null? then Ok(true)
    else
      var n :- Len(obj);
      var length := s.length.GetOr(-1);
      var min := s.min.GetOr(-1);
      var max := s.max.GetOr(-1);
      if length > -1 && n != length then Ok(false)
      else if min > -1 && n < min then Ok(false)
      else if max > -1 && n > max then Ok(false)
      else if s.items.NoItems? || |s.items.elems| == 0 then Ok(true)
      else CheckElems(obj, s, 0, n, formats)
  }

  /** The loop over the elements, from element i on, against items[0]. */
  function CheckElems(obj: Value, s: SchemaNode, i: nat, n: nat, formats: FormatOracle): Result<bool>
    requires s.items.Items? && |s.items.elems| > 0
    requires Len(obj) == Ok(n) && i <= n
    decreases s, 0, n - i
  {
    if i == n then Ok(true)
    else
      var o :- ElemAt(obj, i);
      var item := s.items.elems[0];
      assert item < s by { assert item in s.items.elems; }
      if item.tag.None? then Err(KeyError)
      else if ItemMismatch(KindName(o), item.tag.value) then Ok(false)
      else if item.tag.value == "object" || item.tag.value == "array" then
        var sub :- Validate(o, item, formats);
        if sub != Some(true) then Ok(false) else CheckElems(obj, s, i + 1, n, formats)
      else CheckElems(obj, s, i + 1, n, formats)
  }
}
