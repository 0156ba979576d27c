/**
 * Schema inference: extract_data_types replaces every leaf of a value with
 * its Python type, data_types_to_schema turns that type tree into a schema,
 * and Schema.generate_from_obj composes the two.
 */
module SchemaInference {
  import opened Values
  import opened NativeTypes
  import opened SchemaNodes

  /** The Python type objects extract_data_types puts at the leaves. */
  datatype PyType = StrType | BoolType | IntType | FloatType

  /** The result of extract_data_types: a type object per scalar leaf, None
      for a None leaf, and the lists and dicts of the input kept in shape. */
  datatype TypeTree =
    | Leaf(t: PyType)
    | NoneLeaf
    | ListOf(elems: seq<TypeTree>)
    | DictOf(entries: seq<(string, TypeTree)>)

  /** extract_data_types(value). The bool test comes before the int test, so
      a bool is tagged bool and never int. */
  function ExtractDataTypes(v: Value): (r: TypeTree)
    ensures v.List? <==> r.ListOf?
    ensures v.List? ==> |r.elems| == |v.items|
    ensures v.Map? <==> r.DictOf?
    ensures v.Map? ==> Keys(r.entries) == Keys(v.entries)
    ensures v.Null? <==> r == NoneLeaf
    ensures v.Bool? <==> r == Leaf(BoolType)
    ensures v.Int? <==> r == Leaf(IntType)
    ensures v.Float? <==> r == Leaf(FloatType)
    ensures v.Str? <==> r == Leaf(StrType)
  {
    match v
    case List(xs) => ListOf(seq(|xs|, i requires 0 <= i < |xs| => ExtractDataTypes(xs[i])))
    case Map(es) => DictOf(seq(|es|, i requires 0 <= i < |es| => (es[i].0, ExtractDataTypes(es[i].1))))
    case Str(_) => Leaf(StrType)
    case Bool(_) => Leaf(BoolType)
    case Int(_) => Leaf(IntType)
    case Float(_) => Leaf(FloatType)
    case Null => NoneLeaf
  }

  /** The Python type of an element of a type tree, as the list inference
      collects them: a type object stands for itself, a list for `list`, a
      dict for `dict` and None for `NoneType`. */
  datatype ElemKind = TypeKind(t: PyType) | ListKind | DictKind | NoneKind

  function KindOf(t: TypeTree): ElemKind {
    match t
    case Leaf(p) => TypeKind(p)
    case NoneLeaf => NoneKind
    case ListOf(_) => ListKind
    case DictOf(_) => DictKind
  }

  /** The set of element types has exactly one member. */
  predicate OneKind(elems: seq<TypeTree>) {
    |elems| > 0 && forall i :: 0 <= i < |elems| ==> KindOf(elems[i]) == KindOf(elems[0])
  }

  function TypeName(p: PyType): string {
    match p
    case StrType => "string"
    case BoolType => "boolean"
    case IntType => "integer"
    case FloatType => "number"
  }

  /** The dict data_types_to_schema starts from: only `type`, or `type` with
      required=False, nullable=True and description=None. */
  function NamedSchema(tag: string, ext: bool): SchemaNode {
    if ext then SchemaNode(Some(tag), Some(false), Some(true), Some(Null), NoProps, NoItems, None, None, None, [])
    else TypeOnly(tag)
  }

  /** data_types_to_schema(value, include_extended_properties). */
  function DataTypesToSchema(t: TypeTree, ext: bool): (n: SchemaNode)
    ensures n.tag.Some?
    ensures n.properties.Props? <==> t.DictOf?
    ensures n.items.Items? <==> t.ListOf?
  {
    match t
    case Leaf(p) => NamedSchema(TypeName(p), ext)
    case NoneLeaf => NamedSchema("null", ext)
    case DictOf(es) =>
      NamedSchema("object", ext).(properties := Props(
        seq(|es|, i requires 0 <= i < |es| => (es[i].0, DataTypesToSchema(es[i].1, ext)))))
    case ListOf(xs) =>
      var bounds := if ext then Some(-1) else None;
      var items :=
        if |xs| == 0 then []
        else if OneKind(xs) then [DataTypesToSchema(xs[0], ext)]
        else [NamedSchema("null", ext)];  // data_types_to_schema(None)
      NamedSchema("array", ext).(length := bounds, min := bounds, max := bounds, items := Items(items))
  }

  /** Schema.generate_from_obj(obj, include_extended_properties) for an object
      given as a value. The node's type is the JSON name of the value's kind,
      the name the validator compares it with. */
  function GenerateFromObj(obj: Value, ext: bool): (n: SchemaNode)
    ensures n.tag == Some(KindName(obj))
    ensures obj.Map? ==> n.properties.Props? && Keys(n.properties.entries) == Keys(obj.entries)
    ensures obj.List? ==> n.items.Items? && |n.items.elems| <= 1
    ensures obj.List? && obj.items == [] ==> n.items == Items([])
  {
    DataTypesToSchema(ExtractDataTypes(obj), ext)
  }
}
