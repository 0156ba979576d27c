/**
 * A schema node as rickle's native validator reads it: a dict with a `type`
 * key, the optional `required`, `nullable` and `description` keys, the
 * `properties` of an object node, the `items` and `length`/`min`/`max`
 * bounds of an array node, and any further keys (such as `pattern` or the
 * options of a named format), kept in `params`. A missing key is None.
 */
module SchemaNodes {
  import opened Values

  /** The `properties` key: absent, or the property schemas in order. */
  datatype Props = NoProps | Props(entries: seq<(string, SchemaNode)>)

  /** The `items` key: absent, or the list of item schemas. */
  datatype Items = NoItems | Items(elems: seq<SchemaNode>)

  datatype SchemaNode = SchemaNode(
    tag: Option<string>,
    required: Option<bool>,
    nullable: Option<bool>,
    description: Option<Value>,
    properties: Props,
    items: Items,
    length: Option<int>,
    min: Option<int>,
    max: Option<int>,
    params: seq<(string, Value)>)

  /** The type names of JSON Schema that the validator checks natively. */
  predicate IsJsonSchemaType(t: string) {
    t == "string" || t == "integer" || t == "number" || t == "object"
    || t == "array" || t == "boolean" || t == "null"
  }

  /** A node holding only a `type` key. */
  function TypeOnly(t: string): (n: SchemaNode)
    ensures n.tag == Some(t)
  {
    SchemaNode(Some(t), None, None, None, NoProps, NoItems, None, None, None, [])
  }

  /** Schema(): the schema of a Schema object built without a definition, an
      empty dict. */
  const EmptySchema := SchemaNode(None, None, None, None, NoProps, NoItems, None, None, None, [])
}
