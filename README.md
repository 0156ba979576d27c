# rickle core in Dafny

A model of the deterministic core of rickle, a Python toolkit for YAML, JSON,
TOML, INI and .env configuration documents, with proofs about it. Three parts
are covered.

- **Schema inference and the native validator** (`rickle/schema.py`).
  - `extract_data_types` and `data_types_to_schema` derive a schema from a
    sample value; `Schema.generate_from_obj` composes them.
  - `schema_validation`/`_check_type` check a value against a schema. The
    walk is fail-fast and answers True, False, or None when the root type is
    neither "object" nor "array". Malformed schemas raise.
  - `validate_files` is modelled as the selection of the files that fail.
- **The path codec** (`rickle/tools.py`).
  - `flatten_dict` turns a nested dict into a flat dict keyed by
    separator-joined paths, with list indices written in brackets.
  - `inflate_dict` rebuilds the nested structure from such keys. It works on
    an arena of mutable Python containers, with a cursor and a cache of
    created lists and dicts keyed by their '/'-joined path.
  - `inflate_dict(flatten_dict(d)) == d` is proved for every dict whose
    keys read back as themselves and which holds no empty dict or list
    (`InflateRoundTrip.RoundTrip`).
  - `unparse_ini` and `parse_ini` group flat keys into INI sections and
    read them back.
- **Helpers the serialisers and the validator use** (`rickle/tools.py`):
  `toml_null_stripper` and `get_native_type_name`.

Python values are the datatype `Values.Value`. A dict is an association list
that keeps insertion order. A float is opaque: it carries only its `str()`
text. Errors Python raises are `Err(ValueError)`, `Err(KeyError)`,
`Err(TypeError)`, `Err(AttributeError)` of a `Result`. `UnrepresentableKey`
marks the one place where Python would store an int key in a dict, which the
string-keyed model cannot hold.

Where the code works step by step, the model is imperative and is proved
equal to a specification function:

- `Flatten.FlattenDict` collects the helper's pairs into a dict.
- `InflateArena.InflateDict`, `InflateArena.InsertPair` and
  `InflateArena.Down` walk the arena.
- `Ini.UnparseIni` fills the section dict.
- `Ini.ParseIni` rebuilds the flat keys.
- `Batch.ValidateFiles` collects the failures.

Everything else is functions and lemmas.

Named formats (email, url, ip, dates, hashes …) and the regular-expression
engine are an oracle parameter `formats` of the validator. The validator
itself raises the errors of the `regex` tag that do not depend on the engine:
a missing `pattern` (KeyError) and a non-string value or pattern (TypeError).

## Model

| member | source | states |
|---|---|---|
| NativeTypes.GetNativeTypeName | rickle/tools.py:216-293 | Raises ValueError exactly when the lowered, stripped format is not one of yaml, json, toml, xml, ini, env, python. For ini, env and python it returns the stripped type name. |
| NativeTypes.JsonFormat | rickle/tools.py:284-285 | The "json" format is a lookup of the stripped name in the JSON table. The fallback is the default when it is truthy, else "object". |
| NativeTypes.JsonTableOfValue | rickle/tools.py:245-256 | The JSON table maps the Python type name of every value kind to its JSON-Schema name: str→string, int→integer, float→number, bool→boolean, list→array, dict→object, NoneType→null. |
| NativeTypes.JsonNameOfValue | rickle/tools.py:228-285 | For every value, get_native_type_name(type(v).__name__, "json") is the value's JSON-Schema kind name. |
| NativeTypes.JsonUnmappedName | rickle/tools.py:285 | A name missing from the JSON table yields the default when it is non-empty, else "object". |
| SchemaInference.ExtractDataTypes | rickle/schema.py:24-42 | Keeps the input's shape: list to list of the same length, dict to dict with the same keys in order. Each scalar becomes its type tag, and a bool is tagged bool, never int. |
| SchemaInference.DataTypesToSchema | rickle/schema.py:44-89 | Every generated node has a type. It has `properties` exactly for a dict and `items` exactly for a list. |
| SchemaInference.GenerateFromObj | rickle/schema.py:240-259 | The root type is the JSON kind name of the sample. A dict gives one property per key, in order. A list gives at most one item schema, and none for an empty list. |
| InferenceProperties.EveryNodeOfTree | rickle/schema.py:45-48 | Every node of a schema built from a type tree carries required=false, nullable=true and description=null with extended properties, and none of them without. Array nodes also carry length=min=max=-1 with extended properties. |
| InferenceProperties.GeneratedNodesCarryExtendedKeys | rickle/schema.py:75-78 | The same holds for every node of generate_from_obj's schema. |
| InferenceProperties.KindOfExtract | rickle/schema.py:81 | Two elements count as one type in the list inference iff their Python type names are equal, so all dicts or all lists are one type whatever their contents. |
| InferenceProperties.ArrayInference | rickle/schema.py:80-89 | An empty list gives empty items. A list of one Python type gives the schema of element 0. A list of mixed types gives the single item {type: "null"}. |
| InferenceProperties.GenerateFromObjExample | tests/unittest/test_schema_tool.py:324-355 | Without extended properties, the config sample yields exactly the nested object schema with string, string, number leaves. |
| InferenceProperties.KindNameKey | rickle/schema.py:309 | A kind name is a JSON-Schema type name and is unchanged by lowering and stripping. |
| InferenceProperties.GeneratedTypeCheck | rickle/schema.py:492-509 | A value passes the type check of the schema generated from it, nullable or not. |
| InferenceProperties.GeneratedSchemaAcceptsSample | rickle/schema.py:512-587 | A dict or list with distinct keys, in which every list element has the same type tree as the first, is accepted by the schema generated from it. |
| InferenceProperties.GeneratedProperty | rickle/schema.py:65-71 | Property i of the schema generated from a dict is that dict's key i with the schema of its value. |
| InferenceProperties.PropertyPasses | rickle/schema.py:513-535 | Each property of a generated object schema passes on the sample it came from. |
| InferenceProperties.ElementPasses | rickle/schema.py:573-586 | Each element of a homogeneous list passes against the generated item schema. |
| InferenceProperties.ScalarRootYieldsNone | rickle/schema.py:512-589 | A schema generated from a scalar has a root type other than object and array, so validating any value returns None. |
| InferenceProperties.MixedItemsAcceptOnlyNulls | rickle/schema.py:83-85 | The {type: "null"} item schema of a mixed list accepts a list iff all its elements are null. |
| InferenceProperties.FirstNonNull | rickle/schema.py:573-582 | Given a non-null element, returns the first position holding one, with only nulls before it. |
| InferenceProperties.MixedListRejected | rickle/schema.py:83-85 | A dict holding a list of mixed types under one key is rejected by the schema generated from it: the list gets item type "null", and some element is not null. |
| InferenceProperties.MixedSampleRejected | rickle/schema.py:83-85 | The schema generated from {"a": [1, "x"]} rejects that same sample. |
| SchemaValidation.TagGroupsDisjoint | rickle/schema.py:313-497 | The JSON-Schema names, "any", "regex" and the named formats are disjoint groups of tags. |
| SchemaValidation.KindMatches | rickle/schema.py:492-497 | For a JSON-Schema tag, a value matches iff its kind name equals the tag, or it is an integer under "number". A tag in no group never matches. |
| SchemaValidation.CheckType | rickle/schema.py:305-509 | A node without a type raises ValueError. Otherwise an error of the kind test is passed on. Else it accepts iff (nullable ∧ (type="any" ∨ value is null)) ∨ (nullable ∧ type≠"any" ∧ match) ∨ (¬nullable ∧ (type="any" ∨ match)). |
| SchemaValidation.CheckTypeRule | rickle/schema.py:499-509 | The three cases collapse to: accepted iff the type is "any", or the kind matches, or nullable and the value is null. |
| SchemaValidation.Len | rickle/schema.py:547 | len() of a list, dict or string is its length; of any other value it raises TypeError. |
| SchemaValidation.Validate | rickle/schema.py:298-589 | A node without a type raises ValueError. An object node without properties raises KeyError. A root type other than "object" or "array" returns None. Object and array nodes give True, False or an error. |
| ValidationProperties.FirstFailureSpec | rickle/schema.py:513-536 | An early-exit run of checks passes iff all pass. It fails iff some check fails with all before it passing, and it raises e iff some check raises e with all before it passing. |
| ValidationProperties.CheckPropsIsFirstFailure | rickle/schema.py:513-536 | The property loop is the early-exit run of the per-property verdicts, in declaration order. |
| ValidationProperties.ObjectNode | rickle/schema.py:512-536 | An object node passes iff every property passes, fails at the first failing property, and raises at the first raising one. |
| ValidationProperties.CheckElemsIsFirstFailure | rickle/schema.py:573-586 | The element loop is the early-exit run of the per-element verdicts against items[0]. |
| ValidationProperties.ArrayNode | rickle/schema.py:544-587 | A list outside the length, min or max bound (each skipped at -1) fails. Within them, no items or empty items passes. Otherwise the verdict is the first-failure run over the elements. |
| ValidationProperties.ArrayNodeNull | rickle/schema.py:539-547 | A nullable array node accepts null. A non-nullable one raises TypeError from len(None). |
| ValidationProperties.PlainTypeKey | rickle/schema.py:309 | A lower-case tag is its own lowered, stripped form. |
| ValidationProperties.TypeKeyOfCapitalisedTag | rickle/schema.py:309 | "Object" lowers to "object" for the type check. |
| ValidationProperties.NumericKinds | rickle/schema.py:492-497 | An integer matches "number". A float and a bool never match "integer". |
| ValidationProperties.IntegerSatisfiesNumber | rickle/schema.py:494-495 | At property level an integer passes "number", nullable or not. |
| ValidationProperties.FloatNeverInteger | rickle/schema.py:492-509 | A float fails "integer", nullable or not. |
| ValidationProperties.BoolNeverInteger | rickle/schema.py:492-509 | A bool fails "integer", nullable or not. |
| ValidationProperties.AnyAcceptsEverything | rickle/schema.py:499-501 | "any" accepts every value, with or without nullable. |
| ValidationProperties.UnknownTagNeverMatches | rickle/schema.py:499-509 | A tag in no group accepts only null, and only under nullable. |
| ValidationProperties.NullAgainstJsonTypes | rickle/schema.py:492-509 | Under a JSON-Schema type, null passes iff nullable or the type is "null". |
| ValidationProperties.NullableRegexNullRaises | rickle/schema.py:313-316 | A nullable regex property holding null raises TypeError: the match runs before the nullable rule. |
| ValidationProperties.RegexWithoutPatternRaises | rickle/schema.py:314 | A regex node without a pattern raises KeyError whatever the value. |
| ValidationProperties.ItemMismatchIsKindInequality | rickle/schema.py:577-578 | The element failure test is "item type is not any and differs from the element kind"; the integer-under-number disjunct adds nothing. |
| ValidationProperties.IntegerFailsUnderNumberItems | rickle/schema.py:576-578 | An integer element fails under "number" items, and a float element passes. |
| ValidationProperties.ItemsIgnoreNullable | rickle/schema.py:573-582 | A null element fails under every item type except "any" and "null", nullable or not. |
| ValidationProperties.NonJsonItemTypeMatchesNothing | rickle/schema.py:576-578 | An item type that is not a JSON kind name (a named format, "regex", a capitalised tag) fails every element. |
| ValidationProperties.PropertyWithoutType | rickle/schema.py:307-308 | A present property without a type raises ValueError. An absent, non-required one is skipped. |
| ValidationProperties.NullableObjectHoldingNull | rickle/schema.py:517-534 | A nullable object property holding null passes the type check and then recurses: it raises AttributeError when the sub-schema has properties and passes when it has none. |
| ValidationProperties.RawTagSkipsRecursion | rickle/schema.py:528-535 | A property whose tag only lowers to "object" (such as "Object") passes the type check but is not recursed into. |
| SchemaExamples.PrimitivesMissingRequired | tests/unittest/test_schema_tool.py:259-263 | The primitives schema rejects a document missing the required "A". |
| SchemaExamples.PrimitivesNullInteger | tests/unittest/test_schema_tool.py:278-281 | The primitives schema rejects a null "A" that is not nullable. |
| SchemaExamples.NullIntegerFails | rickle/schema.py:515-530 | A required, non-nullable integer property holding null fails. |
| SchemaExamples.ScalarTypeCheck | rickle/schema.py:492-509 | A value whose kind the JSON-Schema tag names passes the type check. |
| Batch.Failures | rickle/schema.py:98-105 | The failures list is never longer than the input list. |
| Batch.FailuresExact | rickle/schema.py:100-114 | A file is reported iff it is an input and validate returned False or None. A passing file, or one whose validation raised, is not reported. |
| Batch.FailuresConcat | rickle/schema.py:100-114 | Files are judged one by one: the failures of a + b are those of a followed by those of b. |
| Batch.ValidateFiles | rickle/schema.py:91-126 | The loop returns exactly the failures, in input order. |
| TomlStrip.TomlNullStripper | rickle/tools.py:376-411 | A scalar input raises TypeError. A dict gives a dict and a list gives a list. |
| TomlStrip.StripValue | rickle/tools.py:386-409 | Stripping keeps the kind of a value. A scalar is left as it is. |
| TomlStrip.StripMember | rickle/tools.py:402-405 | A list member keeps its kind, and a nested list keeps its length. |
| TomlStrip.DropBlankEntriesSpec | rickle/tools.py:389-395 | The kept pairs are an order-preserving subsequence, holding exactly the pairs whose value is not "", None or {}. |
| TomlStrip.DropBlankItemsSpec | rickle/tools.py:401-407 | The kept members are an order-preserving subsequence: each member that is "", None or {} occurs zero times, and every other member occurs as many times as in the input, duplicates included. |
| TomlStrip.StrippedDict | rickle/tools.py:386-397 | The dict branch keeps surviving keys in their order, each with its stripped value. A value that is blank after stripping is dropped. |
| TomlStrip.StrippedList | rickle/tools.py:398-409 | The list branch keeps the surviving stripped members in order, each as many times as it occurs, and drops the blank ones. |
| TomlStrip.FalsyScalarsKept | rickle/tools.py:394 | 0, False and [] survive. |
| TomlStrip.BlankValuesDropped | rickle/tools.py:390-395 | "", None, {} and a dict that empties out are dropped. |
| TomlStrip.NestedListKeepsBlanks | rickle/tools.py:404-405 | The null scalars of a list inside a list survive. |
| TomlStrip.ScalarRejected | rickle/tools.py:410-411 | A string or None input raises TypeError. |
| TomlStrip.StripIdempotent | rickle/tools.py:376-411 | Stripping a stripped value changes nothing. |
| Paths.DigitRun | rickle/tools.py:695-697 | Measures the maximal run of ASCII digits at a position. |
| Paths.ParseSeg | rickle/tools.py:694-701 | A piece is an index iff the prefix-anchored pattern open-bracket, digits, close-bracket matches. The index is the value of the digits. Any other piece is a dict key holding the piece unchanged. |
| Paths.Unravel | rickle/tools.py:687-703 | One leading separator is dropped, the rest is split on the separator, and each piece becomes one segment. |
| Paths.UnravelJoin | rickle/tools.py:689-703 | Pieces free of separator characters, joined by the separator, unravel piece by piece. |
| Paths.ParseIndexText | rickle/tools.py:695-699 | The bracketed text of an index reads back as that index. |
| Paths.ParseKeyText | rickle/tools.py:700-701 | A key not starting with an index pattern reads back as itself. |
| Paths.IndexTextInjective | rickle/tools.py:656 | Different indices have different bracketed texts. |
| Flatten.FlattenFromLeaves | rickle/tools.py:640-663 | The recursive helper emits the scalar leaves depth first, in order, each keyed by the parent path and its segments. |
| Flatten.FlatPairs | rickle/tools.py:640-669 | One pair per scalar leaf, in order. Each key is the separator-joined path with leading separator characters stripped, and each value is the leaf. |
| Flatten.HelperPairs | rickle/tools.py:665-669 | The helper's pairs with leading separator characters stripped are the flat pairs. |
| Flatten.FlattenDict | rickle/tools.py:625-670 | flatten_dict's loop stores the flat pairs into a dict, later keys overwriting earlier ones. |
| FlattenProperties.LeavesSound | rickle/tools.py:640-663 | Every leaf has a non-empty path that leads to its value in the input, and that value is a scalar. |
| FlattenProperties.LeavesComplete | rickle/tools.py:640-663 | Every non-empty path leading to a scalar, None included, is the path of a leaf. |
| FlattenProperties.OneEntryPerLeaf | rickle/tools.py:665-670 | When flat keys do not repeat, the flat dict has exactly one entry per leaf, in depth-first order. |
| FlattenProperties.EmptyContainersVanish | rickle/tools.py:643-663 | Empty dicts and lists contribute no pair. |
| FlattenProperties.SeparatorBeforeIndex | rickle/tools.py:656-662 | With separator ".", {"a": [1]} flattens to "a.(0)". |
| FlattenProperties.LeadingSeparatorCharsStripped | rickle/tools.py:669 | lstrip removes every leading separator character: the key "/x" under "/" becomes "x". |
| FlattenProperties.LeafValuesScalar | rickle/tools.py:651-662 | Every leaf value is a scalar. |
| FlattenProperties.FlatDictShape | rickle/tools.py:665-670 | The dict flatten_dict returns has distinct keys, no key starting with the separator, and scalar values. |
| FlattenProperties.FlatDict | rickle/tools.py:625-670 | The same shape, as the function the INI model builds on. |
| InflateArena.FindKey | rickle/tools.py:716 | Finds the position of a key in a dict, or reports that it is absent. |
| InflateArena.SetKey | rickle/tools.py:736 | d[k] = v: a present key keeps its place, an absent key is appended. |
| InflateArena.ListInsert | rickle/tools.py:732-738 | list.insert(i, x) for i >= 0: at position i, or appended when i is at or past the end. |
| InflateArena.Intern | rickle/tools.py:736-738 | Copying a value into the arena keeps the arena well formed and only adds containers after the existing ones. A scalar is stored as itself. |
| InflateArena.Descend | rickle/tools.py:714-733 | An intermediate step keeps the arena valid and the cursor inside it, and never removes containers. |
| InflateArena.Place | rickle/tools.py:735-738 | The final store keeps the arena valid. |
| InflateArena.Walk | rickle/tools.py:712-738 | The walk of one key keeps the arena valid. |
| InflateArena.InsertFrom | rickle/tools.py:709-738 | Inserting the flat pairs one after the other keeps the arena valid. |
| InflateArena.Down | rickle/tools.py:714-733 | One pass of the inner loop is the specified step. |
| InflateArena.InsertPair | rickle/tools.py:712-738 | The inner loop and the store are the specified walk. |
| InflateArena.InflateDict | rickle/tools.py:673-740 | The loops compute the specified inflation, and the result, when there is one, is a dict. |
| InflateRoundTrip.RoundTrip | rickle/tools.py:625-740 | inflate_dict(flatten_dict(d, sep, br), sep, br) == d for every dict d with distinct keys when every key is non-empty, has no separator character and no '/', does not start with the index pattern, d holds no empty dict or list, and the separator has no digit and no bracket. |
| InflateRoundTrip.RoundTripDotParens | rickle/tools.py:625-740 | The round trip with the default brackets ( ) and "." as the separator. |
| InflateRoundTrip.RoundTripColonSquare | rickle/tools.py:625-740 | The round trip with brackets [ ] and ":" as the separator. |
| InflateRoundTrip.RoundTripServer | rickle/tools.py:625-740 | {"server": {"host": "db", "ports": [80, {"tls": true}]}, "debug": None} flattens and inflates back to itself. |
| InflateRoundTrip.LeavesFacts | rickle/tools.py:640-663 | For such a value, every leaf path is non-empty, its keys fit, its head has the kind of the root, and no two leaves share a path. |
| InflateRoundTrip.PathTextJoin | rickle/tools.py:646-662 | The key the helper builds for a path is the separator, then the segment texts joined by the separator. |
| InflateRoundTrip.StripLeading | rickle/tools.py:669 | lstrip of the separator's characters removes exactly the leading separator when the next character is not one of them. |
| InflateRoundTrip.UnravelLeaf | rickle/tools.py:687-703 | unravel of a leaf's flat key, after lstrip, gives back the leaf's path. |
| InflateRoundTrip.FlatKeysDistinct | rickle/tools.py:665-670 | flatten_dict produces no flat key twice for such a dict, so the flat dict holds every leaf. |
| InflateRoundTrip.InsertFromWalkAll | rickle/tools.py:709-712 | Inserting flat pairs whose keys unravel to the leaf paths is storing those paths in order. |
| InflateRoundTrip.WalkFollow | rickle/tools.py:714-733 | The inner loop passes along a path that already exists without changing the arena. |
| InflateRoundTrip.CreateMember | rickle/tools.py:715-733 | The first key below a new member creates the member's container, empty and of the next segment's kind, caches it when it sits in a list, and the walk goes on from there. |
| InflateRoundTrip.PlaceLeaf | rickle/tools.py:735-738 | A scalar under a new dict key is appended to the dict; at the next list index it is appended to the list. |
| InflateRoundTrip.SiblingKeysApart | rickle/tools.py:721-731 | The cache paths the members of a container create never collide, so no lookup finds another member's container. |
| InflateRoundTrip.BuildMember | rickle/tools.py:709-738 | Storing the leaves of one member appends the member, complete, to its container and adds exactly its cache paths. |
| InflateRoundTrip.BuildFrom | rickle/tools.py:709-738 | Storing the leaves of members i onwards completes the container, which then reads back as the value. |
| InflateRoundTrip.BuildRoot | rickle/tools.py:705-740 | Storing the leaves of d into a fresh main_d rebuilds d. |
| InflateProperties.MaterializeFrame | rickle/tools.py:705-740 | A container reads the same in any arena that agrees from its position on, since it refers only to later containers. |
| InflateProperties.InternDenotes | rickle/tools.py:736-738 | A value copied into the arena reads back as itself. |
| InflateExamples.InflateShallow | rickle/tools.py:709-740 | Keys without separator characters that are not index patterns inflate to the same dict. |
| InflateCases.ListPlacementByInsert | rickle/tools.py:719-738 | {"a.(1)": 1, "a.(0)": 2} inflates to {"a": [2, 1]}, as list.insert places them. |
| InflateCases.KeyIntoListRaises | rickle/tools.py:737-738 | {"a.(0)": 1, "a.b": 2} raises TypeError: the last key segment lands in the list "a", and list.insert rejects a string index. |
| InflateCases.IndexIntoDictRaises | rickle/tools.py:719-732 | An index segment that reaches a dict in the middle of a path raises AttributeError, from dict.insert. |
| InflateCases.IndexLeafInDictUnrepresentable | rickle/tools.py:735-736 | A last index segment landing in a dict would store an int key. |
| InflateCases.PathBelowScalarIgnored | rickle/tools.py:714-738 | A path that continues below a stored scalar stores nothing. |
| Ini.PyStr | rickle/tools.py:618 | str(v) of a string is the string. Of an int it is its decimal digits, with a leading '-' when negative, and the digits read back as the int. |
| Ini.SectionOf | rickle/tools.py:615-617 | The section is never empty: the separator stands in for an empty one. |
| Ini.SectionOptionJoin | rickle/tools.py:591-618 | A key with a separator is cut into a section other than the separator, and rejoining gives the key back. |
| Ini.RebuildAsWritten | rickle/tools.py:591-618 | parse_ini rebuilds a flat key iff it contains the separator. A top-level key k comes back as sep+sep+k. |
| Ini.RebuildFixed | rickle/tools.py:591-618 | The corrected rebuild gives back every key that does not start with the separator. |
| Ini.SectionOptionInjective | rickle/tools.py:615-618 | No two such keys share a section and an option. |
| Ini.GroupIntoHolds | rickle/tools.py:618 | ini_dict[sect][opt] = text sets that entry and leaves all others as they were. |
| Ini.GroupAllComplete | rickle/tools.py:614-618 | When no two pairs share a section and an option, every pair is in the grouped sections. |
| Ini.GroupAllSound | rickle/tools.py:614-618 | Every entry of the grouped sections was there before or comes from one pair. |
| Ini.UnparseIniSections | rickle/tools.py:611-618 | The sections of a flattened dict hold every flat pair, under its section and option with its str() text, and nothing else. |
| Ini.UnparseIni | rickle/tools.py:599-618 | The loop builds the grouped sections of the flattened dict. |
| Ini.GroupAllDistinct | rickle/tools.py:613-618 | Section names stay distinct, and so do the options of each section. |
| Ini.OptionPairs | rickle/tools.py:593-594 | One flat pair per option of a section, in order, keyed by the rebuilt key, with a string value. |
| Ini.IniPairsHas | rickle/tools.py:592-594 | Every option of every section gives a flat pair. |
| Ini.IniPairsFrom | rickle/tools.py:592-594 | Every flat pair comes from an option of a section. |
| Ini.ParseIni | rickle/tools.py:570-597 | The nested loops store the rebuilt flat pairs into a dict and inflate it. The result, when there is one, is a dict. |
| Ini.IniPairsAgree | rickle/tools.py:591-597 | The corrected rebuild yields the same flat pairs as parse_ini's own whenever no section is named by the separator. |
| Ini.ParseIniFixed | rickle/tools.py:570-597 | The corrected parse_ini gives a dict when it succeeds, and gives the same result as parse_ini whenever no section is named by the separator. |
| Ini.RebuiltFrom | rickle/tools.py:591-594 | With the corrected rebuild, every pair read back is a flat pair with its str() text. |
| Ini.RebuiltHas | rickle/tools.py:591-594 | With the corrected rebuild, every flat pair is read back. |
| Ini.RoundTripFlat | rickle/tools.py:591-618 | With the corrected rebuild, reading back the sections of a flat dict gives every key with its str() text and no other key. |
| Ini.RoundTripFixed | rickle/tools.py:570-623 | For every dict, the corrected parse_ini(unparse_ini(d)), before inflating, holds exactly the keys of flatten_dict(d), each with its str() text. |
| IniCases.TopLevelKeyNested | rickle/tools.py:591-618 | As written, {"x": 1} comes back from parse_ini(unparse_ini(...)) as {"": {"x": "1"}}. |
| IniCases.TopLevelKeyFixed | rickle/tools.py:591-618 | With the corrected rebuild, {"x": 1} comes back as {"x": "1"}. |

## Left out

- Environment variables (RICKLE_INI_PATH_SEP, RICKLE_INI_OPENING_BRACES, RICKLE_INI_CLOSING_BRACES, RICKLE_PATH_SEP) and the `None` defaults of `path_sep` and `list_brackets`: the separator and brackets are explicit parameters.
- The separator is a non-empty string, and each bracket is one character that is neither an ASCII letter nor a digit. Other brackets change the meaning of the escaped regular expression and are not modelled.
- The index pattern uses `\d`, which in Python also matches non-ASCII digits; the model reads ASCII digits only.
- ConfigParser's own behaviour is not modelled: option-name lower-casing, the DEFAULT section, interpolation, duplicate checks, `read_dict` and `write`. An INI document is the dict of sections `unparse_ini` hands to `read_dict` and `parse_ini` reads back from `config[section]`.
- `Schema.validate` with `use_json_schema` delegates to the jsonschema package and is not modelled.
- Named formats and the `re` engine (rickle/schema.py:317-490 and the match at 315) are the oracle `formats`; their own meaning is not modelled.
- Floats are opaque: the model keeps only their kind and their `str()` text.
- `str(v)` of a float, a bool and None is only given as its text (`Values.Float`'s repr, "True", "False", "None"); `Ini.PyStr` proves properties of strings and ints only.
- Reading files, printing, the verbose diagnostics and the `new_path` bookkeeping are not modelled. `validate_files` creating `output_dir` and moving the failed files into it is not modelled either.
- Batch.ValidateFiles: reading and validating one file is an oracle `check`, so the model does not tie a file to `Schema.validate` on its contents.
- Schema fields of the wrong Python type are not modelled: a non-string `type`, a non-bool `required` or `nullable`, non-int bounds, and non-dict `properties` or `items` entries.
- InflateArena.InflateDict: a container value of the flat dict is copied into the arena. The aliasing of the caller's objects, which Python mutates through later keys, is not modelled.
- The `lists` and `dicts` caches of `inflate_dict` are merged into one map from path to container. Python checks `lists` first and then `dicts`; a path is only ever added to one of them, so the lookups agree.
- The cache path joins segments with '/', so a key containing '/' can share a cache path with a different key ("a/b.(0).c" and "a.b.(0).d" both give "a/b/0"). The model reproduces this as written; no corrected variant is given.
- A last index segment that lands in a dict stores an int key in Python. The string-keyed model reports it as `UnrepresentableKey`, as `InflateCases.IndexLeafInDictUnrepresentable` shows.
- InflateArena.InflateDict: the round trip is proved only for dicts whose keys are non-empty, contain no separator character and no '/', and do not start with the index pattern, and which hold no empty dict or list, with a separator free of digits and brackets (`InflateRoundTrip.RoundTrip`). These conditions are sufficient, not necessary, and the model does not characterise exactly when the round trip fails. Several of them are needed by the source: with "." as the separator, {"a": {}} comes back as {}, {"a.b": 1} as {"a": {"b": 1}}, and {"": {"b": 1}} as {"b": 1} because lstrip also removes the separator after the empty key, while {"(0)": 1} reads its key back as an index.
- Text.Lower: models str.lower() on ASCII letters only. No decision depends on the difference: U+212A is the only non-ASCII character Python lowers to an ASCII letter ('k'), and no JSON type name, named format or format name contains 'k'.
- `Schema.generate_from_obj` given a file name or a serialised string reads and parses it first. Only the object path is modelled.
- InflateArena.Walk, InflateArena.InsertFrom: their own contracts state only that the arena stays valid. What they compute is stated by the lemmas about them: `InflateRoundTrip.WalkFollow`, `CreateMember`, `PlaceLeaf` and `RoundTrip` in general, and the concrete lemmas of `InflateCases`, `InflateExamples.InflateShallow` and `IniCases`.

## Findings

| source | as written | input that shows it | evidently intended | confidence | as-written member | corrected member |
|---|---|---|---|---|---|---|
| rickle/tools.py:594 | `unparse_ini` puts a top-level key in the section named by the separator, and `parse_ini` rebuilds every key as section + separator + option | `parse_ini(unparse_ini({"x": 1}))` with separator "." gives `{"": {"x": "1"}}` | the separator section holds top-level keys, so its options come back without a section prefix, giving `{"x": "1"}` | not executed | Ini.RebuildAsWritten, IniCases.TopLevelKeyNested | Ini.RebuildFixed, Ini.ParseIniFixed, Ini.RoundTripFixed, IniCases.TopLevelKeyFixed |
