/** The valibot schema descriptions the converter reads. A schema is a tagged
    node: its `type` string selects one variant of `Schema`, which carries the
    payload the converter reads for that type. */
module ValibotSchemas {
  import opened Outcomes
  import opened ConvexValidators

  /** The option values of `enum` and `picklist` schemas: strings, numbers
      and bigints, never symbols. */
  type EnumValue = l: LiteralValue | !l.SymbolLit? witness StringLit("")

  /** The `type` strings the converter's dispatch has a case for. */
  const DispatchedTypeNames: set<string> := {
    "string", "number", "nan", "boolean", "bigint", "literal", "instance", "null",
    "array", "object", "strict_object", "record", "union", "variant",
    "optional", "undefinedable", "non_optional", "nullable", "non_nullable", "nullish", "non_nullish",
    "enum", "picklist", "exact_optional",
    "blob", "file", "date", "function", "intersect", "lazy", "never", "promise", "undefined", "void"
  }

  /** A `type` string the dispatch has no case for, such as `custom`. */
  type UnknownTypeName = t: string | t !in DispatchedTypeNames witness "custom"

  /** A schema node as the converter sees it.
      - `hasKind`: the object has a `kind` property (every schema built by
        valibot has one; a bare `{type, expects}` descriptor has none), and
        only then is its metadata consulted;
      - `cvType`: a truthy value under the `_CV_T_` metadata key, a
        pre-built Convex validator;
      - `cvId`: a string under the `_CV_ID_` metadata key, a table name
        (a value of another type under that key is `None` here). */
  datatype Node = Node(schema: Schema, hasKind: bool, cvType: Option<Validator>, cvId: Option<string>)

  datatype Schema =
    | String
    | Number
    | Nan
    | Boolean
    | Bigint
    | Literal(literal: LiteralValue)
    | Instance(expects: Option<string>)
    | Null
    | Array(item: Node)
    | Object(entries: seq<(string, Node)>)
    | StrictObject(entries: seq<(string, Node)>)
    | Record(value: Node)
    | Union(options: seq<Node>)
    | Variant(options: seq<Node>)
    | Optional(wrapped: Node)
    | Undefinedable(wrapped: Node)
    | NonOptional(wrapped: Node)
    | Nullable(wrapped: Node)
    | NonNullable(wrapped: Node)
    | Nullish(wrapped: Node)
    | NonNullish(wrapped: Node)
    | Enum(values: seq<EnumValue>)
    | Picklist(values: seq<EnumValue>)
      /** The converter never reads the wrapped schema of `exact_optional`;
          the bare descriptor it builds for itself has none. */
    | ExactOptional(exactWrapped: Option<Node>)
    | Blob
    | File
    | Date
    | Function
    | Intersect
    | Lazy
    | Never
    | Promise
    | Undefined
    | Void
      /** Any `type` string not listed above, such as `custom`. */
    | Other(typeName: UnknownTypeName)

  /** The `type` string of a schema. */
  function TypeName(s: Schema): string
  {
    match s
    case String => "string"
    case Number => "number"
    case Nan => "nan"
    case Boolean => "boolean"
    case Bigint => "bigint"
    case Literal(_) => "literal"
    case Instance(_) => "instance"
    case Null => "null"
    case Array(_) => "array"
    case Object(_) => "object"
    case StrictObject(_) => "strict_object"
    case Record(_) => "record"
    case Union(_) => "union"
    case Variant(_) => "variant"
    case Optional(_) => "optional"
    case Undefinedable(_) => "undefinedable"
    case NonOptional(_) => "non_optional"
    case Nullable(_) => "nullable"
    case NonNullable(_) => "non_nullable"
    case Nullish(_) => "nullish"
    case NonNullish(_) => "non_nullish"
    case Enum(_) => "enum"
    case Picklist(_) => "picklist"
    case ExactOptional(_) => "exact_optional"
    case Blob => "blob"
    case File => "file"
    case Date => "date"
    case Function => "function"
    case Intersect => "intersect"
    case Lazy => "lazy"
    case Never => "never"
    case Promise => "promise"
    case Undefined => "undefined"
    case Void => "void"
    case Other(t) => t
  }

  /** The dispatched names belong to the listed variants, and only `Other`
      carries any other name. */
  lemma TypeNameSelectsVariant(s: Schema)
    ensures s.Other? <==> TypeName(s) !in DispatchedTypeNames
  {
  }

  /** A schema built by valibot, without metadata. */
  function Valibot(s: Schema): Node
  {
    Node(s, true, None, None)
  }

  /** A bare `{type, ...}` descriptor: no `kind` property, so no metadata. */
  function Bare(s: Schema): Node
  {
    Node(s, false, None, None)
  }

  /** `convexId(tableName)`: a `custom` schema piped into metadata that
      records the table name under `_CV_ID_`. The custom check that the
      value is a string is part of valibot's validation, not of the schema
      description the converter reads. */
  function ConvexId(tableName: string): (r: Node)
    ensures r.hasKind && r.cvType == None && r.cvId == Some(tableName)
    ensures TypeName(r.schema) == "custom"
  {
    Node(Other("custom"), true, None, Some(tableName))
  }
}
