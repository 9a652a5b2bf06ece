/** The Convex field validators the converter produces: a kind, a payload and
    an `isOptional` marker ("required" or "optional"). The constructors
    `v.string()`, `v.array(...)`, `v.union(...)`, ... of `convex/values` are the
    constructors of `Shape`; every one of them builds a "required" validator. */
module ConvexValidators {

  /** A literal value as `v.literal` and valibot's `literal` carry it. Numbers
      are kept as opaque text: the converter only passes them through. */
  datatype LiteralValue =
    | StringLit(s: string)
    | NumberLit(text: string)
    | BigintLit(i: int)
    | BooleanLit(b: bool)
    | SymbolLit(description: string)

  /** The `kind` discriminant of a Convex validator. */
  datatype Kind =
    | KString | KFloat64 | KBoolean | KInt64 | KLiteral | KBytes | KNull
    | KArray | KObject | KRecord | KUnion | KId | KAny

  /** A validator: its kind with its payload, and whether it is "optional"
      (`isOptional == true`) or "required" (`isOptional == false`). */
  datatype Validator = Validator(shape: Shape, isOptional: bool)

  datatype Shape =
    | VString
    | VFloat64
    | VBoolean
    | VInt64
    | VLiteral(literal: LiteralValue)
    | VBytes
    | VNull
    | VArray(element: Validator)
    | VObject(fields: seq<(string, Validator)>)
    | VRecord(key: Validator, value: Validator)
    | VUnion(members: seq<Validator>)
    | VId(tableName: string)
    | VAny

  function KindOf(v: Validator): Kind
  {
    match v.shape
    case VString => KString
    case VFloat64 => KFloat64
    case VBoolean => KBoolean
    case VInt64 => KInt64
    case VLiteral(_) => KLiteral
    case VBytes => KBytes
    case VNull => KNull
    case VArray(_) => KArray
    case VObject(_) => KObject
    case VRecord(_, _) => KRecord
    case VUnion(_) => KUnion
    case VId(_) => KId
    case VAny => KAny
  }

  /** What a `v.*` constructor returns: the shape, marked "required". */
  function Required(s: Shape): Validator
  {
    Validator(s, false)
  }

  /** `v.optional(x)`: the same kind and payload, marked "optional". */
  function MakeOptional(x: Validator): (r: Validator)
    ensures r.isOptional && r.shape == x.shape && KindOf(r) == KindOf(x)
  {
    x.(isOptional := true)
  }
}
