/** `valibotToConvex`: converts a valibot schema description into a Convex
    field validator, or fails. It is a single recursive dispatch on the
    schema's `type`, preceded by a metadata check on full schema objects. */
module SchemaValidation {
  import opened Outcomes
  import opened ConvexValidators
  import opened ValibotSchemas
  import opened Unions

  /** The optional second argument: three flags, each false when absent. */
  datatype Options = Options(inNonNullable: bool, inNonNullish: bool, inNonOptional: bool)

  /** No second argument. Every recursive call except those of the `non_*`
      cases passes none. */
  const NoOptions := Options(false, false, false)

  const SymbolLiteralMessage := "Convex doesn't support symbols as literals"
  const BlobMessage := "Blob is not supported: store the file in the Convex storage."
  const FileMessage := "File is not supported: store the file in the Convex storage."
  const DateMessage := "Date can be saved in Convex either as a string or as a number."
  const FunctionMessage := "Function is not supported."
  const IntersectMessage := "Not supported : use object merging."
  const LazyMessage := "Lazy schemas are not supported."
  const NeverMessage := "Never is not supported."
  const PromiseMessage := "Promise is not supported."
  const VoidMessage := "Void schema is not supported."

  /** The message for an instance schema whose class is not `ArrayBuffer`; a
      missing `expects` is interpolated as "undefined". */
  function InstanceMessage(expects: Option<string>): string
  {
    "Unsupported instance type: " + match expects case Some(e) => e case None => "undefined"
  }

  /** `ensureRequired`: a type-level cast that returns its argument, so an
      "optional" validator stays "optional". */
  function EnsureRequired(x: Validator): (r: Validator)
    ensures r.shape == x.shape && r.isOptional == x.isOptional
  {
    x
  }

  /** The metadata short-circuit: a full schema object (one with `kind`)
      tagged with a validator yields that validator; one tagged with a
      non-empty table name yields `v.id(tableName)`. */
  predicate ShortCircuits(n: Node)
  {
    n.hasKind && (n.cvType.Some? || (n.cvId.Some? && n.cvId.value != ""))
  }

  /** The bare descriptor `{type: schema.type}` that the `exact_optional`
      case passes back to the converter. */
  function ExactOptionalRedispatch(n: Node): Node
  {
    Bare(ExactOptional(None))
  }

  /** `valibotToConvex(schema, options)`. The metadata check, then the
      dispatch on `type`; its cases are grouped as the source lists them. */
  function Convert(n: Node, opts: Options): (r: Outcome<Validator>)
    ensures ShortCircuits(n) ==> r.Ok?
    decreases n, 1
  {
    if n.hasKind && n.cvType.Some? then Ok(n.cvType.value)
    else if n.hasKind && n.cvId.Some? && n.cvId.value != "" then Ok(Required(VId(n.cvId.value)))
    else
      match n.schema
      case String | Number | Nan | Boolean | Bigint | Literal(_) | Instance(_) | Null => ConvertScalar(n.schema)
      case Array(_) | Object(_) | StrictObject(_) | Record(_) | Union(_) => ConvertComposite(n)
      case Optional(_) | Undefinedable(_) | NonOptional(_) | Nullable(_) | NonNullable(_) | Nullish(_) | NonNullish(_) =>
        ConvertModifier(n, opts)
      case _ => ConvertRest(n)
  }

  /** The scalar cases: no recursion. */
  function ConvertScalar(s: Schema): Outcome<Validator>
    requires s.String? || s.Number? || s.Nan? || s.Boolean? || s.Bigint? || s.Literal? || s.Instance? || s.Null?
  {
    match s
    case String => Ok(Required(VString))
    case Number | Nan => Ok(Required(VFloat64))
    case Boolean => Ok(Required(VBoolean))
    case Bigint => Ok(Required(VInt64))
    case Literal(lit) =>
      if lit.SymbolLit? then Fail(Thrown(PlainError, SymbolLiteralMessage))
      else Ok(Required(VLiteral(lit)))
    case Instance(expects) =>
      if expects == Some("ArrayBuffer") then Ok(Required(VBytes))
      else Fail(Thrown(ConvexError, InstanceMessage(expects)))
    case Null => Ok(Required(VNull))
  }

  /** Array, object, record and union: the children are converted with no
      options. */
  function ConvertComposite(n: Node): Outcome<Validator>
    requires n.schema.Array? || n.schema.Object? || n.schema.StrictObject? || n.schema.Record? || n.schema.Union?
    decreases n, 0
  {
    match n.schema
    case Array(item) =>
      var element :- Convert(item, NoOptions);
      Ok(Required(VArray(EnsureRequired(element))))
    case Object(_) | StrictObject(_) =>
      var es := n.schema.entries;
      var converted :- AllOk(seq(|es|, i requires 0 <= i < |es| => Convert(es[i].1, NoOptions)));
      Ok(Required(VObject(seq(|es|, i requires 0 <= i < |es| => (es[i].0, converted[i])))))
    case Record(value) =>
      var v :- Convert(value, NoOptions);
      Ok(Required(VRecord(Required(VString), EnsureRequired(v))))
    case Union(os) =>
      var members :- AllOk(seq(|os|, i requires 0 <= i < |os| => Convert(os[i], NoOptions)));
      Ok(UniqueUnions(seq(|members|, i requires 0 <= i < |members| => EnsureRequired(members[i]))))
  }

  /** The modifier wrappers: the only cases that read the options, and the
      `non_*` cases, the only ones that pass options on. */
  function ConvertModifier(n: Node, opts: Options): Outcome<Validator>
    requires n.schema.Optional? || n.schema.Undefinedable? || n.schema.NonOptional? || n.schema.Nullable?
      || n.schema.NonNullable? || n.schema.Nullish? || n.schema.NonNullish?
    decreases n, 0
  {
    match n.schema
    case Optional(_) | Undefinedable(_) =>
      if opts.inNonOptional then
        var w :- Convert(n.schema.wrapped, NoOptions);
        Ok(EnsureRequired(w))
      else
        var w :- Convert(n.schema.wrapped, NoOptions);
        Ok(MakeOptional(w))
    case NonOptional(w) => Convert(w, Options(false, false, true))
    case Nullable(wrapped) =>
      if opts.inNonNullable then
        var w :- Convert(wrapped, NoOptions);
        Ok(EnsureRequired(w))
      else
        var w :- Convert(wrapped, NoOptions);
        Ok(Required(VUnion([Required(VNull), EnsureRequired(w)])))
    case NonNullable(w) => Convert(w, Options(true, false, false))
    case Nullish(wrapped) =>
      if opts.inNonNullish then
        var w :- Convert(wrapped, NoOptions);
        Ok(EnsureRequired(w))
      else
        var w :- Convert(wrapped, NoOptions);
        Ok(MakeOptional(Required(VUnion([Required(VNull), EnsureRequired(w)]))))
    case NonNullish(w) => Convert(w, Options(false, true, false))
  }

  /** The remaining cases, in source order, and the fallback to `any` for a
      `type` the dispatch has no case for. */
  function ConvertRest(n: Node): Outcome<Validator>
    requires !(n.schema.String? || n.schema.Number? || n.schema.Nan? || n.schema.Boolean? || n.schema.Bigint?
      || n.schema.Literal? || n.schema.Instance? || n.schema.Null?)
    requires !(n.schema.Array? || n.schema.Object? || n.schema.StrictObject? || n.schema.Record? || n.schema.Union?)
    requires !(n.schema.Optional? || n.schema.Undefinedable? || n.schema.NonOptional? || n.schema.Nullable?
      || n.schema.NonNullable? || n.schema.Nullish? || n.schema.NonNullish?)
    decreases n, 0
  {
    match n.schema
    case Blob => Fail(Thrown(ConvexError, BlobMessage))
    case File => Fail(Thrown(ConvexError, FileMessage))
    case Date => Fail(Thrown(ConvexError, DateMessage))
    case Enum(values) => Ok(Required(VUnion(seq(|values|, i requires 0 <= i < |values| => Required(VLiteral(values[i]))))))
    case Picklist(values) => Ok(Required(VUnion(seq(|values|, i requires 0 <= i < |values| => Required(VLiteral(values[i]))))))
    case ExactOptional(_) =>
      // The source calls the converter again on ExactOptionalRedispatch(n),
      // a bare `exact_optional` descriptor: no metadata check, the same
      // case, the same call again. The recursion never returns.
      Fail(NonTermination)
    case Function => Fail(Thrown(ConvexError, FunctionMessage))
    case Intersect => Fail(Thrown(ConvexError, IntersectMessage))
    case Lazy => Fail(Thrown(ConvexError, LazyMessage))
    case Never => Fail(Thrown(ConvexError, NeverMessage))
    case Promise => Fail(Thrown(ConvexError, PromiseMessage))
    case Undefined => Ok(MakeOptional(Required(VAny)))
    case Variant(os) =>
      var members :- AllOk(seq(|os|, i requires 0 <= i < |os| => Convert(os[i], NoOptions)));
      Ok(Required(VUnion(seq(|members|, i requires 0 <= i < |members| => EnsureRequired(members[i])))))
    case Void => Fail(Thrown(ConvexError, VoidMessage))
    case Other(_) => Ok(Required(VAny))
  }
}
