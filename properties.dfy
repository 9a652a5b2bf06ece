/** What the converter promises, stated over all inputs. */
module ConversionProperties {
  import opened Outcomes
  import opened ConvexValidators
  import opened ValibotSchemas
  import opened Unions
  import opened SchemaValidation

  /** The outcomes of converting each option in turn, with no options. The
      same comprehension `Convert` writes inline, named so that lemmas can
      refer to it; its contract spells out the comprehension. */
  function ConvertEach(os: seq<Node>): (rs: seq<Outcome<Validator>>)
    ensures |rs| == |os|
    ensures forall i :: 0 <= i < |os| ==> rs[i] == Convert(os[i], NoOptions)
  {
    seq(|os|, i requires 0 <= i < |os| => Convert(os[i], NoOptions))
  }

  /** The outcomes of converting each field's schema in turn, with no options. */
  function FieldOutcomes(es: seq<(string, Node)>): (rs: seq<Outcome<Validator>>)
    ensures |rs| == |es|
    ensures forall i :: 0 <= i < |es| ==> rs[i] == Convert(es[i].1, NoOptions)
  {
    seq(|es|, i requires 0 <= i < |es| => Convert(es[i].1, NoOptions))
  }

  // ---- The metadata short-circuit ----

  /** On a full schema object a `_CV_T_` validator wins over everything, then
      a non-empty `_CV_ID_` table name gives a required `id`; this happens
      before dispatch, so it holds for every type, including ones that would
      otherwise fail. Without the short-circuit the node converts exactly as
      the bare descriptor of its type would. */
  lemma MetadataShortCircuit(n: Node, opts: Options)
    ensures n.hasKind && n.cvType.Some? ==> Convert(n, opts) == Ok(n.cvType.value)
    ensures n.hasKind && n.cvType.None? && n.cvId.Some? && n.cvId.value != "" ==>
      Convert(n, opts) == Ok(Validator(VId(n.cvId.value), false))
    ensures !ShortCircuits(n) ==> Convert(n, opts) == Convert(Bare(n.schema), opts)
  {
  }

  /** `convexId(t)` converts to a required `id` of table `t`, and wrapped in
      `optional` to the same `id` marked optional. An empty table name is not
      a tag: the `custom` schema underneath falls back to `any`. */
  lemma ConvexIdConverts(t: string, opts: Options)
    ensures t != "" ==> Convert(ConvexId(t), opts) == Ok(Validator(VId(t), false))
    ensures t != "" ==> Convert(Valibot(Optional(ConvexId(t))), NoOptions) == Ok(Validator(VId(t), true))
    ensures t == "" ==> Convert(ConvexId(t), opts) == Ok(Validator(VAny, false))
  {
    if t != "" {
      assert Convert(ConvexId(t), NoOptions) == Ok(Validator(VId(t), false));
    }
  }

  // ---- Leaves ----

  /** The scalar mapping; all results are required except `undefined`,
      which gives an optional `any`. */
  lemma ScalarMapping(n: Node, opts: Options)
    requires !ShortCircuits(n)
    ensures n.schema == String ==> Convert(n, opts) == Ok(Validator(VString, false))
    ensures n.schema == Number || n.schema == Nan ==> Convert(n, opts) == Ok(Validator(VFloat64, false))
    ensures n.schema == Boolean ==> Convert(n, opts) == Ok(Validator(VBoolean, false))
    ensures n.schema == Bigint ==> Convert(n, opts) == Ok(Validator(VInt64, false))
    ensures n.schema == Null ==> Convert(n, opts) == Ok(Validator(VNull, false))
    ensures n.schema == Instance(Some("ArrayBuffer")) ==> Convert(n, opts) == Ok(Validator(VBytes, false))
    ensures n.schema.Literal? && !n.schema.literal.SymbolLit? ==>
      Convert(n, opts) == Ok(Validator(VLiteral(n.schema.literal), false))
    ensures n.schema.Other? ==> Convert(n, opts) == Ok(Validator(VAny, false))
    ensures n.schema == Undefined ==> Convert(n, opts) == Ok(Validator(VAny, true))
  {
  }

  /** The schemas Convex cannot represent throw, each with its own message
      and class; nothing is returned. */
  lemma UnsupportedFail(n: Node, opts: Options)
    requires !ShortCircuits(n)
    ensures n.schema.Literal? && n.schema.literal.SymbolLit? ==>
      Convert(n, opts) == Fail(Thrown(PlainError, "Convex doesn't support symbols as literals"))
    ensures n.schema.Instance? && n.schema.expects != Some("ArrayBuffer") ==>
      Convert(n, opts) == Fail(Thrown(ConvexError, "Unsupported instance type: " +
        (if n.schema.expects.Some? then n.schema.expects.value else "undefined")))
    ensures n.schema == Blob ==> Convert(n, opts) == Fail(Thrown(ConvexError, "Blob is not supported: store the file in the Convex storage."))
    ensures n.schema == File ==> Convert(n, opts) == Fail(Thrown(ConvexError, "File is not supported: store the file in the Convex storage."))
    ensures n.schema == Date ==> Convert(n, opts) == Fail(Thrown(ConvexError, "Date can be saved in Convex either as a string or as a number."))
    ensures n.schema == Function ==> Convert(n, opts) == Fail(Thrown(ConvexError, "Function is not supported."))
    ensures n.schema == Intersect ==> Convert(n, opts) == Fail(Thrown(ConvexError, "Not supported : use object merging."))
    ensures n.schema == Lazy ==> Convert(n, opts) == Fail(Thrown(ConvexError, "Lazy schemas are not supported."))
    ensures n.schema == Never ==> Convert(n, opts) == Fail(Thrown(ConvexError, "Never is not supported."))
    ensures n.schema == Promise ==> Convert(n, opts) == Fail(Thrown(ConvexError, "Promise is not supported."))
    ensures n.schema == Void ==> Convert(n, opts) == Fail(Thrown(ConvexError, "Void schema is not supported."))
  {
  }

  /** `exact_optional` never yields a validator: its case calls the converter
      on a bare descriptor of the same type, which skips the metadata check,
      reaches the same case and makes the same call again. */
  lemma ExactOptionalNeverReturns(n: Node, opts: Options)
    requires n.schema.ExactOptional? && !ShortCircuits(n)
    ensures Convert(n, opts) == Fail(NonTermination)
    ensures !ShortCircuits(ExactOptionalRedispatch(n))
    ensures TypeName(ExactOptionalRedispatch(n).schema) == TypeName(n.schema)
    ensures ExactOptionalRedispatch(ExactOptionalRedispatch(n)) == ExactOptionalRedispatch(n)
    ensures Convert(n, opts) == Convert(ExactOptionalRedispatch(n), NoOptions)
  {
  }

  // ---- Unions ----

  /** `union` converts each option (no options passed) and reduces the results
      with `uniqueUnions`: one kind gives the first converted option itself;
      several kinds give a required union with one member per kind, ordered
      by first occurrence, each the last option of its kind. */
  lemma UnionReduces(n: Node, opts: Options, vs: seq<Validator>)
    requires n.schema.Union? && !ShortCircuits(n)
    requires |vs| == |n.schema.options|
    requires forall i :: 0 <= i < |vs| ==> Convert(n.schema.options[i], NoOptions) == Ok(vs[i])
    ensures Convert(n, opts) == Ok(UniqueUnions(vs))
    ensures SingleKind(vs) ==> Convert(n, opts) == Ok(vs[0])
    ensures !SingleKind(vs) ==>
      && Convert(n, opts).Ok?
      && Convert(n, opts).value.shape.VUnion?
      && !Convert(n, opts).value.isOptional
      && ReducedFrom(vs, Convert(n, opts).value.shape.members)
      && |Convert(n, opts).value.shape.members| == |Kinds(vs)|
  {
    UnionConverts(n, opts, vs);
    UniqueUnionsSpec(vs);
  }

  /** The converted options of a union, all successful, go to `uniqueUnions`
      unchanged. */
  lemma UnionConverts(n: Node, opts: Options, vs: seq<Validator>)
    requires n.schema.Union? && !ShortCircuits(n)
    requires |vs| == |n.schema.options|
    requires forall i :: 0 <= i < |vs| ==> Convert(n.schema.options[i], NoOptions) == Ok(vs[i])
    ensures Convert(n, opts) == Ok(UniqueUnions(vs))
  {
    var os := n.schema.options;
    var rs := ConvertEach(os);
    assert rs == seq(|vs|, i requires 0 <= i < |vs| => Ok(vs[i]));
    assert AllOk(rs).value == vs;
    assert seq(|vs|, i requires 0 <= i < |vs| => EnsureRequired(vs[i])) == vs;
    UnionUnfold(n, opts);
  }

  /** One step of `Convert` on `union` whose options all convert. */
  lemma UnionUnfold(n: Node, opts: Options)
    requires n.schema.Union? && !ShortCircuits(n)
    ensures AllOk(ConvertEach(n.schema.options)).Ok? ==>
      var ms := AllOk(ConvertEach(n.schema.options)).value;
      Convert(n, opts) == Ok(UniqueUnions(seq(|ms|, i requires 0 <= i < |ms| => EnsureRequired(ms[i]))))
  {
    var os := n.schema.options;
    assert ConvertEach(os) == seq(|os|, i requires 0 <= i < |os| => Convert(os[i], NoOptions));
  }

  /** `union` and `variant` fail with the failure of their first failing
      option, in declaration order; later options are never reached. */
  lemma OptionFailurePropagates(n: Node, opts: Options, i: int)
    requires n.schema.Union? || n.schema.Variant?
    requires !ShortCircuits(n)
    requires FirstFailureAt(ConvertEach(n.schema.options), i)
    ensures Convert(n, opts) == Fail(Convert(n.schema.options[i], NoOptions).failure)
  {
    AllOkFirstFailure(ConvertEach(n.schema.options), i);
    OptionsFailureUnfold(n, opts);
  }

  /** `object` and `strict_object` fail with the failure of their first
      failing field, in entry order; later fields are never converted. */
  lemma FieldFailurePropagates(n: Node, opts: Options, i: int)
    requires n.schema.Object? || n.schema.StrictObject?
    requires !ShortCircuits(n)
    requires FirstFailureAt(FieldOutcomes(n.schema.entries), i)
    ensures Convert(n, opts) == Fail(Convert(n.schema.entries[i].1, NoOptions).failure)
  {
    var es := n.schema.entries;
    AllOkFirstFailure(FieldOutcomes(es), i);
    assert FieldOutcomes(es) == seq(|es|, i requires 0 <= i < |es| => Convert(es[i].1, NoOptions));
    assert Convert(n, opts) == ConvertComposite(n);
  }

  /** One step of `Convert` on `union` and `variant`: a failure among the
      options is the result. */
  lemma OptionsFailureUnfold(n: Node, opts: Options)
    requires n.schema.Union? || n.schema.Variant?
    requires !ShortCircuits(n)
    ensures AllOk(ConvertEach(n.schema.options)).Fail? ==>
      Convert(n, opts) == Fail(AllOk(ConvertEach(n.schema.options)).failure)
  {
    var os := n.schema.options;
    assert ConvertEach(os) == seq(|os|, i requires 0 <= i < |os| => Convert(os[i], NoOptions));
    if n.schema.Union? {
      assert Convert(n, opts) == ConvertComposite(n);
    } else {
      assert Convert(n, opts) == ConvertRest(n);
    }
  }

  /** No deduplication outside `union`: `enum` and `picklist` give one
      literal per option in declaration order, and `variant` one member per
      converted option, even when kinds repeat. */
  lemma NoDedupOutsideUnion(n: Node, opts: Options, vs: seq<Validator>)
    requires !ShortCircuits(n)
    requires n.schema.Variant? ==>
      |vs| == |n.schema.options| && forall i :: 0 <= i < |vs| ==> Convert(n.schema.options[i], NoOptions) == Ok(vs[i])
    ensures n.schema.Enum? || n.schema.Picklist? ==>
      && Convert(n, opts).Ok?
      && Convert(n, opts).value.shape.VUnion?
      && !Convert(n, opts).value.isOptional
      && |Convert(n, opts).value.shape.members| == |n.schema.values|
      && forall i :: 0 <= i < |n.schema.values| ==>
           Convert(n, opts).value.shape.members[i] == Validator(VLiteral(n.schema.values[i]), false)
    ensures n.schema.Variant? ==> Convert(n, opts) == Ok(Validator(VUnion(vs), false))
  {
    if n.schema.Variant? {
      var os := n.schema.options;
      var rs := seq(|os|, i requires 0 <= i < |os| => Convert(os[i], NoOptions));
      assert rs == seq(|vs|, i requires 0 <= i < |vs| => Ok(vs[i]));
      assert AllOk(rs).value == vs;
      assert seq(|vs|, i requires 0 <= i < |vs| => EnsureRequired(vs[i])) == vs;
    }
  }

  // ---- Modifier wrappers and flags ----

  /** The wrappers, given what their wrapped schema converts to (always
      converted with no options). */
  lemma ModifierWrappers(n: Node, opts: Options, w: Validator)
    requires !ShortCircuits(n)
    requires n.schema.Optional? || n.schema.Undefinedable? || n.schema.Nullable? || n.schema.Nullish?
    requires Convert(n.schema.wrapped, NoOptions) == Ok(w)
    ensures (n.schema.Optional? || n.schema.Undefinedable?) && !opts.inNonOptional ==>
      Convert(n, opts) == Ok(Validator(w.shape, true))
    ensures (n.schema.Optional? || n.schema.Undefinedable?) && opts.inNonOptional ==>
      Convert(n, opts) == Ok(w)
    ensures n.schema.Nullable? && !opts.inNonNullable ==>
      Convert(n, opts) == Ok(Validator(VUnion([Validator(VNull, false), w]), false))
    ensures n.schema.Nullish? && !opts.inNonNullish ==>
      Convert(n, opts) == Ok(Validator(VUnion([Validator(VNull, false), w]), true))
    ensures (n.schema.Nullable? && opts.inNonNullable) || (n.schema.Nullish? && opts.inNonNullish) ==>
      Convert(n, opts) == Ok(w)
  {
  }

  /** A failure of the wrapped schema escapes `optional`, `undefinedable`,
      `nullable` and `nullish` unchanged, with or without their flags: no
      validator is built around it. */
  lemma ModifierFailurePropagates(n: Node, opts: Options, f: Failure)
    requires !ShortCircuits(n)
    requires n.schema.Optional? || n.schema.Undefinedable? || n.schema.Nullable? || n.schema.Nullish?
    requires Convert(n.schema.wrapped, NoOptions) == Fail(f)
    ensures Convert(n, opts) == Fail(f)
  {
  }

  /** A flag affects only the node directly inside its `non_*` wrapper: the
      `non_*` cases pass a record holding only their own flag, every other
      recursive call passes none, only `optional`/`undefinedable`, `nullable`
      and `nullish` read a flag, and each reads only its own. */
  lemma FlagScope(n: Node, o1: Options, o2: Options)
    ensures n.schema.NonOptional? && !ShortCircuits(n) ==>
      Convert(n, o1) == Convert(n.schema.wrapped, Options(false, false, true))
    ensures n.schema.NonNullable? && !ShortCircuits(n) ==>
      Convert(n, o1) == Convert(n.schema.wrapped, Options(true, false, false))
    ensures n.schema.NonNullish? && !ShortCircuits(n) ==>
      Convert(n, o1) == Convert(n.schema.wrapped, Options(false, true, false))
    ensures !(n.schema.Optional? || n.schema.Undefinedable? || n.schema.Nullable? || n.schema.Nullish?) ==>
      Convert(n, o1) == Convert(n, o2)
    ensures (n.schema.Optional? || n.schema.Undefinedable?) && o1.inNonOptional == o2.inNonOptional ==>
      Convert(n, o1) == Convert(n, o2)
    ensures n.schema.Nullable? && o1.inNonNullable == o2.inNonNullable ==> Convert(n, o1) == Convert(n, o2)
    ensures n.schema.Nullish? && o1.inNonNullish == o2.inNonNullish ==> Convert(n, o1) == Convert(n, o2)
  {
    if n.schema.Optional? || n.schema.Undefinedable? || n.schema.Nullable? || n.schema.Nullish? {
      WrappersReadOwnFlag(n, o1, o2);
    } else {
      OthersIgnoreFlags(n, o1, o2);
    }
  }

  /** Every schema but the four flag readers: the `non_*` wrappers pass their
      own flag on, and no flag changes the result. */
  lemma OthersIgnoreFlags(n: Node, o1: Options, o2: Options)
    requires !(n.schema.Optional? || n.schema.Undefinedable? || n.schema.Nullable? || n.schema.Nullish?)
    ensures n.schema.NonOptional? && !ShortCircuits(n) ==>
      Convert(n, o1) == Convert(n.schema.wrapped, Options(false, false, true))
    ensures n.schema.NonNullable? && !ShortCircuits(n) ==>
      Convert(n, o1) == Convert(n.schema.wrapped, Options(true, false, false))
    ensures n.schema.NonNullish? && !ShortCircuits(n) ==>
      Convert(n, o1) == Convert(n.schema.wrapped, Options(false, true, false))
    ensures Convert(n, o1) == Convert(n, o2)
  {
    if !ShortCircuits(n) && (n.schema.NonOptional? || n.schema.NonNullable? || n.schema.NonNullish?) {
      assert Convert(n, o1) == ConvertModifier(n, o1);
      assert Convert(n, o2) == ConvertModifier(n, o2);
    }
  }

  /** The four flag readers: each depends on its own flag only. */
  lemma WrappersReadOwnFlag(n: Node, o1: Options, o2: Options)
    requires n.schema.Optional? || n.schema.Undefinedable? || n.schema.Nullable? || n.schema.Nullish?
    ensures (n.schema.Optional? || n.schema.Undefinedable?) && o1.inNonOptional == o2.inNonOptional ==>
      Convert(n, o1) == Convert(n, o2)
    ensures n.schema.Nullable? && o1.inNonNullable == o2.inNonNullable ==> Convert(n, o1) == Convert(n, o2)
    ensures n.schema.Nullish? && o1.inNonNullish == o2.inNonNullish ==> Convert(n, o1) == Convert(n, o2)
  {
    if !ShortCircuits(n) {
      assert Convert(n, o1) == ConvertModifier(n, o1);
      assert Convert(n, o2) == ConvertModifier(n, o2);
    }
  }

  // ---- Composite schemas ----

  /** `array`, `object`/`strict_object` and `record` rebuild their structure
      around the conversions of their children, each converted with no
      options; `ensureRequired` changes nothing, so every child keeps its
      own optionality. A child that fails makes the whole conversion fail. */
  lemma CompositeStructure(n: Node, opts: Options)
    requires !ShortCircuits(n)
    ensures n.schema.Array? ==>
      match Convert(n.schema.item, NoOptions)
      case Ok(e) => Convert(n, opts) == Ok(Validator(VArray(e), false))
      case Fail(f) => Convert(n, opts) == Fail(f)
    ensures n.schema.Record? ==>
      match Convert(n.schema.value, NoOptions)
      case Ok(e) => Convert(n, opts) == Ok(Validator(VRecord(Validator(VString, false), e), false))
      case Fail(f) => Convert(n, opts) == Fail(f)
    ensures (n.schema.Object? || n.schema.StrictObject?) ==>
      var es := n.schema.entries;
      && (Convert(n, opts).Ok? <==> forall i :: 0 <= i < |es| ==> Convert(es[i].1, NoOptions).Ok?)
      && (Convert(n, opts).Ok? ==>
            && Convert(n, opts).value.shape.VObject?
            && !Convert(n, opts).value.isOptional
            && |Convert(n, opts).value.shape.fields| == |es|
            && forall i :: 0 <= i < |es| ==>
                 Convert(n, opts).value.shape.fields[i].0 == es[i].0 &&
                 Convert(es[i].1, NoOptions) == Ok(Convert(n, opts).value.shape.fields[i].1))
  {
    if n.schema.Object? || n.schema.StrictObject? {
      var es := n.schema.entries;
      var rs := seq(|es|, i requires 0 <= i < |es| => Convert(es[i].1, NoOptions));
      assert forall i :: 0 <= i < |es| ==> rs[i] == Convert(es[i].1, NoOptions);
    }
  }

  /** "Required" is the default: a conversion can come out "optional" only
      through a `_CV_T_` override that is itself optional, an `optional`,
      `undefinedable`, `nullish` or `undefined` schema, or by passing an
      optional result up unchanged: through `nullable`, `non_optional`,
      `non_nullable` and `non_nullish`, and through a `union` whose first
      option converts to an optional validator (a union of one kind is its
      first member). */
  predicate MayBeOptional(n: Node)
    decreases n
  {
    if n.hasKind && n.cvType.Some? then n.cvType.value.isOptional
    else if ShortCircuits(n) then false
    else
      match n.schema
      case Optional(_) | Undefinedable(_) | Nullish(_) | Undefined => true
      case Nullable(_) | NonOptional(_) | NonNullable(_) | NonNullish(_) => MayBeOptional(n.schema.wrapped)
      case Union(os) => |os| > 0 && MayBeOptional(os[0])
      case _ => false
  }

  lemma {:induction false} OptionalOnlyFromOptionalSchemas(n: Node, opts: Options)
    requires Convert(n, opts).Ok? && Convert(n, opts).value.isOptional
    ensures MayBeOptional(n)
    decreases n
  {
    if !ShortCircuits(n) {
      match n.schema
      case Nullable(w) =>
        if opts.inNonNullable {
          OptionalOnlyFromOptionalSchemas(w, NoOptions);
        }
      case NonOptional(w) => OptionalOnlyFromOptionalSchemas(w, Options(false, false, true));
      case NonNullable(w) => OptionalOnlyFromOptionalSchemas(w, Options(true, false, false));
      case NonNullish(w) => OptionalOnlyFromOptionalSchemas(w, Options(false, true, false));
      case Union(os) =>
        var rs := ConvertEach(os);
        assert rs == seq(|os|, i requires 0 <= i < |os| => Convert(os[i], NoOptions));
        var vs := AllOk(rs).value;
        UnionReduces(n, opts, vs);
        OptionalOnlyFromOptionalSchemas(os[0], NoOptions);
      case _ =>
    }
  }
}
