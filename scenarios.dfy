/** Conversions of particular schemas, as the source's test suite exercises
    them, including the cases where the code departs from what its comments
    and types suggest. */
module Scenarios {
  import opened Outcomes
  import opened ConvexValidators
  import opened ValibotSchemas
  import opened Unions
  import opened SchemaValidation
  import opened ConversionProperties

  const Str := Validator(VString, false)
  const Float := Validator(VFloat64, false)

  /** Duplicate kinds collapse: two strings give a plain string; string,
      number, string give a two-member union in first-occurrence order. */
  lemma UnionDeduplicates()
    ensures Convert(Valibot(Union([Valibot(String), Valibot(String)])), NoOptions) == Ok(Str)
    ensures Convert(Valibot(Union([Valibot(String), Valibot(Number), Valibot(String)])), NoOptions)
      == Ok(Validator(VUnion([Str, Float]), false))
  {
    var two := [Str, Str];
    assert SingleKind(two);
    UnionReduces(Valibot(Union([Valibot(String), Valibot(String)])), NoOptions, two);
    SlotsStringNumberString();
    UnionReduces(Valibot(Union([Valibot(String), Valibot(Number), Valibot(String)])), NoOptions, [Str, Float, Str]);
  }

  /** The map after inserting a string, a number and a string again. */
  lemma SlotsStringNumberString()
    ensures Slots([Str, Float, Str]) == [Str, Float]
  {
    var three := [Str, Float, Str];
    assert Slots(three[..1]) == [Str] by { assert three[..1][..0] == []; }
    assert Slots(three[..2]) == [Str, Float] by { assert three[..2][..1] == three[..1]; }
    assert three[..2] == three[..|three| - 1];
  }

  const LitAdmin := Validator(VLiteral(StringLit("admin")), false)
  const Lit404 := Validator(VLiteral(NumberLit("404")), false)
  const LitTrue := Validator(VLiteral(BooleanLit(true)), false)

  /** Inserting one more member is one `Map.set`. */
  lemma SlotsSnoc(ms: seq<Validator>, m: Validator)
    ensures DistinctKinds(Slots(ms))
    ensures Slots(ms + [m]) == SetByKind(Slots(ms), m)
  {
    SlotsKinds(ms);
    assert (ms + [m])[..|ms + [m]| - 1] == ms;
  }

  /** `Map.set` on two slots of distinct kinds with a member of the second
      slot's kind. */
  lemma OverwriteSecond(x: Validator, y: Validator, m: Validator)
    requires KindOf(x) != KindOf(y) && KindOf(y) == KindOf(m)
    ensures SetByKind([x, y], m) == [x, m]
  {
    assert KindOf([x, y][1]) == KindOf(m);
    var r := SetByKind([x, y], m);
    assert r[0] == x && r[1] == m;
  }

  /** The reducer on string, "admin", 404, true: the literal slot is
      overwritten twice and keeps the last literal. */
  lemma SlotsKeepLastLiteral()
    ensures UniqueUnions([Str, LitAdmin, Lit404, LitTrue]) == Validator(VUnion([Str, LitTrue]), false)
  {
    assert KindOf(Str) == KString && KindOf(LitAdmin) == KindOf(Lit404) == KindOf(LitTrue) == KLiteral;
    assert [Str] == [] + [Str] && [Str, LitAdmin] == [Str] + [LitAdmin];
    assert [Str, LitAdmin, Lit404] == [Str, LitAdmin] + [Lit404];
    assert [Str, LitAdmin, Lit404, LitTrue] == [Str, LitAdmin, Lit404] + [LitTrue];
    SlotsSnoc([], Str);
    assert Slots([Str]) == [Str];
    SlotsSnoc([Str], LitAdmin);
    assert KLiteral !in Kinds([Str]);
    assert Slots([Str, LitAdmin]) == [Str, LitAdmin];
    SlotsSnoc([Str, LitAdmin], Lit404);
    OverwriteSecond(Str, LitAdmin, Lit404);
    SlotsSnoc([Str, LitAdmin, Lit404], LitTrue);
    OverwriteSecond(Str, Lit404, LitTrue);
    assert Slots([Str, LitAdmin, Lit404, LitTrue]) == [Str, LitTrue];
  }

  /** A slot keeps the LAST literal of its kind: string, "admin", 404, true
      gives the union of string and the literal `true`. */
  lemma UnionKeepsLastLiteral()
    ensures Convert(Valibot(Union([
        Valibot(String), Valibot(Literal(StringLit("admin"))),
        Valibot(Literal(NumberLit("404"))), Valibot(Literal(BooleanLit(true)))])), NoOptions)
      == Ok(Validator(VUnion([Str, LitTrue]), false))
  {
    var n := Valibot(Union([
        Valibot(String), Valibot(Literal(StringLit("admin"))),
        Valibot(Literal(NumberLit("404"))), Valibot(Literal(BooleanLit(true)))]));
    var os := n.schema.options;
    var ms := [Str, LitAdmin, Lit404, LitTrue];
    assert Convert(os[0], NoOptions) == Ok(ms[0]);
    assert Convert(os[1], NoOptions) == Ok(ms[1]);
    assert Convert(os[2], NoOptions) == Ok(ms[2]);
    assert Convert(os[3], NoOptions) == Ok(ms[3]);
    UnionReduces(n, NoOptions, ms);
    SlotsKeepLastLiteral();
  }

  /** All literals share one kind, so the union of three literals is the
      FIRST literal itself, not the last. */
  lemma UnionOfLiteralsIsFirst()
    ensures Convert(Valibot(Union([
        Valibot(Literal(StringLit("active"))), Valibot(Literal(StringLit("inactive"))),
        Valibot(Literal(StringLit("pending")))])), NoOptions)
      == Ok(Validator(VLiteral(StringLit("active")), false))
  {
    var ms := [Validator(VLiteral(StringLit("active")), false), Validator(VLiteral(StringLit("inactive")), false),
      Validator(VLiteral(StringLit("pending")), false)];
    assert SingleKind(ms);
    UnionReduces(Valibot(Union([
        Valibot(Literal(StringLit("active"))), Valibot(Literal(StringLit("inactive"))),
        Valibot(Literal(StringLit("pending")))])), NoOptions, ms);
  }

  /** `picklist` keeps every option, although all are literals. */
  lemma PicklistKeepsEveryOption()
    ensures Convert(Valibot(Picklist([StringLit("red"), StringLit("green"), StringLit("blue")])), NoOptions)
      == Ok(Validator(VUnion([
           Validator(VLiteral(StringLit("red")), false), Validator(VLiteral(StringLit("green")), false),
           Validator(VLiteral(StringLit("blue")), false)]), false))
  {
    var n := Valibot(Picklist([StringLit("red"), StringLit("green"), StringLit("blue")]));
    NoDedupOutsideUnion(n, NoOptions, []);
    var ms := Convert(n, NoOptions).value.shape.members;
    assert ms[0] == Validator(VLiteral(n.schema.values[0]), false);
    assert ms[1] == Validator(VLiteral(n.schema.values[1]), false);
    assert ms[2] == Validator(VLiteral(n.schema.values[2]), false);
    assert ms == [Validator(VLiteral(StringLit("red")), false), Validator(VLiteral(StringLit("green")), false),
      Validator(VLiteral(StringLit("blue")), false)];
    assert Convert(n, NoOptions).value == Validator(VUnion(ms), false);
  }

  /** `ensureRequired` forces nothing: an optional array item stays optional. */
  lemma ArrayKeepsOptionalItem()
    ensures Convert(Valibot(Array(Valibot(Optional(Valibot(String))))), NoOptions)
      == Ok(Validator(VArray(Validator(VString, true)), false))
  {
    assert Convert(Valibot(Optional(Valibot(String))), NoOptions) == Ok(Validator(VString, true));
  }

  /** `non_optional` reaches only the node it wraps: one level of `optional`
      is undone, a second one is not, because the flag is not passed on. */
  lemma NonOptionalReachesOneLevel()
    ensures Convert(Valibot(NonOptional(Valibot(Optional(Valibot(String))))), NoOptions) == Ok(Str)
    ensures Convert(Valibot(NonOptional(Valibot(Optional(Valibot(Optional(Valibot(String))))))), NoOptions)
      == Ok(Validator(VString, true))
  {
    var opt := Valibot(Optional(Valibot(String)));
    assert Convert(opt, NoOptions) == Ok(Validator(VString, true));
    assert Convert(opt, Options(false, false, true)) == Ok(Str);
    assert Convert(Valibot(Optional(opt)), Options(false, false, true)) == Ok(Validator(VString, true));
  }

  /** A union of one optional option is that optional validator. */
  lemma UnionOfOneOptionalIsOptional()
    ensures Convert(Valibot(Union([Valibot(Optional(Valibot(String)))])), NoOptions) == Ok(Validator(VString, true))
  {
    assert Convert(Valibot(Optional(Valibot(String))), NoOptions) == Ok(Validator(VString, true));
    UnionReduces(Valibot(Union([Valibot(Optional(Valibot(String)))])), NoOptions, [Validator(VString, true)]);
  }

  /** Field optionality does not propagate to the enclosing object. */
  lemma ObjectFieldsIndependent()
    ensures Convert(Valibot(Object([("a", Valibot(Optional(Valibot(String)))), ("b", Valibot(String))])), NoOptions)
      == Ok(Validator(VObject([("a", Validator(VString, true)), ("b", Str)]), false))
  {
    var n := Valibot(Object([("a", Valibot(Optional(Valibot(String)))), ("b", Valibot(String))]));
    var es := n.schema.entries;
    assert Convert(es[0].1, NoOptions) == Ok(Validator(VString, true));
    assert Convert(es[1].1, NoOptions) == Ok(Str);
    CompositeStructure(n, NoOptions);
    var fs := Convert(n, NoOptions).value.shape.fields;
    assert fs[0] == ("a", Validator(VString, true));
    assert fs[1] == ("b", Str);
    assert fs == [("a", Validator(VString, true)), ("b", Str)];
    assert Convert(n, NoOptions).value == Validator(VObject(fs), false);
  }

  /** A reference tag wins even over a type that would otherwise fail. */
  lemma TaggedDateIsId()
    ensures Convert(Node(Date, true, None, Some("users")), NoOptions) == Ok(Validator(VId("users"), false))
  {
  }
}
