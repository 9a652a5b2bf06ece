/** `isValibotSchema`: the structural test that tells a valibot schema object
    apart from a plain mapping of field names to schemas. */
module SchemaDetection {

  /** The JavaScript values the test can be given. Number values are kept as
      their text; a function's own properties do not matter here. */
  datatype JsValue =
    | JsUndefined
    | JsNull
    | JsBoolean(b: bool)
    | JsNumber(text: string)
    | JsBigint(i: int)
    | JsString(s: string)
    | JsSymbol
    | JsFunction
    | JsObject(props: map<string, JsValue>)

  /** `!!value`. */
  predicate Truthy(value: JsValue)
  {
    match value
    case JsUndefined | JsNull => false
    case JsBoolean(b) => b
    case JsNumber(t) => t != "0" && t != "-0" && t != "NaN"
    case JsBigint(i) => i != 0
    case JsString(s) => s != ""
    case JsSymbol | JsFunction | JsObject(_) => true
  }

  /** `typeof value`. */
  function TypeOf(value: JsValue): string
  {
    match value
    case JsUndefined => "undefined"
    case JsNull => "object"
    case JsBoolean(_) => "boolean"
    case JsNumber(_) => "number"
    case JsBigint(_) => "bigint"
    case JsString(_) => "string"
    case JsSymbol => "symbol"
    case JsFunction => "function"
    case JsObject(_) => "object"
  }

  /** `value[key]` for a value that is not null or undefined: an object's own
      property, `undefined` when absent. */
  function Get(value: JsValue, key: string): JsValue
  {
    match value
    case JsObject(props) => if key in props then props[key] else JsUndefined
    case _ => JsUndefined
  }

  /** A truthy object whose `kind` is the string "schema" and whose `~run`
      is a function. */
  function IsValibotSchema(value: JsValue): (r: bool)
    ensures r <==>
      && value.JsObject?
      && "kind" in value.props && value.props["kind"] == JsString("schema")
      && "~run" in value.props && value.props["~run"].JsFunction?
  {
    && Truthy(value)
    && TypeOf(value) == "object"
    && Get(value, "kind") == JsString("schema")
    && TypeOf(Get(value, "~run")) == "function"
  }

  /** Only the `kind` and `~run` properties decide: changing any other
      property of an object never changes the verdict. */
  lemma OtherPropertiesIrrelevant(props: map<string, JsValue>, key: string, x: JsValue)
    requires key != "kind" && key != "~run"
    ensures IsValibotSchema(JsObject(props[key := x])) == IsValibotSchema(JsObject(props))
  {
  }
}
