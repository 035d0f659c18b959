/** The untyped JavaScript values that cross the boundaries the core checks
    at run time: a query flag, the result of `validateUser`, a request body
    field. Numbers are integers here; NaN and fractions play no part. */
module JsValues {

  datatype JsValue =
    | JsUndefined
    | JsNull
    | JsBool(b: bool)
    | JsNumber(n: int)
    | JsString(s: string)
    | JsObject(props: map<string, JsValue>)
    | JsArray(items: seq<JsValue>)

  /** `!!v`: false, 0, the empty string, null and undefined are falsy. */
  predicate JsTruthy(v: JsValue)
  {
    match v
    case JsUndefined => false
    case JsNull => false
    case JsBool(b) => b
    case JsNumber(n) => n != 0
    case JsString(s) => s != ""
    case JsObject(_) => true
    case JsArray(_) => true
  }

  /** The `typeof` operator; `null` and arrays are objects. */
  function TypeOf(v: JsValue): string
  {
    match v
    case JsUndefined => "undefined"
    case JsNull => "object"
    case JsBool(_) => "boolean"
    case JsNumber(_) => "number"
    case JsString(_) => "string"
    case JsObject(_) => "object"
    case JsArray(_) => "object"
  }

  /** Property access `v[key]`: only plain objects carry the properties the
      core reads; on a boolean, number, string or array they are undefined.
      Reading from null or undefined throws in JavaScript; no caller here
      does it, so the value chosen for those two cases is never observed. */
  function Get(v: JsValue, key: string): JsValue
  {
    if v.JsObject? && key in v.props then v.props[key] else JsUndefined
  }

  /** `v === true`. */
  predicate IsTrue(v: JsValue)
  {
    v == JsBool(true)
  }
}
