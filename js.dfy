/** JavaScript values as they reach the guards and the callback handler, and the two coercions the code relies on. */
module Js {
  import opened Text

  /** A JSON/JavaScript value; numbers are integers here. */
  datatype JsValue = JsNumber(n: int) | JsString(s: string) | JsBool(b: bool) | JsNull | JsUndefined

  /** JavaScript truthiness: 0, "", false, null and undefined are falsy. */
  predicate Truthy(v: JsValue)
  {
    match v
    case JsNumber(n) => n != 0
    case JsString(s) => s != ""
    case JsBool(b) => b
    case _ => false
  }

  /**
   * `v.toString()` for a number, a string or a boolean. For null and
   * undefined, where `toString` throws, it answers their names; the services
   * only call it behind a `Truthy` guard, so those cases are never reached.
   */
  function ToText(v: JsValue): string
  {
    match v
    case JsNumber(n) => IntToString(n)
    case JsString(s) => s
    case JsBool(b) => if b then "true" else "false"
    case JsNull => "null"
    case JsUndefined => "undefined"
  }
}
