/**
 * The values the Flask handlers of backend/app.py receive and pass on: parsed
 * JSON as Python sees it, Python truthiness, `dict.get`, and how a handler
 * ends.
 */
module Json {

  /** A parsed JSON value. Numbers are integers. */
  datatype Json =
    | JNull
    | JBool(b: bool)
    | JNum(n: int)
    | JStr(s: string)
    | JArr(items: seq<Json>)
    | JObj(fields: map<string, Json>)

  /** Python truthiness of the value `json.loads` gives: `None`, `False`, `0`, `""`, `[]` and `{}` are false. */
  predicate Truthy(j: Json) {
    match j
    case JNull => false
    case JBool(b) => b
    case JNum(n) => n != 0
    case JStr(s) => s != ""
    case JArr(items) => items != []
    case JObj(fields) => fields != map[]
  }

  /** `d.get(key, default)`; `d.get(key)` is `Get(d, key, JNull)`. */
  function Get(d: map<string, Json>, key: string, default: Json): (r: Json)
    ensures key in d ==> r == d[key]
    ensures key !in d ==> r == default
  {
    if key in d then d[key] else default
  }

  /**
   * How a handler ends: an answer of its own with an error status and
   * message, an exception caught by its `except Exception` (answered with
   * status 500 and the exception's text), or success with a value that the
   * handler goes on to use.
   */
  datatype Handled<T> =
    | Rejected(status: int, error: string)
    | Raised
    | Accepted(value: T)
}
