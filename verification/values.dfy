/** Values shared by the whole model: an option type, the outcome of a Python
    call that may raise, and JSON values as Python's `json` module produces them. */
module Values {

  datatype Option<T> = None | Some(value: T)

  /** The exceptions of the license client that nothing catches; they reach
      the host as a failed operation. */
  datatype PyError =
    | AttributeError   // a method called on a value of the wrong type
    | TypeError        // an operator applied to operands of the wrong type

  /** The outcome of a call that either returns a value or raises. */
  datatype Outcome<T> = Returns(value: T) | Throws(error: PyError)

  /** A JSON value. `JNull` is Python's `None`: the license client uses the
      same value for a JSON `null` and for "no answer". Floating-point numbers
      are not modelled. */
  datatype Json =
    | JNull
    | JBool(b: bool)
    | JInt(i: int)
    | JStr(s: string)
    | JArr(items: seq<Json>)
    | JObj(fields: map<string, Json>)

  /** Python truthiness of a JSON value: `None`, `False`, `0` and empty
      strings, lists and objects are false, everything else is true. */
  predicate Truthy(v: Json)
  {
    match v
    case JNull => false
    case JBool(b) => b
    case JInt(i) => i != 0
    case JStr(s) => s != ""
    case JArr(items) => items != []
    case JObj(fields) => fields != map[]
  }

  /** `d.get(key, default)` on a Python dict. */
  function Get(d: map<string, Json>, key: string, default: Json): Json
  {
    if key in d then d[key] else default
  }
}
