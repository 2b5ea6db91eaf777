/**
 * The JSON-compatible values that service payloads and entity fields carry,
 * and the Python exceptions the modelled code can raise.
 */
module Json {

  /** A decoded JSON value (floating-point numbers are not modelled). */
  datatype Value =
    | Null
    | Bool(b: bool)
    | Int(i: int)
    | Str(s: string)
    | Arr(items: seq<Value>)
    | Obj(fields: map<string, Value>)

  /** Python truthiness, `bool(v)`: None, False, 0 and empty strings, lists and dicts are false. */
  predicate Truthy(v: Value) {
    match v
    case Null => false
    case Bool(b) => b
    case Int(i) => i != 0
    case Str(s) => s != ""
    case Arr(items) => items != []
    case Obj(fields) => fields != map[]
  }

  /** The exceptions raised by the modelled code. */
  datatype Error =
    | KeyError(key: string)                              // `d[key]` on a dict without that key
    | AttributeError(name: string)                       // `None.name`
    | TypeError                                          // iterating or subscripting a value that does not allow it
    | ValueError                                         // `dict(x)` for an iterable x that is not a mapping
    | GraphCommonsException(statusCode: int, message: Value)
}
