/** Failure-carrying wrappers and the shape of the JSON data every module stores. */
module Basics {

  /** A value that may be absent: Python's `None` versus a result. */
  datatype Option<+T> = None | Some(value: T)

  /** A computation that returns a value or raises an error. */
  datatype Result<+R, +E> = Success(value: R) | Failure(error: E)

  type Bytes = seq<bv8>

  /** A JSON value as Python's `json` module loads it: a `str`, or any other
      value (number, boolean, null, list, object), of which only its Python
      truthiness matters to the code modelled here. */
  datatype Value = Str(text: string) | NonStr(truthy: bool)

  /** Python truthiness: an empty string is falsy. */
  predicate Truthy(v: Value) {
    match v
    case Str(t) => t != []
    case NonStr(b) => b
  }

  /** A JSON object, that is a Python `dict` with string keys. */
  type Document = map<string, Value>

  /** `d.get(key, default)`. */
  function Get(d: Document, key: string, default: Value): (v: Value)
    ensures key in d ==> v == d[key]
    ensures key !in d ==> v == default
  {
    if key in d then d[key] else default
  }
}
