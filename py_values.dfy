/** Python runtime values the trend clients and the request handler work on:
    decoded JSON documents, the exceptions the code raises or catches, and
    the subscript and key-lookup operators with the failures Python reports. */
module PyValues {

  datatype Option<+T> = None | Some(value: T)

  /** A value or the exception that was raised instead of producing it. */
  datatype Result<+T> = Ok(value: T) | Err(error: Exception)

  /** The exception classes that matter to the modelled code: which handler
      catches them depends on the class. */
  datatype Exception =
    | RequestException  // requests.RequestException, including the HTTPError of raise_for_status
    | KeyError
    | TypeError
    | AttributeError
    | RuntimeError      // what the tests' failing stub raises

  /** A decoded JSON document as Python holds it: None, bool, int/float,
      str, list and dict (JSON object keys are always strings). */
  datatype Json =
    | JNull
    | JBool(b: bool)
    | JNum(n: real)
    | JStr(s: string)
    | JArr(items: seq<Json>)
    | JObj(fields: map<string, Json>)

  /** `bool(v)`: None, False, zero, and empty str/list/dict are falsy. */
  predicate Truthy(v: Json) {
    match v
    case JNull => false
    case JBool(b) => b
    case JNum(n) => n != 0.0
    case JStr(s) => s != []
    case JArr(xs) => xs != []
    case JObj(m) => m != map[]
  }

  /** `v[i]` for a non-negative integer index. A list yields its element, a
      str its one-character substring; an index past the end raises
      IndexError, a dict raises KeyError (its keys are strings, never ints),
      anything else raises TypeError. None stands for any of those. */
  function Subscript(v: Json, i: nat): Option<Json> {
    match v
    case JArr(xs) => if i < |xs| then Some(xs[i]) else None
    case JStr(s) => if i < |s| then Some(JStr([s[i]])) else None
    case _ => None
  }

  /** `v[key]` for a str key: a dict yields the value or raises KeyError;
      every other value raises TypeError. */
  function GetItem(v: Json, key: string): Result<Json> {
    match v
    case JObj(m) => if key in m then Ok(m[key]) else Err(KeyError)
    case _ => Err(TypeError)
  }

  /** Whether a decoded value may be used as a dict key (list and dict are
      unhashable). */
  predicate Hashable(v: Json) {
    !v.JArr? && !v.JObj?
  }
}
