/** Decoded JSON values, as the JSON library hands them to the target. */
module Json {

  /** A decoded JSON value. Integers and floats are both `JNum`; an object is
      a map from its keys to its values. */
  datatype Json =
    | JNull
    | JBool(b: bool)
    | JNum(n: real)
    | JStr(s: string)
    | JArr(items: seq<Json>)
    | JObj(fields: map<string, Json>)

  /** Python's truthiness of the decoded value: `None`, `False`, zero and the
      empty string, list and dict are false, everything else is true. */
  predicate Truthy(j: Json) {
    match j
    case JNull => false
    case JBool(b) => b
    case JNum(n) => n != 0.0
    case JStr(s) => s != ""
    case JArr(items) => items != []
    case JObj(fields) => fields != map[]
  }

  /** A value Python can use as a dict key: lists and dicts are unhashable. */
  predicate Hashable(j: Json) {
    !j.JArr? && !j.JObj?
  }
}
