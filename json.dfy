/** The JSON values that AnkiConnect replies and the settings file carry,
    and Python's truthiness on them. */
module Json {

  /** A JSON value that is not a container. */
  datatype Scalar = Null | Bool(b: bool) | Int(i: int) | Str(s: string)

  /** A JSON object whose members are scalars (an AnkiConnect reply). */
  type Object = map<string, Scalar>

  /** `bool(v)` in Python. */
  predicate Truthy(v: Scalar)
  {
    match v
    case Null => false
    case Bool(b) => b
    case Int(i) => i != 0
    case Str(s) => s != ""
  }

  /** A dict is truthy exactly when it is not empty. */
  predicate ObjectTruthy(o: Object)
  {
    |o| > 0
  }

  /** `o.get(key)` read for truthiness: an absent key reads as None. */
  predicate MemberTruthy(o: Object, key: string)
  {
    key in o && Truthy(o[key])
  }
}
