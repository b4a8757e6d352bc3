/** The JSON values an HTTP request body can carry, as the route handlers see
    them after body parsing. */
module Json {

  /** `Undefined` is what destructuring yields for a key the body does not have. */
  datatype Value =
    | Undefined
    | Null
    | Bool(b: bool)
    | Num(n: real)
    | Str(s: string)
    | Arr(items: seq<Value>)
    | Obj(fields: map<string, Value>)

  /** JavaScript truthiness of a value (`x || y` picks y exactly when x is not truthy).
      Arrays and objects are truthy even when empty. */
  predicate Truthy(v: Value)
  {
    match v
    case Undefined => false
    case Null => false
    case Bool(b) => b
    case Num(n) => n != 0.0
    case Str(s) => s != ""
    case Arr(_) => true
    case Obj(_) => true
  }
}
