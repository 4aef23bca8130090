/** Request bodies as parsed JSON values and the responses the routes send.
    JSON numbers are integers here; fractional numbers and NaN are not part
    of this model. */
module Http {

  /** A JSON value as Express hands it to a route; `Undefined` is a missing
      field. Arrays and objects only matter by being truthy. */
  datatype Json = Undefined | Null | Bool(b: bool) | Number(n: int) | Text(s: string) | Composite

  /** JavaScript truthiness. */
  predicate Truthy(v: Json)
  {
    match v
    case Undefined => false
    case Null => false
    case Bool(b) => b
    case Number(n) => n != 0
    case Text(s) => s != ""
    case Composite => true
  }

  datatype Body =
    | Error(error: string)
    | Message(message: string)
    | ClickTracked(message: string, id: int, userId: int, featureName: string, timestampMs: int)
    | UserInfo(message: string, id: int, username: string, age: int, gender: string)

  datatype Reply = Reply(status: int, body: Body)
}
