/** The JSON a controller hands to Express: a status code and a body. */
module Json {
  import opened Wrappers

  /** The scalar values the controllers put into responses. */
  datatype Value = Str(s: string) | Num(n: int) | Bool(b: bool)

  /** A JSON object as it leaves `res.json`: a key whose value is `undefined`
      is dropped by the serialiser, so it is simply absent here. */
  type Doc = map<string, Value>

  datatype Body =
    | Error(message: string)        // `{ error: message }`
    | Object(doc: Doc)              // a single object
    | Array(items: seq<Doc>)        // a JSON array of objects
    | FileEnvelope(file: Doc)       // `{ file: doc }`

  /** Either the controller answers, or the promise it returns rejects and it
      writes no answer at all (no handler in the controllers maps store or
      filesystem failures to a status). */
  datatype Response = Reply(status: int, body: Body) | Rejected

  /** JavaScript truthiness of an optional string field of a request:
      `undefined`, `null` and `''` are falsy, every other string is truthy. */
  predicate Truthy(field: Option<string>)
  {
    field.Some? && field.value != ""
  }
}
