/** Values shared by the schema and the route handlers: optional fields of a
    JSON request body, a result type for validation, and JavaScript's
    truthiness as the handlers apply it to body fields with `if (!x)`. */
module Basics {

  /** A request-body field: absent (`undefined`) or present with a value. */
  datatype Option<T> = None | Some(value: T)

  datatype Result<T, E> = Ok(value: T) | Err(error: E)

  /** A string field is truthy when it is present and not the empty string. */
  predicate StringGiven(f: Option<string>)
  {
    f.Some? && f.value != ""
  }

  /** An array field is truthy whenever it is present: `[]` is truthy. */
  predicate ArrayGiven<T>(f: Option<seq<T>>)
  {
    f.Some?
  }

  /** A boolean field is truthy only when it is present and `true`. */
  predicate FlagGiven(f: Option<bool>)
  {
    f == Some(true)
  }
}
