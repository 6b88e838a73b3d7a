/** Values shared by every part of the token bridge. */
module Common {

  /** Timestamps are whole seconds of UTC time, counted from 1970-01-01T00:00:00. */
  type Time = int

  /** Python's `None` or a present value. */
  datatype Option<+T> = None | Some(value: T)

  /** A handler's answer: a value, or the HTTP error it raises. */
  datatype Result<+T, +E> = Ok(value: T) | Err(error: E)

  /** An HTTP error response: status code and detail text. */
  datatype HttpError = HttpError(status: int, detail: string)

  const BadRequest := 400
  const Unauthorized := 401
  const NotFound := 404
  const InternalServerError := 500

  /** Python truthiness of an optional string: present and non-empty. */
  predicate Truthy(s: Option<string>) {
    s.Some? && s.value != ""
  }
}
