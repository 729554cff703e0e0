/** Results shared by the other modules. */
module Wrappers {

  /** A value, or the absence of one (`None` in Python, `null` in JavaScript). */
  datatype Option<+T> = None | Some(value: T)

  /** A returned value, or the exception that left the call. */
  datatype Result<+T, +E> = Ok(value: T) | Err(error: E)
}
