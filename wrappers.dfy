/** Failure-carrying values used by the rest of the model. */
module Wrappers {

  /** A value that may be absent, as a Python `None` result. */
  datatype Option<+T> = None | Some(value: T)

  /** A value or the error (exception) that replaced it. */
  datatype Result<+T, +E> = Ok(value: T) | Err(error: E)

  /** Success without a value, or the error (exception) raised. */
  datatype Outcome<+E> = Pass | Fail(error: E)
}
