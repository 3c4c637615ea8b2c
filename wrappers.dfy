/** Failure-carrying values used in place of the exceptions the Python code raises. */
module Wrappers {

  datatype Option<+T> = None | Some(value: T)

  /** A value, or the exception that computing it raised. */
  datatype Result<+T, +E> = Ok(value: T) | Err(error: E)

  /** The outcome of a procedure that returns nothing on success. */
  datatype Outcome<+E> = Pass | Fail(error: E)
}
