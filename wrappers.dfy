/** Option, Result and Outcome: the tagged values that stand for the source's nulls and exceptions. */
module Wrappers {

  datatype Option<+T> = None | Some(value: T)

  /** A value or the error (exception) that was raised instead. */
  datatype Result<+R, +E> = Ok(value: R) | Err(error: E)

  /** Success without a value, or the error that was raised. */
  datatype Outcome<+E> = Pass | Fail(error: E)
}
