/** Option and Result, the two failure-carrying shapes the model uses for
    PHP's nullable returns and thrown exceptions. */
module Wrappers {

  datatype Option<+T> = None | Some(value: T)

  /** A value, or the exception the operation threw instead. */
  datatype Result<+T, +E> = Ok(value: T) | Err(error: E)

  /** An operation with no return value that completes or throws. */
  datatype Outcome<+E> = Pass | Fail(error: E)
}
