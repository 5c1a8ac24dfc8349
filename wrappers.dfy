/** Option and failure carriers shared by every module of the model. */
module Wrappers {

  /** A value or nothing: `null`/`undefined` in the source. */
  datatype Option<+T> = None | Some(value: T)

  /** The outcome of an operation that either completes or throws. */
  datatype Outcome<+E> = Pass | Fail(error: E)

  /** A value or the error a call threw instead of returning it. */
  datatype Result<+T, +E> = Ok(value: T) | Err(error: E)
}
