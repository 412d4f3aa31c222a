/** Values that carry either a result or the error that replaced it. */
module Wrappers {
  datatype Option<+T> = None | Some(value: T)

  datatype Result<+R, +E> = Success(value: R) | Failure(error: E)

  /** A result without a value: the operation passed, or failed with an error. */
  datatype Outcome<+E> = Pass | Fail(error: E)
}
