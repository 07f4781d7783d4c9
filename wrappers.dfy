/** Optional values and pass/fail outcomes shared by the whole model. */
module Wrappers {

  datatype Option<+T> = None | Some(value: T)

  /** The result of an operation that either completes or reports an error. */
  datatype Outcome<+E> = Pass | Fail(error: E)

  /** The result of an operation that either yields a value or reports an error. */
  datatype Result<+R, +E> = Success(value: R) | Failure(error: E)
}
