/** Option and Result: the error outcomes that the services raise as HTTP exceptions become values. */
module Wrappers {

  datatype Option<+T> = None | Some(value: T)

  datatype Result<+T, +E> = Success(value: T) | Failure(error: E)

  /** An operation that returns nothing on success. */
  datatype Outcome<+E> = Pass | Fail(error: E)
}
