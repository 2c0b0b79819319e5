/** Failure-carrying result types shared by the modules of this project: the C++ code
    signals errors by throwing, and each thrown exception becomes a failure value here. */
module Wrappers {

  datatype Option<+T> = None | Some(value: T)

  /** A computed value, or the exception the C++ code would have thrown instead. */
  datatype Result<+T, +E> = Success(value: T) | Failure(error: E)

  /** An operation without a value that either completes or throws. */
  datatype Outcome<+E> = Pass | Fail(error: E)
}
