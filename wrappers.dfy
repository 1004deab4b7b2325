/** Failure-carrying values standing in for the scripts' exceptions and `None`. */
module Wrappers {

  datatype Option<+T> = None | Some(value: T)

  /** The value of a call that either returns or raises. */
  datatype Result<+R, +E> = Success(value: R) | Failure(error: E)

  /** The value of a check that either passes or raises. */
  datatype Outcome<+E> = Pass | Fail(error: E)
}
