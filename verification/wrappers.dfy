/** Option stands for a Java reference that may be null. */
module Wrappers {

  datatype Option<+T> = None | Some(value: T)

  /** Outcome of a Java call that returns normally or throws the exception `error`. */
  datatype Outcome<+E> = Pass | Fail(error: E)

  /** Result of a Java call that returns `value` or throws the exception `error`. */
  datatype Result<+R, +E> = Success(value: R) | Failure(error: E)
}
