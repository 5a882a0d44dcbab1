/** An optional value and the outcome of a call that may throw, shared by the other
    modules. */
module Wrappers {

  datatype Option<+T> = None | Some(value: T)

  /** The outcome of a Java call that either returns a value or throws `error`. */
  datatype Result<+R, +E> = Success(value: R) | Failure(error: E)
}
