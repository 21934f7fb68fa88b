/** Failure-carrying values used across the model: an optional value, and the
    outcome of a call that either returns or raises. */
module Wrappers {

  datatype Option<+T> = None | Some(value: T)

  /** `Failure` stands for a Python exception that propagates to the caller. */
  datatype Result<+R, +E> = Success(value: R) | Failure(error: E)
}
