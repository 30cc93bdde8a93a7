/** Failure-compatible wrappers used throughout the model: an optional value and a
    success-or-error result (the model's stand-in for a thrown exception). */
module Wrappers {

  datatype Option<+T> = None | Some(value: T)

  datatype Result<+R, +E> = Success(value: R) | Failure(error: E)
}
