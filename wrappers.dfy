/** Go's error results: None stands for a nil error, and a Result for a
    value returned together with an error. */
module Wrappers {
  datatype Option<+T> = None | Some(value: T)

  datatype Result<+R, +E> = Success(value: R) | Failure(error: E)
}
