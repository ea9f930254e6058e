/** Wrappers used across the model: a Java reference that may be
    null becomes an Option, and a call that may throw becomes a Result. */
module Outcomes {

  datatype Option<+T> = None | Some(value: T)

  datatype Result<+R, +E> = Success(value: R) | Failure(error: E)
}
