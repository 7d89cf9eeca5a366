/** Failure-carrying result types shared by every module of the model. */
module Wrappers {

  datatype Option<+T> = None | Some(value: T)

  /** The value of a call that either returns or raises one of the model's errors. */
  datatype Result<+T, +E> = Success(value: T) | Failure(error: E)
}
