/** Optional values and outcomes of steps that may raise, shared by every module of the model. */
module Wrappers {

  /** A value that may be absent (Python's `None`). */
  datatype Option<+T> = None | Some(value: T)

  /** The outcome of a step that may raise: a value, or the exception raised. */
  datatype Result<+T, +E> = Success(value: T) | Failure(error: E)
}
