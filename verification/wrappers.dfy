/** Option and Result values used throughout the model: `Option` stands for a
    reference that may be null, `Result` for a computation that may throw. */
module Wrappers {

  /** A value that may be absent (the source's `null`). */
  datatype Option<+T> = None | Some(value: T)

  /** Either a value or the failure that propagates to the caller (the source's
      uncaught exception). */
  datatype Result<+T, +E> = Success(value: T) | Failure(error: E)
}
