/** Failure-compatible result types shared by the launcher model. */
module Wrappers {

  /** A value that may be missing: an absent configuration key, a lookup without a match. */
  datatype Option<+T> = None | Some(value: T)

  /** Either a value or the reason it could not be produced. */
  datatype Result<+R, +E> = Success(value: R) | Failure(error: E)
}
