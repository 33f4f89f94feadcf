/** Nullable values and value-or-error results. */
module Wrappers {

  /** A nullable column or an optional request field. */
  datatype Option<+T> = None | Some(value: T)

  /** The outcome of an operation that can fail with an error value. */
  datatype Result<+R, +E> = Success(value: R) | Failure(error: E)
}
