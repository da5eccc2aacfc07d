/** Failure-carrying values shared by every layer of the shop model. */
module Wrappers {

  /** An optional value; `None` stands for Go's `nil` (an absent error, a missing row). */
  datatype Option<+T> = None | Some(value: T)

  /** A value or an error, for Go's `(value, error)` return pairs whose value is
      meaningless when the error is set. */
  datatype Result<+T, +E> = Success(value: T) | Failure(error: E)
}
