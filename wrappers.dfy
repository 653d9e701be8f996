/** Failure-carrying results, standing for Go's `(value, err)` return pairs. */
module Wrappers {

  /** A value, or the error that prevented it. */
  datatype Result<+T, +E> = Success(value: T) | Failure(error: E)

  /** Success with no value, or an error: a bare Go `error` return. */
  datatype Outcome<+E> = Pass | Fail(error: E)
}
