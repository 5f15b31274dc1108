/** The value-or-error shapes that stand for Go's `(value, err)` returns and nil pointers. */
module Wrappers {

  datatype Option<+T> = None | Some(value: T)

  /** A success value or an error; failure-compatible, so `:-` propagates the error. */
  datatype Result<+T, +E> = Success(value: T) | Failure(error: E) {

    predicate IsFailure() {
      Failure?
    }

    function PropagateFailure<U>(): Result<U, E>
      requires Failure?
    {
      Failure(error)
    }

    function Extract(): T
      requires Success?
    {
      value
    }
  }
}
