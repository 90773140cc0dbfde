/** Option and Result: the missing value (pandas NaN / Python None) and the
    raised exception of the evidence builder, as values. */
module Wrappers {

  datatype Option<+T> = None | Some(value: T)

  /** Failure-compatible, so that `:-` propagates an exception as Python would. */
  datatype Result<+T, +E> = Success(value: T) | Failure(error: E) {

    predicate IsFailure() {
      Failure?
    }

    function PropagateFailure<U>(): Result<U, E>
      requires Failure?
    {
      Failure(error)
    }

    function Extract(): T
      requires Success?
    {
      value
    }
  }
}
