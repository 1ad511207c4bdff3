/** Optional values and computations that may raise, shared by the models. */
module Wrappers {

  datatype Option<+T> = None | Some(value: T)

  /** A Python computation that may raise: the exception is the value of `Failure`. */
  datatype Result<+T, +E> = Success(value: T) | Failure(error: E) {
    predicate IsFailure() {
      Failure?
    }

    function PropagateFailure<U>(): Result<U, E>
      requires Failure?
    {
      Failure(error)
    }

    function Extract(): T
      requires Success?
    {
      value
    }
  }
}
