/** Optional values and results that may be errors. */
module Wrappers {

  datatype Option<+T> = None | Some(value: T)

  datatype Result<+T, +R> = Success(value: T) | Failure(error: R) {
    predicate IsFailure() {
      Failure?
    }

    function PropagateFailure<U>(): Result<U, R>
      requires Failure?
    {
      Failure(error)
    }

    function Extract(): T
      requires Success?
    {
      value
    }
  }
}
