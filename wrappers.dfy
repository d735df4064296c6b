/** Optional values and fallible results, the Dafny counterparts of Swift's
    `Optional` and of a call that `throws`. `Result` is failure-compatible, so
    `:-` propagates an error the way `try` does. */
module Wrappers {

  datatype Option<+T> = None | Some(value: T)

  datatype Result<+R, +E> = Success(value: R) | Failure(error: E) {

    predicate IsFailure() {
      Failure?
    }

    function PropagateFailure<U>(): Result<U, E>
      requires Failure?
    {
      Failure(error)
    }

    function Extract(): R
      requires Success?
    {
      value
    }
  }
}
