/** Option and Result values used for absent report keys and for the
    engine's error returns. */
module Wrappers {

  /** A value that may be absent, as a report key that is only sometimes set. */
  datatype Option<+T> = None | Some(value: T)

  /** Either a computed value or the error the engine reports instead. */
  datatype Result<+R, +E> = Success(value: R) | Failure(error: E) {
    predicate IsFailure() {
      Failure?
    }

    function PropagateFailure<U>(): Result<U, E>
      requires Failure?
    {
      Failure(error)
    }

    function Extract(): R
      requires Success?
    {
      value
    }
  }
}
