/** Failure-compatible Option and Result types shared by every module of the model. */
module Wrappers {

  /** A value that may be missing: Spark's SQL `null` on a nullable column. */
  datatype Option<+T> = None | Some(value: T) {
    /** Returns the wrapped value, or `default` when it is missing (Spark's `fillna`). */
    function GetOr(default: T): T {
      match this
      case Some(v) => v
      case None => default
    }
  }

  /** The outcome of a step that may raise: a value, or the error that aborts the run. */
  datatype Result<+R, +E> = Success(value: R) | Failure(error: E) {
    predicate IsFailure() {
      Failure?
    }

    function PropagateFailure<U>(): Result<U, E>
      requires Failure?
    {
      Failure(error)
    }

    function Extract(): R
      requires Success?
    {
      value
    }
  }
}
