/** Optional values and success-or-error results, the two shapes in which the
    model reports a pandas null (NaN / NaT) and a raised exception. */
module Outcomes {

  /** A value that may be missing: `None` stands for a null cell. */
  datatype Option<+T> = None | Some(value: T)

  /** The outcome of a step that may raise: `Failure` carries what was raised. */
  datatype Result<+T, +E> = Success(value: T) | Failure(error: E) {

    predicate IsFailure() {
      Failure?
    }

    function PropagateFailure<U>(): Result<U, E>
      requires Failure?
    {
      Failure(error)
    }

    function Extract(): T
      requires Success?
    {
      value
    }
  }
}
