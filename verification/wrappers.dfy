/** Failure-carrying result types shared by every module of the model.
    A Python exception raised by the source becomes a `Failure` (or `Fail`)
    carrying the error value; normal return becomes `Success` (or `Pass`). */
module Wrappers {

  /** An optional value, used where Python's date arithmetic can overflow. */
  datatype Option<+T> = None | Some(value: T)

  /** Either the value a Python function returns, or the exception it raises. */
  datatype Result<+T, +E> = Success(value: T) | Failure(error: E) {

    predicate IsFailure() {
      Failure?
    }

    function PropagateFailure<U>(): Result<U, E>
      requires Failure?
    {
      Failure(error)
    }

    function Extract(): T
      requires Success?
    {
      value
    }
  }

  /** The outcome of a Python function that returns None or raises. */
  datatype Outcome<+E> = Pass | Fail(error: E)
}
