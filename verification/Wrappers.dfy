/** Outcomes of operations that the program reports by returning or by raising. */
module Wrappers {

  datatype Option<+T> = None | Some(value: T)

  /** A value, or the exception that replaced it. */
  datatype Result<+T, +E> = Success(value: T) | Failure(error: E) {
    predicate IsFailure() {
      Failure?
    }

    function PropagateFailure<U>(): Result<U, E>
      requires Failure?
    {
      Failure(error)
    }

    function Extract(): T
      requires Success?
    {
      value
    }
  }
}
