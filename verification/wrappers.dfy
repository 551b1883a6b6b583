/** Failure-compatible wrappers shared by the modules of this project. */
module Wrappers {

  /** A value that may be absent; stands for Java's `null` and JavaScript's missing properties. */
  datatype Option<+T> = None | Some(value: T)

  /** Either a successful value or the error an operation raises instead. */
  datatype Result<+T, +E> = Success(value: T) | Failure(error: E) {
    predicate IsFailure() {
      Failure?
    }

    function PropagateFailure<U>(): Result<U, E>
      requires Failure?
    {
      Failure(error)
    }

    function Extract(): T
      requires Success?
    {
      value
    }
  }
}
