/** Failure-compatible wrappers used throughout the converter model. */
module Wrappers {

  /** An optional value: the result of a partial reader or of a serializer that may throw. */
  datatype Option<+T> = None | Some(value: T)

  /** Either a computed value or the error that the converter would throw. */
  datatype Result<+T, +E> = Success(value: T) | Failure(error: E) {

    predicate IsFailure() {
      Failure?
    }

    function PropagateFailure<U>(): Result<U, E>
      requires Failure?
    {
      Failure(error)
    }

    function Extract(): T
      requires Success?
    {
      value
    }
  }
}
