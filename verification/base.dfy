/** Option and Result, the two failure-compatible wrappers the model uses for
    Java's nullable fields and for operations that can throw. */
module Base {

  /** A value that may be absent; stands in for a nullable Java reference. */
  datatype Option<+T> = None | Some(value: T)

  /** Either a value or the error that stopped the computation. */
  datatype Result<+R, +E> = Success(value: R) | Failure(error: E) {

    predicate IsFailure() {
      Failure?
    }

    function PropagateFailure<U>(): Result<U, E>
      requires Failure?
    {
      Failure(error)
    }

    function Extract(): R
      requires Success?
    {
      value
    }
  }
}
