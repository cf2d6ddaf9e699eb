/** Failure-compatible wrappers used by every operation of the engine. */
module Results {

  /** An optional value: the previous reservation of a rescheduled booking, or a validation error. */
  datatype Option<+T> = None | Some(value: T)

  /** The outcome of an engine operation: a value, or the error the service would throw. */
  datatype Result<+T, +E> = Success(value: T) | Failure(error: E) {

    predicate IsFailure() {
      Failure?
    }

    function PropagateFailure<U>(): Result<U, E>
      requires Failure?
    {
      Failure(error)
    }

    function Extract(): T
      requires Success?
    {
      value
    }
  }
}
