/** Failure-compatible wrappers used by every handler of the model: an
    optional value (a field that may be absent from a request or a record)
    and the outcome of a handler (the new state, or the error it reports). */
module Results {

  datatype Option<+T> = None | Some(value: T) {

    /** The wrapped value, or `default` when the field is absent. */
    function GetOr(default: T): T {
      match this
      case Some(v) => v
      case None => default
    }
  }

  datatype Result<+T, +E> = Success(value: T) | Failure(error: E) {

    predicate IsFailure() {
      Failure?
    }

    function PropagateFailure<U>(): Result<U, E>
      requires Failure?
    {
      Failure(error)
    }

    function Extract(): T
      requires Success?
    {
      value
    }
  }
}
