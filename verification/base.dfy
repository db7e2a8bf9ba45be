/** Failure-compatible wrappers shared by every module of the model. */
module Base {

  /** A value that may be absent (a pandas NaN / NaT, or a parser that gave up). */
  datatype Option<+T> = None | Some(value: T)

  /** The value of a step, or the hard error that stopped it (usable with `:-`). */
  datatype Result<+T, +E> = Success(value: T) | Failure(error: E) {

    predicate IsFailure() {
      Failure?
    }

    function PropagateFailure<U>(): Result<U, E>
      requires Failure?
    {
      Failure(error)
    }

    function Extract(): T
      requires Success?
    {
      value
    }
  }
}
