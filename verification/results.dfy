/** Optional values and results with an error, usable with `:-`. */
module Results {

  /** A value that may be absent; stands for a Java reference that may be null. */
  datatype Option<+T> = None | Some(value: T) {
    predicate IsFailure() { None? }

    function PropagateFailure<U>(): Option<U>
      requires None?
    {
      None
    }

    function Extract(): T
      requires Some?
    {
      value
    }
  }

  /** Either a value or the error that ended the computation; stands for a thrown exception. */
  datatype Result<+T, +E> = Success(value: T) | Failure(error: E) {
    predicate IsFailure() { Failure? }

    function PropagateFailure<U>(): Result<U, E>
      requires Failure?
    {
      Failure(error)
    }

    function Extract(): T
      requires Success?
    {
      value
    }
  }

  /** The value a setter leaves behind: `update` when it is present, otherwise `current`. */
  function Overlay<T>(current: Option<T>, update: Option<T>): Option<T> {
    if update.Some? then update else current
  }
}
