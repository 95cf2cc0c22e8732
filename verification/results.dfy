/** Failure-carrying wrappers shared by every module of the model. */
module Results {

  /** A value that may be absent: Go's nil pointer or map miss, JavaScript's undefined. */
  datatype Option<+T> = None | Some(value: T)

  /** The (value, error) pair of a Go call, or a resolved/rejected JavaScript promise. */
  datatype Result<+T, +E> = Ok(value: T) | Err(error: E) {
    predicate IsFailure() { Err? }

    function PropagateFailure<U>(): Result<U, E>
      requires Err?
    {
      Err(error)
    }

    function Extract(): T
      requires Ok?
    {
      value
    }
  }
}
