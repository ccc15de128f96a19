/** Failure-compatible wrappers: the model's stand-in for the panics of the Rust code. */
module Results {

  datatype Option<+T> = None | Some(value: T)

  /** Either a value or the kind of failure that stopped the computation. */
  datatype Result<+T, +E> = Ok(value: T) | Err(error: E) {

    predicate IsFailure() {
      Err?
    }

    function PropagateFailure<U>(): Result<U, E>
      requires Err?
    {
      Err(error)
    }

    function Extract(): T
      requires Ok?
    {
      value
    }
  }
}
