/** Success-or-failure values for instruction outcomes, usable with `:-`. */
module Results {

  /** The value an instruction produced, or the error it aborted with. */
  datatype Result<+T, +E> = Ok(value: T) | Err(error: E) {

    predicate IsFailure() {
      Err?
    }

    function PropagateFailure<U>(): Result<U, E>
      requires Err?
    {
      Err(error)
    }

    function Extract(): T
      requires Ok?
    {
      value
    }
  }

  /** An optional value: `Some(value)` when there is one, `None` otherwise. */
  datatype Option<+T> = None | Some(value: T)
}
