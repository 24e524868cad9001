/** Option and Result values shared by every stage of the pipeline. */
module Common {

  datatype Option<+T> = None | Some(value: T)

  /** A stage either produces a value or stops with the error it throws. */
  datatype Result<+T, +E> = Ok(value: T) | Err(error: E) {
    predicate IsFailure() { Err? }

    function PropagateFailure<U>(): Result<U, E>
      requires Err?
    {
      Err(error)
    }

    function Extract(): T
      requires Ok?
    {
      value
    }
  }
}
