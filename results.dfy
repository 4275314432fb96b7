/** Failure-compatible result types shared by every module of the model.
    `Result` stands for a Python function that either returns a value or raises;
    `Outcome` for one that returns None or raises. */
module Results {

  datatype Option<T> = None | Some(value: T)

  datatype Result<T, E> = Ok(value: T) | Err(error: E) {
    predicate IsFailure() { Err? }

    function PropagateFailure<U>(): Result<U, E>
      requires Err?
    {
      Err(error)
    }

    function Extract(): T
      requires Ok?
    {
      value
    }
  }

  datatype Outcome<E> = Pass | Fail(error: E) {
    predicate IsFailure() { Fail? }

    function PropagateFailure(): Outcome<E>
      requires Fail?
    {
      this
    }
  }
}
