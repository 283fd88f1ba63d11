/** Failure-compatible wrappers used for the exceptions and null results of the modelled code. */
module Results {

  /** A value that may be absent (C# `null`). */
  datatype Option<+T> = None | Some(value: T)

  /** Either a value or the error that the C# code would raise as an exception. */
  datatype Result<+T, +E> = Ok(value: T) | Err(error: E) {

    predicate IsFailure() {
      Err?
    }

    function PropagateFailure<U>(): Result<U, E>
      requires Err?
    {
      Err(error)
    }

    function Extract(): T
      requires Ok?
    {
      value
    }
  }
}
