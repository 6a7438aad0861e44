/** Failure-compatible wrappers shared by every module of the model. */
module Wrappers {

  datatype Option<+T> = None | Some(value: T)

  /** The Python exceptions that the modelled code can raise. Any of them
      aborts the whole run of `generate_statistics` or of the synthesis loop. */
  datatype PyError = IndexError | KeyError | ValueError | ZeroDivisionError

  /** The outcome of a Python computation: a value, or the exception it raised. */
  datatype Result<+T> = Ok(value: T) | Err(error: PyError) {

    predicate IsFailure() {
      Err?
    }

    function PropagateFailure<U>(): Result<U>
      requires Err?
    {
      Err(error)
    }

    function Extract(): T
      requires Ok?
    {
      value
    }
  }
}
