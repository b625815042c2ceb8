/** Optional values and results, for the nulls and exceptions of the original. */
module Wrappers {

  datatype Option<+T> = None | Some(value: T)

  /** A result or an error; `:-` passes errors on. */
  datatype Result<+T, +E> = Ok(value: T) | Err(error: E) {

    predicate IsFailure() {
      Err?
    }

    function PropagateFailure<U>(): Result<U, E>
      requires Err?
    {
      Err(error)
    }

    function Extract(): T
      requires Ok?
    {
      value
    }
  }
}
