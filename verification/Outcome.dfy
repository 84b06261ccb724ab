/** Optional and failing results, shared by every model. */
module Outcome {
  datatype Option<+T> = None | Some(value: T)

  /** A value, or the error the source throws or returns; usable with `:-`. */
  datatype Result<+T, +E> = Ok(value: T) | Err(error: E) {
    predicate IsFailure() {
      Err?
    }

    function PropagateFailure<U>(): Result<U, E>
      requires Err?
    {
      Err(error)
    }

    function Extract(): T
      requires Ok?
    {
      value
    }
  }
}
