/** Failure-compatible result types shared by the decoder and the configuration parser. */
module Wrappers {

  /** An optional value: the C# `null` of a lookup or of an engine call that failed. */
  datatype Option<+T> = None | Some(value: T)

  /** Either a value or the error that replaced it (a C# exception or a `null` return). */
  datatype Result<+T, +E> = Ok(value: T) | Err(error: E) {

    predicate IsFailure() {
      Err?
    }

    function PropagateFailure<U>(): Result<U, E>
      requires Err?
    {
      Err(error)
    }

    function Extract(): T
      requires Ok?
    {
      value
    }
  }
}
