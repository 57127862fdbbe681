/** Failure-carrying values shared by every module of the model. */
module Common {

  /** A value that may be absent: JavaScript's `null`. */
  datatype Option<T> = None | Some(value: T)

  /** The outcome of an operation that can fail with an error of type E. */
  datatype Result<T, E> = Ok(value: T) | Err(error: E)

  function Min(a: int, b: int): int { if a <= b then a else b }
}
