/** Failure-carrying values shared by every module of the model. */
module Results {

  /** A value that may be absent (a Go zero value / missing lookup). */
  datatype Option<+T> = None | Some(value: T)

  /** The Go `(value, error)` pair: exactly one of the two is meaningful. */
  datatype Result<+T, +E> = Ok(value: T) | Err(error: E)
}
