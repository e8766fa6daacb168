/** Failure-carrying wrappers shared by every module of the model. */
module Results {

  /** A value that may be absent: Go's nil, or a parse that failed. */
  datatype Option<+T> = None | Some(value: T)

  /** A Go `(value, error)` pair where exactly one half is meaningful. */
  datatype Result<+T, +E> = Ok(value: T) | Err(error: E)
}
