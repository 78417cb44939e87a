/** Failure-carrying wrappers shared by every module of the model. */
module Results {

  /** An optional value, as Rust's `Option<T>`. */
  datatype Option<+T> = None | Some(value: T)

  /** The outcome of a fallible operation, as `anyhow::Result<T>`: the error
      side carries the message the source attaches to the failure. */
  datatype Result<+T> = Ok(value: T) | Err(msg: string)
}
