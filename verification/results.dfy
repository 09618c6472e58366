/** Failure-carrying wrappers shared by every module of the model. */
module Results {

  /** An optional value, standing for Rust's `Option` and for a nullable value in TypeScript. */
  datatype Option<+T> = None | Some(value: T)

  /** A value or an error, standing for Rust's `Result`. */
  datatype Result<+T, +E> = Ok(value: T) | Err(error: E)
}
