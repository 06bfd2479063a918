/** Failure-carrying values shared by the other modules: `Option` for a Java
    reference that may be null, `Result` for a value or the exception thrown
    instead of it. */
module Results {

  /** A value that may be absent (a nullable Java reference). */
  datatype Option<+T> = None | Some(value: T)

  /** Either the value an operation returns or the exception it throws. */
  datatype Result<+T, +E> = Ok(value: T) | Err(error: E)
}
