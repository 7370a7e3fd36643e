// Small result types shared by every module of the model.
module Wrappers {
  datatype Option<T> = None | Some(value: T)

  /** A fallible return value (Rust's `Result<T, Error>`). */
  datatype Result<T, E> = Ok(value: T) | Err(error: E)

  /**
   * The outcome of code that may panic (`unwrap`, `expect`, `assert!`,
   * `unimplemented!`, division by zero).  A panic aborts the program, so it is
   * kept apart from ordinary error returns.
   */
  datatype Checked<T> = Done(value: T) | Panic(reason: string)
}
