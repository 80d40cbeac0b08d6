/** Failure-carrying datatypes shared by the whole model. */
module Wrappers {

  /** Rust's `Option<T>`. */
  datatype Option<+T> = None | Some(value: T)

  /** Rust's `Result<T, E>`. */
  datatype Result<+T, +E> = Ok(value: T) | Err(error: E)

  /**
   * The outcome of code that may panic (an `unwrap` or `expect` on a
   * failed parse): either it returns a value or it aborts the request.
   */
  datatype Outcome<+T> = Returned(value: T) | Panicked
}
