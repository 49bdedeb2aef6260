/** Failure-carrying datatypes shared by the model. */
module Wrappers {

  /** Rust's `Option<T>`. */
  datatype Option<+T> = None | Some(value: T)

  /** Rust's `Result<T, E>`. */
  datatype Result<+T, +E> = Ok(value: T) | Err(error: E)

  /** How a Rust computation ends: with a value, or with a panic (an `unwrap` on `None`/`Err`,
      an index out of range, an integer overflow). A panic is not an error value the caller
      can inspect; the model keeps it apart from `Result` for that reason. */
  datatype Outcome<+T> = Returned(value: T) | Panicked
}
