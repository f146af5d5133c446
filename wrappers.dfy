/** Option, Result and Outcome: the shapes of Rust's `Option<T>`, `Result<T, E>`
    and `Result<(), E>` used throughout the model. */
module Wrappers {

  datatype Option<+T> = None | Some(value: T)

  datatype Result<+T, +E> = Success(value: T) | Failure(error: E)

  /** `Result<(), E>`: success carries nothing. */
  datatype Outcome<+E> = Pass | Fail(error: E)
}
