/** Error values shared by the SDK commands and the server, and the result
    wrappers that stand for Rust's `Result<T, E>`. */
module Errors {

  /** The subset of the SDK's `iggy::error::Error` that the modelled code
      produces or passes on. Errors raised by code outside this model
      (identifier parsing, loading state from disk, ...) are carried as
      `External`, tagged with a name. `InvalidUtf8` stands for the error
      that `?` converts a `std::str::Utf8Error` into; that conversion is
      not part of this model. */
  datatype Error =
    | InvalidCommand
    | InvalidUtf8
    | Unauthorized
    | Unauthenticated
    | CannotCreateBaseDirectory
    | CannotCreateStreamsDirectory
    | External(name: string)

  /** Rust's `Result<T, E>`; Dafny's unit type `()` stands for Rust's `()`. */
  datatype Result<+T, +E> = Ok(value: T) | Err(error: E)

  /** Rust's `Option<T>`. */
  datatype Option<+T> = None | Some(value: T)
}
