/// Option and Result values used throughout the model for Rust's `Option<T>`
/// and `Result<T, E>`.
module Wrappers {

  datatype Option<+T> = None | Some(value: T) {
    /** The contained value, or `default` when there is none (`unwrap_or`). */
    function GetOr(default: T): T {
      match this
      case Some(v) => v
      case None => default
    }
  }

  datatype Result<+T, +E> = Ok(value: T) | Err(error: E)

  /** The unit value carried by `Ok(())`. */
  datatype Unit = Unit
}
