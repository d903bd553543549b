/** Rust's `Option` and `Result`, as the model's return types for lookups and fallible calls. */
module Wrappers {

  datatype Option<+T> = None | Some(value: T)

  datatype Result<+R, +E> = Success(value: R) | Failure(error: E)
}
