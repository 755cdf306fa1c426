/** Option and Result, used for Rust's `Option` and for the panics of the source. */
module Wrappers {

  datatype Option<+T> = None | Some(value: T)

  /** `Err` carries the reason a Rust `assert!`, `expect` or `unwrap` would abort the call. */
  datatype Result<+T, +E> = Ok(value: T) | Err(error: E)
}
