/** Option and Result, the two failure-carrying shapes the Rust code uses
    (`Option<T>` and `Result<T, E>` / `anyhow::Result<T>`). */
module Wrappers {

  datatype Option<+T> = None | Some(value: T) {
    /** `Option::unwrap_or(default)` */
    function UnwrapOr(default: T): T {
      match this
      case Some(v) => v
      case None => default
    }
  }

  datatype Result<+T, +E> = Ok(value: T) | Err(error: E)
}
