/** Option, the shape of Rust's `Option<T>` used throughout the model. */
module Wrappers {

  datatype Option<+T> = None | Some(value: T)
  {
    /** Returns the value in Some, or `default` for None (Rust's `unwrap_or`). */
    function GetOr(default: T): T
    {
      match this
      case Some(v) => v
      case None => default
    }
  }
}
