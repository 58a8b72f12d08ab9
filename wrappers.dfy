/** Option and Result, the two failure-carrying datatypes the model uses. */
module Wrappers {

  /** `nil` or a value, as Ruby's optional hash entries are. */
  datatype Option<+T> = None | Some(value: T) {
    function GetOr(default: T): T {
      match this
      case Some(v) => v
      case None => default
    }
  }

  /** A computation that either produced a value or raised. */
  datatype Result<+T, +E> = Ok(value: T) | Err(error: E)
}
