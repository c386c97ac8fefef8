/** Option, Result and Outcome: the model's stand-ins for Java's nulls, Optional and thrown exceptions. */
module Wrappers {

  datatype Option<+T> = None | Some(value: T) {
    function GetOr(default: T): T {
      match this
      case Some(v) => v
      case None => default
    }
  }

  datatype Result<+R, +E> = Ok(value: R) | Err(error: E)

  /** The result of an operation that returns nothing (Java `void`) but may fail. */
  datatype Outcome<+E> = Pass | Fail(error: E)
}
