/** The two wrappers every module shares. */
module Prelude {

  /** A value that may be absent: a nullable column, an empty parent id, a missing map entry. */
  datatype Option<+T> = None | Some(value: T) {
    function GetOr(default: T): T {
      match this
      case Some(v) => v
      case None => default
    }
  }

  /** A value or an error, for the two-result convention of Go. */
  datatype Result<+T, +E> = Ok(value: T) | Err(error: E)
}
