/** Option and Result, used wherever the source has an absent value or an error reply. */
module Wrappers {

  datatype Option<+T> = None | Some(value: T) {

    /** The value, or `default` when absent (JavaScript's `x ?? default`). */
    function GetOr(default: T): T {
      match this
      case Some(v) => v
      case None => default
    }
  }

  /** A successful value or the error a handler answers with. */
  datatype Result<+T, +E> = Ok(value: T) | Err(error: E)
}
