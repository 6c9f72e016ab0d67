/** Failure-compatible result types shared by the whole model. */
module Wrappers {

  /** A value that may be absent: JavaScript's `undefined`/`null`. */
  datatype Option<+T> = None | Some(value: T) {
    function GetOr(default: T): T {
      match this
      case Some(v) => v
      case None => default
    }
  }

  /** A check that either passes or fails with an error (a JavaScript `throw`). */
  datatype Outcome<+E> = Pass | Fail(error: E)

  /** A computation that either returns a value or fails with an error. */
  datatype Result<+R, +E> = Ok(value: R) | Err(error: E)
}
