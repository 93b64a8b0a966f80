/** Option, Result and Outcome: the values that stand for JavaScript's `undefined`,
    for a thrown error and for an `async` handler that either completes or passes an
    error to `next`. */
module Wrappers {

  datatype Option<+T> = None | Some(value: T) {
    function GetOr(default: T): T {
      match this
      case Some(v) => v
      case None => default
    }
  }

  datatype Result<+R, +E> = Ok(value: R) | Err(error: E)

  datatype Outcome<+E> = Pass | Fail(error: E)
}
