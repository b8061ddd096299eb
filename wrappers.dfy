/** Failure-carrying values: JavaScript's `undefined` and rejected promises. */
module Wrappers {

  datatype Option<+T> = None | Some(value: T) {
    function GetOr(default: T): T {
      match this
      case Some(v) => v
      case None => default
    }
  }

  /** A settled promise: fulfilled with a value, or rejected with an error message. */
  datatype Result<+R> = Ok(value: R) | Err(error: string)
}
