/** Small failure-carrying datatypes shared by the modules of this project. */
module Wrappers {

  /** A value that may be missing (Python's `None`, or a key absent from a dict). */
  datatype Option<+T> = None | Some(value: T) {
    function GetOr(default: T): T {
      match this
      case Some(v) => v
      case None => default
    }
  }

  /** The result of an operation that may raise instead of returning. */
  datatype Result<+R, +E> = Ok(value: R) | Err(error: E)
}
