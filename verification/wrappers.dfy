/** Option and Result datatypes shared by the rest of the model. */
module Wrappers {

  datatype Option<+T> = None | Some(value: T) {

    /** The wrapped value, or `default` when there is none. */
    function GetOr(default: T): T {
      match this
      case Some(v) => v
      case None => default
    }
  }

  /** The outcome of an operation that either succeeds with a value or is
      rejected with an error. */
  datatype Result<+R, +E> = Ok(value: R) | Err(error: E)
}
