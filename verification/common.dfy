/** Failure-compatible wrappers shared by every module of the model. */
module Common {

  /** A value that may be absent: Python's `None`, JavaScript's `null`, an omitted field. */
  datatype Option<+T> = None | Some(value: T) {

    /** The carried value, or `default` when absent. */
    function GetOr(default: T): T {
      match this
      case Some(v) => v
      case None => default
    }
  }

  /** The outcome of an operation that can fail with an error of type `E`. */
  datatype Result<+T, +E> = Ok(value: T) | Err(error: E)
}
