/** The optional value used wherever the JavaScript source uses `null` or `undefined`. */
module Wrappers {

  datatype Option<+T> = None | Some(value: T) {

    /** The value, or `default` when absent (the source's `value ?? default`). */
    function GetOr(default: T): T {
      match this
      case Some(v) => v
      case None => default
    }
  }

  /** The outcome of an operation that throws: `Failure` carries the error message. */
  datatype Result<+T> = Success(value: T) | Failure(error: string)
}
