/** Plain wrapper types shared by the model: `Option` for a value that may be
    JavaScript's `null` or `undefined` (`None`), `Outcome` for a remote call
    that either succeeds or reports an error message, and `Result` for one
    that also returns data. */
module Wrappers {

  datatype Option<+T> = None | Some(value: T) {

    /** The value, or `default` when absent (JavaScript's `x || default` on a
        value that is either null or truthy). */
    function GetOr(default: T): T {
      match this
      case Some(v) => v
      case None => default
    }
  }

  /** Success or failure of a remote write whose only result is an error message. */
  datatype Outcome = Pass | Fail(message: string)

  /** Result of a remote call that returns a value on success. */
  datatype Result<+R> = Ok(value: R) | Err(message: string)
}
