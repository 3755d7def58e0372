/** Optional values and results with an error, as the TypeScript code expresses them with
    `undefined` and with thrown exceptions. */
module Common {

  /** A value that may be `undefined`. */
  datatype Option<+T> = None | Some(value: T) {

    /** `x ?? fallback`: the value, or the fallback when it is absent. */
    function GetOr(fallback: T): T {
      match this
      case Some(v) => v
      case None => fallback
    }
  }

  /** The outcome of an operation that may throw. */
  datatype Result<+T, +E> = Ok(value: T) | Err(error: E)
}
