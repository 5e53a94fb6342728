/** Optional values and fallible results, the two shapes the dashboard code uses for
    "maybe undefined" and "maybe thrown". */
module Options {

  /** A JavaScript value that may be `undefined` (or `null` where the code treats the two alike). */
  datatype Option<+T> = None | Some(value: T) {

    /** The value, or `default` when absent. */
    function GetOr(default: T): T {
      match this
      case Some(v) => v
      case None => default
    }
  }

  /** The outcome of a computation that may throw: `Throws` carries a short description of the error. */
  datatype Result<+T> = Ok(value: T) | Throws(reason: string)
}
