/** Optional values (JavaScript `null`/`undefined` versus a value) and early-return results. */
module Wrappers {

  datatype Option<+T> = None | Some(value: T) {
    /** The `??` operator: the value when present, otherwise the default. */
    function GetOr(default: T): T {
      match this
      case Some(v) => v
      case None => default
    }
  }

  /** A guard chain's outcome: either go on with a value or stop with a response. */
  datatype Result<+T, +E> = Success(value: T) | Failure(error: E)
}
