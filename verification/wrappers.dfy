/** Optional values and success/failure results, used wherever the source
    has an optional field, an `undefined`, or a thrown error. */
module Wrappers {

  /** An optional value; `None` stands for a missing field or `undefined`. */
  datatype Option<+T> = None | Some(value: T) {

    /** The carried value, or `default` when there is none. */
    function GetOr(default: T): T {
      match this
      case Some(v) => v
      case None => default
    }
  }

  /** Either the value a call produced or the text of the error it threw. */
  datatype Result<+R, +E> = Success(value: R) | Failure(error: E)
}
