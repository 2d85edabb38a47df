/** Optional values and success/failure results, shared by every module. */
module Wrappers {

  /** A value that may be absent: an unset document field or an omitted argument. */
  datatype Option<+T> = None | Some(value: T) {

    /** The wrapped value, or `default` when there is none. */
    function GetOr(default: T): (r: T)
      ensures Some? ==> r == value
      ensures None? ==> r == default
    {
      match this
      case Some(v) => v
      case None => default
    }
  }

  /** The outcome of an operation: a value, or one typed error. */
  datatype Result<+T, +E> = Success(value: T) | Failure(error: E)
}
