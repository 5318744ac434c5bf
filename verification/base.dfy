/** Optional values and success/failure results, the two shapes the
    front end's `T | null | undefined` fields and thrown errors take. */
module Base {

  /** A value that may be absent (`null` / `undefined` in the source). */
  datatype Option<+T> = None | Some(value: T) {

    /** The held value, or `default` when absent. */
    function GetOr(default: T): T {
      match this
      case Some(v) => v
      case None => default
    }
  }

  /** The outcome of an operation that either returns or throws. */
  datatype Result<+T, +E> = Success(value: T) | Failure(error: E)
}
