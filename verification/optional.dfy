/** Optional values: JavaScript's `undefined` for a field that may be absent. */
module Optional {

  datatype Option<+T> = None | Some(value: T) {

    /** The value, or `fallback` when absent (JavaScript's `??`). */
    function GetOr(fallback: T): T {
      match this
      case Some(v) => v
      case None => fallback
    }
  }
}
