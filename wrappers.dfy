/** Optional values, for the places where the source uses `None` or a missing key. */
module Wrappers {

  datatype Option<+T> = None | Some(value: T) {

    /** The value, or `default` when there is none (Python's `x or default` on `None`). */
    function GetOr(default: T): T {
      match this
      case Some(v) => v
      case None => default
    }
  }

  /** An octet, as the bytes that `str.encode()` and `base64.b64decode` produce. */
  type byte = x: int | 0 <= x < 256
}
