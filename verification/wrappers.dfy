/** Optional values and results with an error, used throughout the model. */
module Wrappers {

  datatype Option<+T> = None | Some(value: T) {
    function GetOr(default: T): T {
      match this
      case Some(v) => v
      case None => default
    }
  }

  datatype Result<+R, +E> = Ok(value: R) | Err(error: E)

  /**
   * A value read from a JSON object: the key may be missing, map to `null`,
   * or map to a value. Python's `d.get(k)` and `d.get(k, default)` tell these
   * three cases apart in different ways, so the model keeps all three.
   */
  datatype Field<+T> = Absent | Null | Present(value: T)
}
