/** Optional values and results with an error, the two shapes the backend's
    operations return (a value, `null`/`undefined`, or a thrown Error). */
module Wrappers {

  datatype Option<+T> = None | Some(value: T) {
    function GetOr(default: T): T {
      match this
      case Some(v) => v
      case None => default
    }
  }

  datatype Result<+T, +E> = Ok(value: T) | Err(error: E)
}
