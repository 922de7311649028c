/** Failure-aware result types shared by the models. */
module Wrappers {
  datatype Option<+T> = None | Some(value: T) {
    /** `??` */
    function GetOr(default: T): T {
      match this
      case Some(v) => v
      case None => default
    }
  }

  datatype Result<+T, +E> = Ok(value: T) | Err(error: E)
}
