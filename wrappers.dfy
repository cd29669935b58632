/** Option and Result types shared by every module of the model. */
module Wrappers {

  datatype Option<+T> = None | Some(value: T) {
    function GetOr(default: T): T {
      match this
      case Some(v) => v
      case None => default
    }
  }

  /** A value or an error, standing for a thrown exception or an error return of the source. */
  datatype Result<+T, +E> = Ok(value: T) | Err(error: E)
}
