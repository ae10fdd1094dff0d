/** The missing-value wrapper shared by every module of the model. */
module Wrappers {

  /** A value that may be missing: None plays the part of NaN / None in the source. */
  datatype Option<+T> = None | Some(value: T) {

    /** Returns the value, or a default when it is missing. */
    function GetOr(default: T): T {
      match this
      case Some(v) => v
      case None => default
    }
  }
}
