/** An optional value with a default, shared by every module of the model. */
module Wrappers {

  /** A value that may be absent: `null`/`None` in the modelled program. */
  datatype Option<+T> = None | Some(value: T) {

    /** The wrapped value, or `default` when there is none. */
    function GetOr(default: T): T {
      match this
      case Some(v) => v
      case None => default
    }
  }
}
