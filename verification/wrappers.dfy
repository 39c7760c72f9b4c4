/** The optional value used wherever the program reads something that may be absent:
    a registry value, the screenshot bitmap, a clicked position. */
module Wrappers {

  datatype Option<+T> = None | Some(value: T) {

    /** The wrapped value, or `default` when there is none. */
    function GetOr(default: T): T {
      match this
      case Some(v) => v
      case None => default
    }
  }
}
