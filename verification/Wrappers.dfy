/** Values that may be missing, and what rows of a table are known by. */
module Wrappers {
  /** A UUID, of which mostly only equality matters. */
  datatype Id = Id(number: int)

  datatype Option<+T> = None | Some(value: T) {
    function GetOr(default: T): T {
      match this
      case Some(v) => v
      case None => default
    }
  }
}
