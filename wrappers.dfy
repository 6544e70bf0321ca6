// Missing values: `None` (a pandas NaN/NaT, or an absent column) or `Some`.
module Wrappers {

  datatype Option<+T> = None | Some(value: T) {
    function GetOr(default: T): T {
      match this
      case Some(v) => v
      case None => default
    }
  }
}
