/** Optional values: a JavaScript `undefined`/`null`, a missing account, an absent regex match. */
module Wrappers {
  datatype Option<+T> = None | Some(value: T) {
    function GetOr(default: T): T {
      match this
      case Some(v) => v
      case None => default
    }
  }
}
