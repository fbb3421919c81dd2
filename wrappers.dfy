/** Optional values: `None` stands for JavaScript's `null`/`undefined` and
    Python's `None` wherever the modelled code has them. */
module Wrappers {

  datatype Option<+T> = None | Some(value: T) {

    /** The value, or `default` when there is none. */
    function GetOr(default: T): T {
      match this
      case Some(v) => v
      case None => default
    }
  }
}
