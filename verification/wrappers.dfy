/** The optional value used wherever the crawler works with "maybe absent" data:
    a selector that matches nothing, a missing attribute, a key left out of a dict. */
module Wrappers {

  datatype Option<+T> = None | Some(value: T) {

    /** The wrapped value, or `default` when there is none (Python's `d.get(k, default)`). */
    function GetOr(default: T): T {
      match this
      case Some(v) => v
      case None => default
    }
  }
}
