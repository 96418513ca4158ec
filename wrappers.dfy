/** The optional value used wherever the scripts read something that may be
    missing: an absent DOM element, an `undefined` dataset entry, a `null`
    cookie, an Invalid Date. */
module Wrappers {

  datatype Option<+T> = None | Some(value: T) {

    /** The value, or `default` when there is none (JavaScript's `x || default`
        on something that is either present or missing). */
    function GetOr(default: T): T {
      match this
      case Some(v) => v
      case None => default
    }
  }
}
