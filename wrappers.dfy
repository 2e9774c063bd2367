/** The optional value shared by the modules of this project: `None` stands
    for JavaScript's `undefined` (and, where the source treats them alike,
    `null`). */
module Wrappers {

  datatype Option<+T> = None | Some(value: T) {

    /** The value, or `default` when there is none: the `??` operator. */
    function GetOr(default: T): T {
      match this
      case Some(v) => v
      case None => default
    }
  }
}
