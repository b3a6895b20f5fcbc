/** The optional value used wherever the script reads something that may be absent
    (an element that `querySelector` did not find, a `data-*` attribute, `response.message`). */
module Wrappers {

  datatype Option<+T> = None | Some(value: T) {

    /** The value, or `default` when there is none. */
    function GetOr(default: T): T {
      match this
      case Some(v) => v
      case None => default
    }
  }
}
