/** Small shared vocabulary: optional values (a JavaScript `undefined`/`null`
    field or query result is `None`). */
module Basics {

  datatype Option<+T> = None | Some(value: T) {

    /** The value when present, otherwise `default` (JavaScript `x ?? default`). */
    function GetOr(default: T): T {
      match this
      case Some(v) => v
      case None => default
    }
  }
}
