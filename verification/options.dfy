/** Optional values: a JavaScript `undefined`/`null` is `None`. */
module Options {

  datatype Option<+T> = None | Some(value: T) {

    /** The nullish-coalescing operator `x ?? default`. */
    function GetOr(default: T): T {
      match this
      case Some(v) => v
      case None => default
    }
  }
}
