/** The Option type, for values Python represents with `None`. */
module Optional {

  datatype Option<T> = None | Some(value: T) {

    /** The value held, or `default` when there is none (Python's `x or default`). */
    function GetOr(default: T): T {
      match this
      case Some(v) => v
      case None => default
    }
  }
}
