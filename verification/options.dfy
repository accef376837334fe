/** The optional value both userscripts use in place of `null`/`undefined`. */
module Options {

  datatype Option<+T> = None | Some(value: T) {

    /** Returns the value held in Some, or the default if None. */
    function GetOr(default: T): T {
      match this
      case Some(v) => v
      case None => default
    }
  }

  /** What a JavaScript call that may throw comes to: its value, or the
      message of the `Error` it threw. */
  datatype Outcome<+T> = Ok(value: T) | Thrown(message: string)
}
