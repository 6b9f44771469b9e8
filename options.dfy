/** A value that may be absent (the model's rendering of a JavaScript
    `null` result where only one kind of absence matters), and the result of
    a call into code outside the model that may throw. */
module Options {

  datatype Option<+T> = None | Some(value: T) {

    /** The value, or `default` when absent. */
    function GetOr(default: T): T {
      match this
      case Some(v) => v
      case None => default
    }
  }

  /** What an awaited call outside the model produced: its value, or an
      exception that the caller's `catch` receives. */
  datatype Outcome<T> = Ok(value: T) | Throws
}
