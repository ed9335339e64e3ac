/** Shared helper datatypes: the nullable / optional values of the
    TypeScript and JavaScript sources (`T | null`, `T | undefined`). */
module Common {

  /** `None` stands for JavaScript's `null` / `undefined`. */
  datatype Option<+T> = None | Some(value: T) {

    /** The value, or `default` when absent. */
    function GetOr(default: T): T {
      match this
      case Some(v) => v
      case None => default
    }
  }
}
