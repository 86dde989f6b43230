/** The Some/None wrapper used for JavaScript's `undefined`/`null` and for
    operations that may yield nothing. Failure-compatible, so `:-` can be used. */
module Options {

  datatype Option<+T> = None | Some(value: T) {

    predicate IsFailure() {
      None?
    }

    function PropagateFailure<U>(): Option<U>
      requires None?
    {
      None
    }

    function Extract(): T
      requires Some?
    {
      value
    }

    /** JavaScript's `x ?? fallback` for a value that is either undefined or present. */
    function GetOr(fallback: T): T {
      match this
      case Some(v) => v
      case None => fallback
    }
  }
}
