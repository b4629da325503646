/** Optional values and results with failure, the shapes every service operation returns. */
module Outcomes {

  /** A value that may be absent: a request field left undefined, or a lookup that found nothing. */
  datatype Option<+T> = None | Some(value: T) {

    /** The value if present, `default` otherwise (the source's `x || default` for non-zero values). */
    function GetOr(default: T): T {
      match this
      case Some(v) => v
      case None => default
    }

    /** This option if present, `fallback` otherwise: an undefined field leaves the stored one as it was. */
    function OrElse(fallback: Option<T>): Option<T> {
      if Some? then this else fallback
    }
  }

  /** Either a value or an error; usable with `:-`. */
  datatype Result<+T, +E> = Ok(value: T) | Err(error: E) {

    predicate IsFailure() {
      Err?
    }

    function PropagateFailure<U>(): Result<U, E>
      requires Err?
    {
      Err(error)
    }

    function Extract(): T
      requires Ok?
    {
      value
    }
  }
}
