/** The two ways the modelled Python code says "no value": a `None` in place
    of a value, and an exception raised instead of a return. Both are plain
    values here; a `Result` works with `:-`, so an exception propagates to
    the caller unchanged, as it does in Python. */
module Wrappers {

  /** A returned value, or the exception raised in its place. */
  datatype Result<+R, +E> = Success(value: R) | Failure(error: E) {

    /** `:-` stops at a raised exception ... */
    predicate IsFailure() {
      Failure?
    }

    /** ... and hands it on unchanged ... */
    function PropagateFailure<U>(): Result<U, E>
      requires Failure?
    {
      Failure(error)
    }

    /** ... and otherwise continues with the returned value. */
    function Extract(): R
      requires Success?
    {
      value
    }
  }

  /** A value, or Python's `None`. */
  datatype Option<+T> = None | Some(value: T) {

    /** `x if x is not None else fallback`. */
    function ValueOr(fallback: T): T {
      if Some? then value else fallback
    }
  }
}

/** The Python exceptions the modelled code can raise, as values. */
module Faults {

  datatype Fault =
      /** `a, b = s.split(':')` when the split does not yield exactly two parts */
    | UnpackMismatch
      /** attribute access on `None` */
    | NoneAttribute(name: string)
      /** `d[key]` on a dict without `key` */
    | MissingKey(key: string)
}
