/** Optional values and results shared by every module of the model. */
module Wrappers {
  /** A value that may be absent: Python's `None`, JavaScript's `null`/`undefined`. */
  datatype Option<T> = None | Some(value: T)
  {
    /** The value, or `d` when there is none (`x ?? d`). */
    function GetOr(d: T): T
    {
      if Some? then value else d
    }
  }

  /** The outcome of an operation that may raise an error instead of returning. */
  datatype Result<T, E> = Ok(value: T) | Err(error: E)
}
