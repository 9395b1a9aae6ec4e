/** Optional values and outcomes that may fail with a named missing field. */
module Results {

  /** A value that may be absent: Python's `None` versus a present value. */
  datatype Option<+T> = None | Some(value: T)

  /** The outcome of an operation that raises `KeyError(field)` when a
      required dictionary entry is missing. */
  datatype Result<+T> = Ok(value: T) | KeyError(field: string)
}
