/** Optional values and success/failure results shared by the client and server models. */
module Options {

  /** A value that may be absent: a JSON field that was not sent, an `undefined`. */
  datatype Option<+T> = None | Some(value: T)

  /** The outcome of a guard: the value to go on with, or the error text to report. */
  datatype Result<+T, +E> = Ok(value: T) | Err(error: E)
}
