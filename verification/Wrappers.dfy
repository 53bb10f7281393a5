/** Optional values and results of calls that may throw. */
module Wrappers {
  datatype Option<+T> = None | Some(value: T)

  /** The value of a call that may throw because an index is out of range. */
  datatype Result<+T> = Ok(value: T) | OutOfRange
}
