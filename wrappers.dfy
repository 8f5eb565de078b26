/** Optional values and results, used wherever the source panics or returns `Option` or `Result`. */
module Wrappers {

  datatype Option<+T> = None | Some(value: T)

  /** A `Result` whose error is a message. */
  datatype Result<+T> = Ok(value: T) | Err(error: string)
}
