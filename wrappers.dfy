/** Optional values and results with an error message, as the TypeScript
    code uses `undefined` and thrown `Error`s. */
module Wrappers {

  datatype Option<+T> = None | Some(value: T)

  /** A computation that either produced a value or threw an Error with a message. */
  datatype Result<+T> = Ok(value: T) | Err(error: string)
}
