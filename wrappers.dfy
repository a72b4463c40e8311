/** Results of calls into hosted services and device APIs. */
module Wrappers {

  /** A value that may be null or absent. */
  datatype Option<+T> = None | Some(value: T)

  /** The end of a call that returns nothing: it resolves, or it throws an error carrying a message. */
  datatype Outcome = Pass | Fail(message: string)

  /** The end of a call that returns a value: it resolves with the value, or it throws. */
  datatype Result<+T> = Ok(value: T) | Err(message: string)
}
