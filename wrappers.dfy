/** Result types for the samples' lookups and thrown errors. */
module Wrappers {

  /** `None`: a lookup that found nothing, or a recursion that never reaches its base case. */
  datatype Option<+T> = None | Some(value: T)

  /** A value, or the message of the `Error` the function throws. */
  datatype Result<+T> = Ok(value: T) | Err(error: string)

  /** The outcome of a function that returns nothing but may throw. */
  datatype Outcome = Pass | Fail(error: string)
}
