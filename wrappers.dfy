/** Option and Result values standing for JavaScript's `undefined`/`null` and for thrown errors. */
module Wrappers {

  /** A value that may be absent (`undefined` or `null` in the source). */
  datatype Option<+T> = None | Some(value: T)

  /** The outcome of a call that may throw: `Err` carries the error's message. */
  datatype Result<+T> = Ok(value: T) | Err(message: string)

  /** The outcome of a call that returns nothing but may throw. */
  datatype Outcome = Done | Failed(message: string)
}
