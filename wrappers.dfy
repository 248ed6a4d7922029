/** Failure-carrying values shared by the other modules. */
module Wrappers {

  datatype Option<+T> = None | Some(value: T)

  /** The outcome of a filesystem call: a new value, or the error it throws. */
  datatype Result<+T> = Ok(value: T) | Err(code: string)
}
