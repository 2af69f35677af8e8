/** Failure-carrying results shared by every module of the model. */
module Wrappers {

  datatype Option<+T> = None | Some(value: T)

  /** The outcome of an operation that the source reports through a Go `error`
      (or a thrown exception): either a value or an error message. */
  datatype Result<+T> = Ok(value: T) | Err(msg: string)
}
