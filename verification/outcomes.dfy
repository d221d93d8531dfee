/** Failure-carrying results shared by every module of the model. */
module Outcomes {

  /** A value that may be missing. */
  datatype Option<+T> = None | Some(value: T)

  /** The result of an operation that the source can abort by throwing. */
  datatype Result<+T, +E> = Ok(value: T) | Err(error: E)
}
