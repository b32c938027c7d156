/** Failure-carrying return types shared by the model's modules. */
module Outcomes {

  /** An optional value: `None` where the program returns nothing. */
  datatype Option<+T> = None | Some(value: T)

  /** Either a computed value or the error that aborted the computation. */
  datatype Result<+T, +E> = Success(value: T) | Failure(error: E)
}
