/** Option and Result types shared by the pipeline and the controller. */
module Wrappers {

  datatype Option<+T> = None | Some(value: T)

  /** The outcome of an operation the source may abort with an exception. */
  datatype Result<+R, +E> = Success(value: R) | Failure(error: E)
}
