/** Option and Result datatypes shared by the model. */
module Wrappers {

  /** A value that may be absent: the model of a C# `null` reference. */
  datatype Option<+T> = None | Some(value: T)

  /** Either a computed value or the error that stopped the computation. */
  datatype Result<+R, +E> = Success(value: R) | Failure(error: E)
}
