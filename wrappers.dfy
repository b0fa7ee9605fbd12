/** Option and Result, the two failure-carrying datatypes used across the model. */
module Wrappers {

  /** `None` stands for a JavaScript value that is `undefined` (a missing body field, header or query). */
  datatype Option<+T> = None | Some(value: T)

  datatype Result<+T, +E> = Success(value: T) | Failure(error: E)
}
