/** Failure-carrying datatypes shared by the rest of the model. */
module Wrappers {

  /** A value that may be absent: `None` stands for an input that could not
      be read as a number, or for a panel a document does not contain. */
  datatype Option<+T> = None | Some(value: T)

  /** The outcome of an operation that the program lets raise. */
  datatype Result<+T, +E> = Success(value: T) | Failure(error: E)
}
