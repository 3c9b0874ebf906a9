/** Missing values and error results shared by the whole model. */
module Wrappers {

  /** A nullable entry of a column: `None` stands for a null or NaN slot. */
  datatype Option<+T> = None | Some(value: T)

  /** The outcome of an operation that the source can abort with an exception. */
  datatype Result<+T, +E> = Ok(value: T) | Err(error: E)
}
