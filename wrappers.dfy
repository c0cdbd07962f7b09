/** Option and Result values used for the blank cells and the raised errors of the model. */
module Wrappers {

  /** A value that may be absent: a blank output cell, a None return, Pandas' NaT. */
  datatype Option<T> = None | Some(value: T)

  /** The outcome of an operation that can raise an exception. */
  datatype Result<T, E> = Ok(value: T) | Err(error: E)
}
