/** Failure-carrying result types shared by the modules of this model. */
module Wrappers {

  /** A value that may be absent; `None` stands for a Python exception
      that the model does not name further. */
  datatype Option<+T> = None | Some(value: T)

  /** A value or the error that stopped the computation. */
  datatype Result<+T, +E> = Ok(value: T) | Err(error: E)
}
