/** Failure-carrying datatypes shared by the model.
    `Option` stands for a value that may be missing: pandas' NaN is `None`.
    `Result` stands for a computation that may raise. */
module Wrappers {

  datatype Option<+T> = None | Some(value: T)

  /** The only exception the modelled code can raise on its own. */
  datatype Error = ZeroDivisionError

  datatype Result<+T> = Ok(value: T) | Err(error: Error)
}
