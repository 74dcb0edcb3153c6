/** The Option and Result datatypes used across the model.
    `Option` stands for a Java reference that may be `null`; `Result`
    carries either a value or the fault that stopped a computation. */
module Wrappers {

  datatype Option<+T> = None | Some(value: T)

  datatype Result<+R, +E> = Ok(value: R) | Err(error: E)
}
