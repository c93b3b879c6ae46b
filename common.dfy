/** Option and Result, the two wrappers the rest of the model uses for
    Python's `None` and for operations that raise. */
module Wrappers {

  datatype Option<+T> = None | Some(value: T)

  /** `Ok` carries the value an operation returns; `Err` the exception it raises. */
  datatype Result<+T, +E> = Ok(value: T) | Err(error: E)
}
