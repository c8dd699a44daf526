/** Option and Result datatypes shared by the driver model. */
module Wrappers {

  /** A value that may be absent: the model's stand-in for the kernel's
      `TakeCell` and `OptionalCell` slots. */
  datatype Option<+T> = None | Some(value: T)

  /** The outcome of a request entry point: success, or an error code. */
  datatype Result<+R, +E> = Ok(value: R) | Err(error: E)
}
