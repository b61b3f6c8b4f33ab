/** Option and result wrappers used across the model. */
module Wrappers {

  /** An optional value; `None` stands for "nothing was produced". */
  datatype Option<+T> = None | Some(value: T)

  /** The outcome of an operation that can raise. */
  datatype Result<+T, +E> = Ok(value: T) | Err(error: E)
}
