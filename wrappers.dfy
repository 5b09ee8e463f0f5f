/** Option and Result: the absent values and the error paths of the scripts. */
module Wrappers {

  /** `None` stands for Python's `None`, pandas' NaN, or a missing key. */
  datatype Option<+T> = None | Some(value: T)

  /** `Err` stands for a page that stops with a warning or an error message. */
  datatype Result<+T, +E> = Ok(value: T) | Err(error: E)
}
