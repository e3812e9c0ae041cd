/** Option and Result, used wherever the Python code returns None or raises. */
module Outcomes {

  datatype Option<+T> = None | Some(value: T)

  /** `Err` carries the exception the Python code would raise. */
  datatype Result<+T, +E> = Ok(value: T) | Err(error: E)
}
