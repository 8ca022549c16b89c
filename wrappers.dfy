/** Option and Result: the model's way of writing Python's `None` and raised exceptions. */
module Wrappers {

  datatype Option<+T> = None | Some(value: T)

  /** `Err` stands for an exception that escapes the modelled function. */
  datatype Result<+T, +E> = Ok(value: T) | Err(error: E)
}
