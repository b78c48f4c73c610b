/** Option and Result: the shapes in which the model reports an absent value or a raised error. */
module Wrappers {
  datatype Option<T> = None | Some(value: T)

  datatype Result<T, E> = Ok(value: T) | Err(error: E)
}
