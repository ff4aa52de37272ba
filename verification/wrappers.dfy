/** Option and Result values used throughout the model for the error paths of the C++ code
    (a `nullptr`, an exception, an out-of-range read). */
module Wrappers {
  datatype Option<T> = None | Some(value: T)
  {
    predicate IsSome() { Some? }
  }

  datatype Result<T, E> = Ok(value: T) | Err(error: E)
  {
    predicate IsOk() { Ok? }
  }
}
