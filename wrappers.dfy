// Option and Result: the stand-ins for C# nullable values and for thrown exceptions.
module Wrappers {
  datatype Option<+T> = None | Some(value: T)

  datatype Result<+T, +E> = Ok(value: T) | Err(error: E)
}
