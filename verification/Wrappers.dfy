/** The types shared by the models: byte strings, a value that may be absent, and
    the value-or-error pair that Go functions return. */
module Wrappers {
  type byte = x: int | 0 <= x < 256

  type Bytes = seq<byte>

  datatype Option<+T> = None | Some(value: T)

  datatype Result<+T, +E> = Success(value: T) | Failure(error: E)
}
