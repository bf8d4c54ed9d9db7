/**
 Bytes and optional values.
 */
module Basics {
  newtype byte = x: int | 0 <= x < 0x100
  type Bytes = seq<byte>

  datatype Option<+T> = None | Some(value: T)
}
