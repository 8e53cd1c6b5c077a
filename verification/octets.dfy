/** Bytes as numbers, for code that computes with their values. */
module Octets {
  newtype Byte = b: int | 0 <= b < 0x100

  type Bytes = seq<Byte>
}
