/** Bytes, as wine prints them and as shared memory holds them. */
module Octets {
  newtype byte = x: int | 0 <= x < 256

  type Bytes = seq<byte>
}
