/** Bytes as small naturals. */
module Bytes {
  type Byte = x: nat | x < 0x100
}
