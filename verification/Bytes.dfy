/**
 Bytes and the two that end a line.
 */
module Bytes {
  type Byte = n: nat | n < 256

  const CR: Byte := 13
  const LF: Byte := 10
}
