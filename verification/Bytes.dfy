/** The bytes of a Go string. */
module Bytes {
  type byte = x: int | 0 <= x < 256
}
