/** Octets, as held by a `Uint8Array`. */
module Bytes {
  type Byte = b: int | 0 <= b < 256
}
