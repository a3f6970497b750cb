/** Bytes, as Go's `byte`: the unit of hash input, digests and encoded WAV streams. */
module Bytes {
  type byte = x: int | 0 <= x < 256
}
