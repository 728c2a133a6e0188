/** Octets, as Go's `byte`: request bodies, file contents and digests are sequences of them. */
module Bytes {
  newtype byte = b: int | 0 <= b < 256
}
