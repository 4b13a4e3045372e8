/** Byte strings and the numbers they denote. */
module Bytes {
  type Byte = b: int | 0 <= b < 256 witness 0

  // Most significant byte first.
  function BigEndian(bytes: seq<Byte>): nat {
    if bytes == [] then 0 else BigEndian(bytes[..|bytes| - 1]) * 256 + bytes[|bytes| - 1]
  }
}
