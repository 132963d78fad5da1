/** Bytes and machine words. A C buffer is a sequence or an array of `byte`. */
module Bytes {
  type byte = x: int | 0 <= x < 256
  type bytes = seq<byte>
  type u32 = x: int | 0 <= x < 0x1_0000_0000
  type u64 = x: int | 0 <= x < 0x1_0000_0000_0000_0000

  const TWO32: int := 0x1_0000_0000
  const TWO64: int := 0x1_0000_0000_0000_0000
  const CR: byte := 13
  const LF: byte := 10
  const CRLF: bytes := [CR, LF]
}
