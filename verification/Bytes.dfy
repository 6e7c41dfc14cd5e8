/** Bytes, the characters the parsers compare them with, and fixed-width integers. */
module Bytes {
  type byte = b: int | 0 <= b < 256
  type uint32 = x: int | 0 <= x <= UINT32_MAX
  type uint64 = x: int | 0 <= x <= UINT64_MAX

  const UINT16_MAX: int := 0xFFFF
  const UINT32_MAX: int := 0xFFFF_FFFF
  const UINT64_MAX: int := 0xFFFF_FFFF_FFFF_FFFF

  const CR: byte := 13
  const LF: byte := 10
  const SP: byte := 32

  predicate IsDigit(c: byte) {
    48 <= c <= 57
  }

  /** Letters; the source tests `c | 0x20` against 'a'..'z', which singles out exactly these. */
  predicate IsAlpha(c: byte) {
    65 <= c <= 90 || 97 <= c <= 122
  }

  predicate IsAlphanum(c: byte) {
    IsAlpha(c) || IsDigit(c)
  }

  predicate IsHex(c: byte) {
    IsDigit(c) || 65 <= c <= 70 || 97 <= c <= 102
  }
}
