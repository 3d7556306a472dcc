/** Well-formed UTF-8, section 4 of RFC 3629. */
module Utf8 {
  import opened Common

  predicate Continuation(b: byte) { 0x80 <= b <= 0xBF }

  /** First two bytes of a three-byte sequence: no overlong form, no surrogate. */
  predicate ThreeByteLead(a: byte, b: byte) {
    || (a == 0xE0 && 0xA0 <= b <= 0xBF)
    || ((0xE1 <= a <= 0xEC || 0xEE <= a <= 0xEF) && Continuation(b))
    || (a == 0xED && 0x80 <= b <= 0x9F)
  }

  /** First two bytes of a four-byte sequence, up to U+10FFFF. */
  predicate FourByteLead(a: byte, b: byte) {
    || (a == 0xF0 && 0x90 <= b <= 0xBF)
    || (0xF1 <= a <= 0xF3 && Continuation(b))
    || (a == 0xF4 && 0x80 <= b <= 0x8F)
  }

  predicate ValidUtf8(s: seq<byte>)
    decreases |s|
  {
    || s == []
    || (s[0] < 0x80 && ValidUtf8(s[1..]))
    || (|s| >= 2 && 0xC2 <= s[0] <= 0xDF && Continuation(s[1]) && ValidUtf8(s[2..]))
    || (|s| >= 3 && ThreeByteLead(s[0], s[1]) && Continuation(s[2]) && ValidUtf8(s[3..]))
    || (|s| >= 4 && FourByteLead(s[0], s[1]) && Continuation(s[2]) && Continuation(s[3]) && ValidUtf8(s[4..]))
  }

  /** A string is its UTF-8 bytes. */
  type Text = s: seq<byte> | ValidUtf8(s)
}
