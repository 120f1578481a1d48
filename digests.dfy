/** Bytes, the UTF-8 encoding of text (`str.encode()`), and the shape of an MD5
    `hexdigest()`. MD5 itself is not modelled: callers receive it as a function
    from bytes to a digest of this shape. */
module Digests {

  newtype byte = x: int | 0 <= x < 256

  type Bytes = seq<byte>

  /** One character of `hexdigest()`: `0`-`9` or `a`-`f`. */
  predicate IsLowerHexDigit(c: char) {
    ('0' <= c <= '9') || ('a' <= c <= 'f')
  }

  /** What `hashlib.md5(...).hexdigest()` returns: 32 lower-case hex digits. */
  predicate IsHexDigest(s: string) {
    |s| == 32 && forall k :: 0 <= k < |s| ==> IsLowerHexDigit(s[k])
  }

  type HexDigest = s: string | IsHexDigest(s)
    witness "00000000000000000000000000000000"

  /** A hash from bytes to a hex digest, standing for `hashlib.md5(b).hexdigest()`. */
  type Md5 = Bytes -> HexDigest

  /** UTF-8 encoding of one Unicode scalar value: one byte below 0x80, then two,
      three or four bytes. */
  function EncodeChar(c: char): (r: Bytes)
    ensures 1 <= |r| <= 4
    ensures (c as int < 0x80) <==> (|r| == 1)
    ensures |r| == 1 ==> r[0] as int == c as int
  {
    var n := c as int;
    if n < 0x80 then
      [n as byte]
    else if n < 0x800 then
      [(0xC0 + n / 0x40) as byte, (0x80 + n % 0x40) as byte]
    else if n < 0x1_0000 then
      [(0xE0 + n / 0x1000) as byte, (0x80 + n / 0x40 % 0x40) as byte, (0x80 + n % 0x40) as byte]
    else
      [(0xF0 + n / 0x4_0000) as byte, (0x80 + n / 0x1000 % 0x40) as byte,
       (0x80 + n / 0x40 % 0x40) as byte, (0x80 + n % 0x40) as byte]
  }

  /** `s.encode()` (UTF-8): the characters' encodings, in order. */
  function Encode(s: string): (r: Bytes)
    ensures |s| <= |r| <= 4 * |s|
    decreases |s|
  {
    if s == [] then [] else EncodeChar(s[0]) + Encode(s[1..])
  }
}
