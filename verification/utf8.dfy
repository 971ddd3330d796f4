/** UTF-8, as section 3 of RFC 3629 defines it, for measuring what
    `new Blob([css]).size` reports: the number of bytes of the string's
    UTF-8 encoding.
 */
module Utf8 {

  type Byte = b: int | 0 <= b < 256

  /** The number of octets RFC 3629 assigns to a scalar value: one up to
      U+007F, two up to U+07FF, three up to U+FFFF, four above. */
  function CharWidth(c: char): (w: nat)
    ensures 1 <= w <= 4
  {
    var n := c as int;
    if n < 0x80 then 1 else if n < 0x800 then 2 else if n < 0x10000 then 3 else 4
  }

  /** The octet sequence of one scalar value (RFC 3629, section 3): the
      value's bits, six at a time from the low end into continuation
      octets `10xxxxxx`, the rest into the lead octet. */
  function EncodeChar(c: char): (bytes: seq<Byte>)
    ensures |bytes| == CharWidth(c)
  {
    var n := c as int;
    if n < 0x80 then [n]
    else if n < 0x800 then [0xC0 + n / 64, 0x80 + n % 64]
    else if n < 0x10000 then [0xE0 + n / 64 / 64, 0x80 + n / 64 % 64, 0x80 + n % 64]
    else [0xF0 + n / 64 / 64 / 64, 0x80 + n / 64 / 64 % 64, 0x80 + n / 64 % 64, 0x80 + n % 64]
  }

  /** Reads back the scalar value of a complete encoded character. */
  function DecodeChar(bytes: seq<Byte>): int
    requires 1 <= |bytes| <= 4
  {
    var b := seq(|bytes|, i requires 0 <= i < |bytes| => bytes[i] as int);
    if |b| == 1 then b[0]
    else if |b| == 2 then (b[0] - 0xC0) * 64 + (b[1] - 0x80)
    else if |b| == 3 then ((b[0] - 0xE0) * 64 + (b[1] - 0x80)) * 64 + (b[2] - 0x80)
    else (((b[0] - 0xF0) * 64 + (b[1] - 0x80)) * 64 + (b[2] - 0x80)) * 64 + (b[3] - 0x80)
  }

  lemma SixBits(x: nat)
    ensures x == x / 64 * 64 + x % 64
  {
  }

  /** Each character's encoding decodes to its scalar value, and its lead
      octet announces its length. */
  lemma EncodeCharRoundTrip(c: char)
    ensures DecodeChar(EncodeChar(c)) == c as int
    ensures var b := EncodeChar(c)[0];
            && (CharWidth(c) == 1 <==> b < 0x80)
            && (CharWidth(c) == 2 <==> 0xC0 <= b < 0xE0)
            && (CharWidth(c) == 3 <==> 0xE0 <= b < 0xF0)
            && (CharWidth(c) == 4 <==> 0xF0 <= b < 0xF8)
  {
    var n := c as int;
    SixBits(n);
    SixBits(n / 64);
    SixBits(n / 64 / 64);
  }

  /** The UTF-8 encoding of a string. */
  function Encode(s: string): seq<Byte>
  {
    if s == [] then [] else Encode(s[..|s| - 1]) + EncodeChar(s[|s| - 1])
  }

  /** The byte size of a string: the sum of its characters' widths. */
  function ByteSize(s: string): (n: nat)
    ensures |s| <= n <= 4 * |s|
  {
    if s == [] then 0 else ByteSize(s[..|s| - 1]) + CharWidth(s[|s| - 1])
  }

  /** The width sum is the length of the encoding, i.e. what a Blob of the
      string measures. */
  lemma {:induction false} EncodeLength(s: string)
    ensures |Encode(s)| == ByteSize(s)
  {
    if s != [] {
      EncodeLength(s[..|s| - 1]);
    }
  }

  predicate IsAscii(s: string) {
    forall i :: 0 <= i < |s| ==> s[i] as int < 0x80
  }

  /** ASCII text takes one byte per character. */
  lemma {:induction false} AsciiByteSize(s: string)
    requires IsAscii(s)
    ensures ByteSize(s) == |s|
  {
    if s != [] {
      AsciiByteSize(s[..|s| - 1]);
    }
  }

  /** The size of a concatenation is the sum of the sizes. */
  lemma {:induction false} ByteSizeAppend(a: string, b: string)
    ensures ByteSize(a + b) == ByteSize(a) + ByteSize(b)
    decreases |b|
  {
    if b != [] {
      assert (a + b)[..|a + b| - 1] == a + b[..|b| - 1];
      ByteSizeAppend(a, b[..|b| - 1]);
    } else {
      assert a + b == a;
    }
  }
}
