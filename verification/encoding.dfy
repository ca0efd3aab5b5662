/** The two text decoders `FString` uses: `Encoding.ASCII` for a positive
    length and `Encoding.Unicode` (UTF-16, little-endian) for a negative one.
    Both replace what they cannot decode instead of failing. */
module Encoding {
  import opened Numeric

  /** U+FFFD, which `Encoding.Unicode` substitutes for a lone surrogate or a
      trailing odd byte. */
  const Replacement: char := '\U{FFFD}'

  /** ASCII decoding of one byte: bytes above 0x7F become '?'. */
  function AsciiChar(b: byte): char {
    if b < 0x80 then b as char else '?'
  }

  function DecodeAscii(bs: seq<byte>): (s: string)
    ensures |s| == |bs|
    ensures forall i :: 0 <= i < |bs| ==> s[i] == AsciiChar(bs[i])
  {
    seq(|bs|, i requires 0 <= i < |bs| => AsciiChar(bs[i]))
  }

  predicate IsAscii(s: string) {
    forall i :: 0 <= i < |s| ==> (s[i] as int) < 0x80
  }

  function EncodeAscii(s: string): (bs: seq<byte>)
    requires IsAscii(s)
    ensures |bs| == |s|
    ensures forall i :: 0 <= i < |s| ==> bs[i] == s[i] as int
  {
    seq(|s|, i requires 0 <= i < |s| => s[i] as int)
  }

  lemma AsciiRoundTrip(s: string)
    requires IsAscii(s)
    ensures DecodeAscii(EncodeAscii(s)) == s
  {
  }

  predicate IsHighSurrogate(u: int) {
    0xD800 <= u < 0xDC00
  }

  predicate IsLowSurrogate(u: int) {
    0xDC00 <= u < 0xE000
  }

  /** The code unit stored little-endian in two bytes. */
  function CodeUnit(lo: byte, hi: byte): (u: nat)
    ensures u < 0x1_0000
  {
    lo + 256 * hi
  }

  /** The supplementary-plane character a surrogate pair stands for. */
  function PairChar(high: int, low: int): (c: char)
    requires IsHighSurrogate(high) && IsLowSurrogate(low)
    ensures (c as int) >= 0x1_0000
  {
    (0x1_0000 + (high - 0xD800) * 0x400 + (low - 0xDC00)) as char
  }

  /** UTF-16LE decoding with replacement: a valid pair becomes one character,
      a lone surrogate or a final odd byte becomes U+FFFD. */
  function DecodeUtf16(bs: seq<byte>): (s: string)
    ensures |s| <= |bs|
    decreases |bs|
  {
    if |bs| == 0 then ""
    else if |bs| == 1 then [Replacement]
    else
      var u := CodeUnit(bs[0], bs[1]);
      if IsHighSurrogate(u) && |bs| >= 4 && IsLowSurrogate(CodeUnit(bs[2], bs[3])) then
        [PairChar(u, CodeUnit(bs[2], bs[3]))] + DecodeUtf16(bs[4..])
      else if IsHighSurrogate(u) || IsLowSurrogate(u) then
        [Replacement] + DecodeUtf16(bs[2..])
      else
        [u as char] + DecodeUtf16(bs[2..])
  }

  /** The UTF-16LE bytes of one character. */
  function EncodeUtf16Char(c: char): (bs: seq<byte>)
    ensures |bs| == 2 || |bs| == 4
  {
    var v := c as int;
    if v < 0x1_0000 then [v % 256, v / 256]
    else
      var w := v - 0x1_0000;
      var high := 0xD800 + w / 0x400;
      var low := 0xDC00 + w % 0x400;
      [high % 256, high / 256, low % 256, low / 256]
  }

  function EncodeUtf16(s: string): (bs: seq<byte>)
    ensures |bs| >= 2 * |s|
    ensures |bs| % 2 == 0
  {
    if |s| == 0 then [] else EncodeUtf16Char(s[0]) + EncodeUtf16(s[1..])
  }

  lemma Utf16CharRoundTrip(c: char, rest: seq<byte>)
    ensures DecodeUtf16(EncodeUtf16Char(c) + rest) == [c] + DecodeUtf16(rest)
  {
    var bs := EncodeUtf16Char(c) + rest;
    var v := c as int;
    if v < 0x1_0000 {
      assert CodeUnit(bs[0], bs[1]) == v;
      assert bs[2..] == rest;
    } else {
      var w := v - 0x1_0000;
      var high := 0xD800 + w / 0x400;
      var low := 0xDC00 + w % 0x400;
      assert CodeUnit(bs[0], bs[1]) == high;
      assert CodeUnit(bs[2], bs[3]) == low;
      assert (PairChar(high, low) as int) == v;
      assert bs[4..] == rest;
    }
  }

  lemma {:induction false} Utf16RoundTrip(s: string)
    ensures DecodeUtf16(EncodeUtf16(s)) == s
  {
    if |s| > 0 {
      Utf16RoundTrip(s[1..]);
      Utf16CharRoundTrip(s[0], EncodeUtf16(s[1..]));
      assert [s[0]] + s[1..] == s;
    }
  }
}
