/** Fixed-width integers, little-endian byte order and decimal text.
    The original runs on .NET's `BinaryReader`, whose multi-byte reads are
    little-endian, and formats integers with the invariant decimal form. */
module Numeric {

  type byte = x: int | 0 <= x < 0x100
  type u16 = x: int | 0 <= x < 0x1_0000
  type u32 = x: int | 0 <= x < 0x1_0000_0000
  type u64 = x: int | 0 <= x < 0x1_0000_0000_0000_0000
  type i32 = x: int | -0x8000_0000 <= x < 0x8000_0000

  /** int.MaxValue: the largest count `Array` and `Bytes(uint)` accept. */
  const IntMax: int := 0x7FFF_FFFF

  /** int.MinValue, whose absolute value does not fit an `int`. */
  const IntMin: int := -0x8000_0000

  function Pow256(n: nat): (p: nat)
    ensures p >= 1
  {
    if n == 0 then 1 else 256 * Pow256(n - 1)
  }

  /** The ranges of the fixed-width reads. */
  lemma Pow256Widths()
    ensures Pow256(1) == 0x100 && Pow256(2) == 0x1_0000
    ensures Pow256(4) == 0x1_0000_0000 && Pow256(8) == 0x1_0000_0000_0000_0000
  {
    assert Pow256(2) == 0x1_0000;
    assert Pow256(4) == 0x1_0000_0000;
  }

  function Min(a: int, b: int): int {
    if a <= b then a else b
  }

  function Abs(x: int): nat {
    if x < 0 then -x else x
  }

  /** The unsigned value of `bs`, least significant byte first. */
  function LittleEndian(bs: seq<byte>): (v: nat)
    ensures v < Pow256(|bs|)
  {
    if |bs| == 0 then 0 else bs[0] + 256 * LittleEndian(bs[1..])
  }

  /** The `n`-byte little-endian encoding of `v`. */
  function EncodeLittleEndian(v: nat, n: nat): (bs: seq<byte>)
    requires v < Pow256(n)
    ensures |bs| == n
  {
    if n == 0 then [] else
      DivBound(v, n);
      [v % 256] + EncodeLittleEndian(v / 256, n - 1)
  }

  lemma DivBound(v: nat, n: nat)
    requires n > 0 && v < Pow256(n)
    ensures v / 256 < Pow256(n - 1)
  {
    var p, q := Pow256(n - 1), v / 256;
    assert 256 * q <= v < 256 * p;
  }

  lemma {:induction false} LittleEndianRoundTrip(v: nat, n: nat)
    requires v < Pow256(n)
    ensures LittleEndian(EncodeLittleEndian(v, n)) == v
  {
    if n > 0 {
      DivBound(v, n);
      LittleEndianRoundTrip(v / 256, n - 1);
      var bs := EncodeLittleEndian(v, n);
      assert bs[1..] == EncodeLittleEndian(v / 256, n - 1);
      assert LittleEndian(bs) == v % 256 + 256 * (v / 256);
    }
  }

  lemma {:induction false} EncodeLittleEndianOfValue(bs: seq<byte>)
    ensures EncodeLittleEndian(LittleEndian(bs), |bs|) == bs
  {
    if |bs| > 0 {
      EncodeLittleEndianOfValue(bs[1..]);
      var v := LittleEndian(bs);
      var w := LittleEndian(bs[1..]);
      assert v == bs[0] + 256 * w;
      assert v % 256 == bs[0] && v / 256 == w;
    }
  }

  lemma {:induction false} LittleEndianSplit(a: seq<byte>, b: seq<byte>)
    ensures LittleEndian(a + b) == LittleEndian(a) + Pow256(|a|) * LittleEndian(b)
  {
    if |a| > 0 {
      LittleEndianSplit(a[1..], b);
      assert (a + b)[1..] == a[1..] + b;
      assert (a + b)[0] == a[0];
      var x, y, p := LittleEndian(a[1..]), LittleEndian(b), Pow256(|a| - 1);
      var t := LittleEndian(a[1..] + b);
      assert LittleEndian(a + b) == a[0] + 256 * t;
      assert LittleEndian(a) == a[0] + 256 * x;
      assert Pow256(|a|) == 256 * p;
      ScaleSum(a[0], x, p, y, t);
    } else {
      assert a + b == b;
    }
  }

  lemma ScaleSum(d: int, x: int, p: int, y: int, t: int)
    requires t == x + p * y
    ensures d + 256 * t == (d + 256 * x) + (256 * p) * y
  {
  }

  /** The reinterpretation a C# `(int)` cast applies to a `uint`. */
  function ToSigned32(v: u32): (x: i32)
    ensures (x < 0) == (v >= 0x8000_0000)
    ensures x % 0x1_0000_0000 == v
  {
    if v < 0x8000_0000 then v else v - 0x1_0000_0000
  }

  /** The reinterpretation a C# `(uint)` cast applies to an `int`. */
  function ToUnsigned32(x: i32): (v: u32)
    ensures ToSigned32(v) == x
  {
    if x >= 0 then x else x + 0x1_0000_0000
  }

  lemma SignedRoundTrip(v: u32)
    ensures ToUnsigned32(ToSigned32(v)) == v
  {
  }

  predicate IsDigit(c: char) {
    '0' <= c <= '9'
  }

  predicate AllDigits(s: string) {
    forall i :: 0 <= i < |s| ==> IsDigit(s[i])
  }

  function DigitChar(d: nat): (c: char)
    requires d < 10
    ensures IsDigit(c) && (c as int) - ('0' as int) == d
  {
    (('0' as int) + d) as char
  }

  /** Invariant-culture decimal text of a non-negative integer. */
  function Decimal(n: nat): (s: string)
    ensures |s| >= 1 && AllDigits(s)
    ensures s[0] == '0' ==> n == 0
  {
    if n < 10 then [DigitChar(n)] else Decimal(n / 10) + [DigitChar(n % 10)]
  }

  /** The value of a string of decimal digits (leading zeros allowed), as
      `int.Parse` with `NumberStyles.None` computes it before its range check. */
  function DigitsValue(s: string): nat
    requires AllDigits(s)
  {
    if |s| == 0 then 0
    else DigitsValue(s[..|s| - 1]) * 10 + ((s[|s| - 1] as int) - ('0' as int))
  }

  lemma {:induction false} DecimalRoundTrip(n: nat)
    ensures DigitsValue(Decimal(n)) == n
  {
    if n >= 10 {
      DecimalRoundTrip(n / 10);
      var s := Decimal(n);
      assert s[..|s| - 1] == Decimal(n / 10);
    }
  }

  /** Two numbers print alike only if they are equal. */
  lemma DecimalInjective(m: nat, n: nat)
    requires Decimal(m) == Decimal(n)
    ensures m == n
  {
    DecimalRoundTrip(m);
    DecimalRoundTrip(n);
  }
}
