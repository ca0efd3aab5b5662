/** `BinaryDataReader`: a cursor over a byte stream with little-endian
    fixed-width reads, short-read byte blocks, length-prefixed strings,
    name-table lookups, a scratch stack, a list of every object reference
    read so far, position-restoring detours and counted arrays.

    The stream is the immutable `data`; everything the reader mutates lives
    in a `Cursor`, and every read returns the value together with the next
    cursor, or the exception it raises. */
module BinaryData {
  import opened Wrappers
  import opened Numeric
  import Encoding
  import opened UnrealPackages

  /** Stream position, the references `Ref` has recorded (their `Raw`
      values, in call order) and the `Push`/`Pop` stack (top last). The
      position may lie beyond the end of the stream after a detour. */
  datatype Cursor = Cursor(pos: nat, refs: seq<i32>, stack: seq<u32>)

  /** A freshly constructed reader. */
  const Start: Cursor := Cursor(0, [], [])

  function Advance(c: Cursor, n: nat): Cursor {
    c.(pos := c.pos + n)
  }

  /** `bs` is stored at offset `pos`. */
  predicate At(data: seq<byte>, pos: nat, bs: seq<byte>) {
    pos + |bs| <= |data| && data[pos..pos + |bs|] == bs
  }

  /** `EndOfStream`: the position is exactly the stream length. */
  predicate IsEndOfStream(data: seq<byte>, c: Cursor) {
    c.pos == |data|
  }

  /** The bytes left before the end; none when the position is past it. */
  function Remaining(data: seq<byte>, pos: nat): nat {
    if pos <= |data| then |data| - pos else 0
  }

  /** `Bytes(int)`, i.e. `BinaryReader.ReadBytes`: up to `count` bytes, fewer
      at the end of the stream; a negative count is rejected. The array of
      `count` bytes the reader allocates first, which can fail for a huge
      count, is not modelled. */
  function ReadBytes(data: seq<byte>, c: Cursor, count: int): (r: Result<(seq<byte>, Cursor)>)
    ensures r.Err? <==> count < 0
    ensures r.Err? ==> r.error == ArgumentOutOfRange
    ensures r.Ok? ==> |r.value.0| == Min(count, Remaining(data, c.pos))
    ensures r.Ok? ==> forall i :: 0 <= i < |r.value.0| ==> r.value.0[i] == data[c.pos + i]
    ensures r.Ok? ==> r.value.1 == Advance(c, |r.value.0|)
  {
    if count < 0 then Err(ArgumentOutOfRange)
    else
      var n := Min(count, Remaining(data, c.pos));
      var bs := if n == 0 then [] else data[c.pos..c.pos + n];
      Ok((bs, Advance(c, n)))
  }

  /** Two consecutive block reads take the same bytes as one read of the
      combined count. */
  lemma ReadBytesConcat(data: seq<byte>, c: Cursor, m: nat, n: nat)
    ensures ReadBytes(data, c, m + n).Ok?
    ensures
      var (a, c1) := ReadBytes(data, c, m).value;
      var (b, c2) := ReadBytes(data, c1, n).value;
      ReadBytes(data, c, m + n).value == (a + b, c2)
  {
    var (a, c1) := ReadBytes(data, c, m).value;
    var (b, c2) := ReadBytes(data, c1, n).value;
    var (ab, c3) := ReadBytes(data, c, m + n).value;
    assert |ab| == |a| + |b|;
    assert ab == a + b;
  }

  /** `Bytes(uint)`: counts above int.MaxValue are rejected before reading. */
  function ReadBytesU(data: seq<byte>, c: Cursor, count: u32): (r: Result<(seq<byte>, Cursor)>)
    ensures r.Err? <==> count > IntMax
    ensures r.Ok? ==> r == ReadBytes(data, c, count)
  {
    if count > IntMax then Err(ArgumentOutOfRange) else ReadBytes(data, c, count)
  }

  /** A fixed-width `BinaryReader` read: all `n` bytes, or EndOfStream. */
  function Fixed(data: seq<byte>, c: Cursor, n: nat): (r: Result<(seq<byte>, Cursor)>)
    ensures r.Ok? <==> c.pos + n <= |data|
    ensures r.Err? ==> r.error == EndOfStream
    ensures r.Ok? ==> |r.value.0| == n && r.value.1 == Advance(c, n)
    ensures r.Ok? ==> At(data, c.pos, r.value.0)
  {
    if c.pos + n <= |data| then Ok((data[c.pos..c.pos + n], Advance(c, n))) else Err(EndOfStream)
  }

  lemma FixedAt(data: seq<byte>, c: Cursor, bs: seq<byte>)
    requires At(data, c.pos, bs)
    ensures Fixed(data, c, |bs|) == Ok((bs, Advance(c, |bs|)))
  {
  }

  /** An unsigned little-endian read of `n` bytes. */
  function Unsigned(data: seq<byte>, c: Cursor, n: nat): (r: Result<(nat, Cursor)>)
    ensures r.Ok? <==> c.pos + n <= |data|
    ensures r.Err? ==> r.error == EndOfStream
    ensures r.Ok? ==> r.value.0 < Pow256(n) && r.value.1 == Advance(c, n)
  {
    var (bs, c') :- Fixed(data, c, n);
    Ok((LittleEndian(bs), c'))
  }

  function U8(data: seq<byte>, c: Cursor): (r: Result<(byte, Cursor)>)
    ensures r.Ok? <==> c.pos + 1 <= |data|
    ensures r.Ok? ==> r.value.1 == Advance(c, 1)
  {
    Pow256Widths();
    var (v, c') :- Unsigned(data, c, 1);
    Ok((v, c'))
  }

  function U16(data: seq<byte>, c: Cursor): (r: Result<(u16, Cursor)>)
    ensures r.Ok? <==> c.pos + 2 <= |data|
    ensures r.Ok? ==> r.value.1 == Advance(c, 2)
  {
    Pow256Widths();
    var (v, c') :- Unsigned(data, c, 2);
    Ok((v, c'))
  }

  function U32(data: seq<byte>, c: Cursor): (r: Result<(u32, Cursor)>)
    ensures r.Ok? <==> c.pos + 4 <= |data|
    ensures r.Err? ==> r.error == EndOfStream
    ensures r.Ok? ==> r.value.1 == Advance(c, 4)
    ensures r.Ok? ==> r.value.0 == LittleEndian(data[c.pos..c.pos + 4])
  {
    Pow256Widths();
    var (v, c') :- Unsigned(data, c, 4);
    Ok((v, c'))
  }

  function U64(data: seq<byte>, c: Cursor): (r: Result<(u64, Cursor)>)
    ensures r.Ok? <==> c.pos + 8 <= |data|
    ensures r.Ok? ==> r.value.1 == Advance(c, 8)
  {
    Pow256Widths();
    var (v, c') :- Unsigned(data, c, 8);
    Ok((v, c'))
  }

  /** `I32`: the same four bytes as `U32`, read as two's complement. */
  function I32(data: seq<byte>, c: Cursor): (r: Result<(i32, Cursor)>)
    ensures r.Ok? <==> c.pos + 4 <= |data|
    ensures r.Err? ==> r.error == EndOfStream
    ensures r.Ok? ==> r.value.1 == Advance(c, 4)
    ensures r.Ok? ==> ToUnsigned32(r.value.0) == U32(data, c).value.0
    ensures r.Ok? ==> r.value.0 == ToSigned32(U32(data, c).value.0)
  {
    var (v, c') :- U32(data, c);
    Ok((ToSigned32(v), c'))
  }

  /** `Bool`: a four-byte word, true when any bit is set. */
  function Bool(data: seq<byte>, c: Cursor): (r: Result<(bool, Cursor)>)
    ensures r.Ok? <==> c.pos + 4 <= |data|
    ensures r.Ok? ==> r.value.1 == Advance(c, 4)
    ensures r.Ok? ==> (r.value.0 <==> U32(data, c).value.0 != 0)
  {
    var (v, c') :- U32(data, c);
    Ok((v != 0, c'))
  }

  /** `U64HL`: two words, the first one read being the high half. */
  function U64HL(data: seq<byte>, c: Cursor): (r: Result<(u64, Cursor)>)
    ensures r.Ok? <==> c.pos + 8 <= |data|
    ensures r.Ok? ==> r.value.1 == Advance(c, 8)
    ensures r.Ok? ==> r.value.0 == U32(data, c).value.0 * 0x1_0000_0000 + U32(data, Advance(c, 4)).value.0
  {
    var (high, c1) :- U32(data, c);
    var (low, c2) :- U32(data, c1);
    Ok((high * 0x1_0000_0000 + low, c2))
  }

  /** The first word read is the high half of the value, the second the low. */
  lemma U64HLHalves(data: seq<byte>, c: Cursor)
    requires c.pos + 8 <= |data|
    ensures U64HL(data, c).value.0 / 0x1_0000_0000 == U32(data, c).value.0
    ensures U64HL(data, c).value.0 % 0x1_0000_0000 == U32(data, Advance(c, 4)).value.0
  {
  }

  /** Reading high word first is an ordinary `U64` of the stream with its
      two words swapped. */
  lemma U64HLSwapsWords(data: seq<byte>, c: Cursor)
    requires c.pos + 8 <= |data|
    ensures
      var swapped := data[c.pos + 4..c.pos + 8] + data[c.pos..c.pos + 4];
      U64HL(data, c).value.0 == LittleEndian(swapped)
  {
    Pow256Widths();
    var lowBytes, highBytes := data[c.pos + 4..c.pos + 8], data[c.pos..c.pos + 4];
    LittleEndianSplit(lowBytes, highBytes);
  }

  /** `FGuid`: sixteen bytes; a short read makes the Guid constructor throw. */
  function FGuid(data: seq<byte>, c: Cursor): (r: Result<(seq<byte>, Cursor)>)
    ensures r.Ok? <==> c.pos + 16 <= |data|
    ensures r.Err? ==> r.error == Argument
    ensures r.Ok? ==> At(data, c.pos, r.value.0) && |r.value.0| == 16
    ensures r.Ok? ==> r.value.1 == Advance(c, 16)
  {
    var (bs, c') := ReadBytes(data, c, 16).value;
    if |bs| != 16 then Err(Argument) else Ok((bs, c'))
  }

  /** `Ref`: reads a signed index and records it for the resolution pass. */
  function Ref(data: seq<byte>, c: Cursor): (r: Result<(ObjectReference, Cursor)>)
    ensures r.Ok? <==> c.pos + 4 <= |data|
    ensures r.Ok? ==> r.value.0.to.None?
    ensures r.Ok? ==> r.value.1 == Cursor(c.pos + 4, c.refs + [r.value.0.raw], c.stack)
    ensures r.Ok? ==> r.value.0.raw == I32(data, c).value.0
  {
    var (raw, c') :- I32(data, c);
    Ok((ObjectReference(raw, None), c'.(refs := c'.refs + [raw])))
  }

  /** The display form of a name-table entry with its instance suffix:
      suffix 0 is the bare name, suffix k > 0 appends "_" and k - 1. */
  function Suffixed(base: string, suffix: u32): string {
    if suffix == 0 then base else base + "_" + Decimal(suffix - 1)
  }

  /** `Name`: an index into the name table, then a suffix; the index is
      checked only after both words are read. */
  function Name(data: seq<byte>, c: Cursor, names: seq<GlobalName>): (r: Result<(string, Cursor)>)
    ensures r.Ok? <==> c.pos + 8 <= |data| && U32(data, c).value.0 < |names|
    ensures c.pos + 8 > |data| ==> r == Err(EndOfStream)
    ensures c.pos + 8 <= |data| && r.Err? ==> r.error == IndexOutOfRange
    ensures r.Ok? ==> r.value.1 == Advance(c, 8)
    ensures r.Ok? ==> Text.StartsWith(r.value.0, names[U32(data, c).value.0].name)
    ensures r.Ok? ==> r.value.0 == Suffixed(names[U32(data, c).value.0].name, U32(data, Advance(c, 4)).value.0)
  {
    var (index, c1) :- U32(data, c);
    var (suffix, c2) :- U32(data, c1);
    if index >= |names| then Err(IndexOutOfRange)
    else Ok((Suffixed(names[index].name, suffix), c2))
  }

  /** Different suffixes of one entry never display alike. */
  lemma SuffixedInjective(base: string, s: u32, t: u32)
    requires Suffixed(base, s) == Suffixed(base, t)
    ensures s == t
  {
    if s != 0 && t != 0 {
      var a, b := Suffixed(base, s), Suffixed(base, t);
      assert a[|base| + 1..] == Decimal(s - 1);
      assert b[|base| + 1..] == Decimal(t - 1);
      DecimalInjective(s - 1, t - 1);
    }
  }

  /** The little-endian bytes of a u32, as `BinaryWriter` would write them. */
  function EncodeU32(v: u32): (bs: seq<byte>)
    ensures |bs| == 4
  {
    Pow256Widths();
    EncodeLittleEndian(v, 4)
  }

  function EncodeI32(x: i32): (bs: seq<byte>)
    ensures |bs| == 4
  {
    EncodeU32(ToUnsigned32(x))
  }

  function EncodeU16(v: u16): (bs: seq<byte>)
    ensures |bs| == 2
  {
    Pow256Widths();
    EncodeLittleEndian(v, 2)
  }

  function EncodeU64(v: u64): (bs: seq<byte>)
    ensures |bs| == 8
  {
    Pow256Widths();
    EncodeLittleEndian(v, 8)
  }

  /** Stored bytes split at any point are stored piece by piece. */
  lemma AtSplit(data: seq<byte>, pos: nat, a: seq<byte>, b: seq<byte>)
    requires At(data, pos, a + b)
    ensures At(data, pos, a) && At(data, pos + |a|, b)
  {
    assert data[pos..pos + |a|] == (a + b)[..|a|];
    assert data[pos + |a|..pos + |a| + |b|] == (a + b)[|a|..];
  }

  lemma UnsignedRoundTrip(data: seq<byte>, c: Cursor, v: nat, n: nat)
    requires v < Pow256(n) && At(data, c.pos, EncodeLittleEndian(v, n))
    ensures Unsigned(data, c, n) == Ok((v, Advance(c, n)))
  {
    FixedAt(data, c, EncodeLittleEndian(v, n));
    LittleEndianRoundTrip(v, n);
  }

  lemma U16RoundTrip(data: seq<byte>, c: Cursor, v: u16)
    requires At(data, c.pos, EncodeU16(v))
    ensures U16(data, c) == Ok((v, Advance(c, 2)))
  {
    Pow256Widths();
    UnsignedRoundTrip(data, c, v, 2);
  }

  lemma U32RoundTrip(data: seq<byte>, c: Cursor, v: u32)
    requires At(data, c.pos, EncodeU32(v))
    ensures U32(data, c) == Ok((v, Advance(c, 4)))
  {
    Pow256Widths();
    UnsignedRoundTrip(data, c, v, 4);
  }

  lemma U64RoundTrip(data: seq<byte>, c: Cursor, v: u64)
    requires At(data, c.pos, EncodeU64(v))
    ensures U64(data, c) == Ok((v, Advance(c, 8)))
  {
    Pow256Widths();
    UnsignedRoundTrip(data, c, v, 8);
  }

  lemma I32RoundTrip(data: seq<byte>, c: Cursor, x: i32)
    requires At(data, c.pos, EncodeI32(x))
    ensures I32(data, c) == Ok((x, Advance(c, 4)))
  {
    U32RoundTrip(data, c, ToUnsigned32(x));
  }

  /** The stored form of a `U64HL` value: the high word, then the low one. */
  function EncodeU64HL(v: u64): (bs: seq<byte>)
    ensures |bs| == 8
  {
    EncodeU32(v / 0x1_0000_0000) + EncodeU32(v % 0x1_0000_0000)
  }

  lemma U64HLRoundTrip(data: seq<byte>, c: Cursor, v: u64)
    requires At(data, c.pos, EncodeU64HL(v))
    ensures U64HL(data, c) == Ok((v, Advance(c, 8)))
  {
    AtSplit(data, c.pos, EncodeU32(v / 0x1_0000_0000), EncodeU32(v % 0x1_0000_0000));
    U32RoundTrip(data, c, v / 0x1_0000_0000);
    U32RoundTrip(data, Advance(c, 4), v % 0x1_0000_0000);
  }

  /** Sixteen stored bytes read back as the GUID. */
  lemma FGuidRoundTrip(data: seq<byte>, c: Cursor, guid: seq<byte>)
    requires |guid| == 16 && At(data, c.pos, guid)
    ensures FGuid(data, c) == Ok((guid, Advance(c, 16)))
  {
  }

  /** A stored raw reference reads back unresolved and is recorded. */
  lemma RefRoundTrip(data: seq<byte>, c: Cursor, x: ObjectReference)
    requires x.to.None? && At(data, c.pos, EncodeI32(x.raw))
    ensures Ref(data, c) == Ok((x, Cursor(c.pos + 4, c.refs + [x.raw], c.stack)))
  {
    I32RoundTrip(data, c, x.raw);
  }

  /** A stored (index, suffix) pair reads back as the suffixed entry. */
  lemma NameRoundTrip(data: seq<byte>, c: Cursor, names: seq<GlobalName>, index: u32, suffix: u32)
    requires At(data, c.pos, EncodeU32(index) + EncodeU32(suffix))
    requires index < |names|
    ensures Name(data, c, names) == Ok((Suffixed(names[index].name, suffix), Advance(c, 8)))
  {
    var bs := EncodeU32(index) + EncodeU32(suffix);
    assert data[c.pos..c.pos + 4] == bs[..4];
    assert data[c.pos + 4..c.pos + 8] == bs[4..];
    U32RoundTrip(data, c, index);
    U32RoundTrip(data, Advance(c, 4), suffix);
  }

  /** Index 1 with suffix 3 in the table ["Foo", "Bar"] reads as "Bar_2". */
  lemma NameExample(data: seq<byte>, c: Cursor)
    requires At(data, c.pos, [1, 0, 0, 0, 3, 0, 0, 0])
    ensures Name(data, c, [GlobalName("Foo", 0), GlobalName("Bar", 0)]) == Ok(("Bar_2", Advance(c, 8)))
  {
    Pow256Widths();
    assert EncodeU32(1) == [1, 0, 0, 0];
    assert EncodeU32(3) == [3, 0, 0, 0];
    assert EncodeU32(1) + EncodeU32(3) == [1, 0, 0, 0, 3, 0, 0, 0];
    assert Decimal(2) == "2";
    assert Suffixed("Bar", 3) == "Bar_2";
    NameRoundTrip(data, c, [GlobalName("Foo", 0), GlobalName("Bar", 0)], 1, 3);
  }

  /** `Push`: returns its argument and puts it on the stack. */
  function Push(c: Cursor, v: u32): (r: (u32, Cursor))
    ensures r.0 == v && r.1.stack == c.stack + [v]
    ensures r.1.pos == c.pos && r.1.refs == c.refs
  {
    (v, c.(stack := c.stack + [v]))
  }

  /** `Pop`: the most recently pushed value; an empty stack throws. */
  function Pop(c: Cursor): (r: Result<(u32, Cursor)>)
    ensures r.Err? <==> |c.stack| == 0
    ensures r.Err? ==> r.error == InvalidOperation
    ensures r.Ok? ==> c.stack == r.value.1.stack + [r.value.0]
    ensures r.Ok? ==> r.value.1.pos == c.pos && r.value.1.refs == c.refs
  {
    if |c.stack| == 0 then Err(InvalidOperation)
    else Ok((c.stack[|c.stack| - 1], c.(stack := c.stack[..|c.stack| - 1])))
  }

  lemma PopAfterPush(c: Cursor, v: u32)
    ensures Pop(Push(c, v).1) == Ok((v, c))
  {
    var d := Push(c, v).1;
    assert d.stack[..|d.stack| - 1] == c.stack;
  }

  /** `FString`: a signed length L, then |L| bytes (fewer at the end of the
      stream). L < 0 is UTF-16 text whose last two bytes are dropped;
      L >= 0 is ASCII text whose last byte is dropped. Math.Abs rejects
      int.MinValue, and L = 0 asks the decoder for -1 bytes. The 4096-byte
      sanity check of the original is commented out and so not modelled. */
  function FString(data: seq<byte>, c: Cursor): (r: Result<(string, Cursor)>)
    ensures c.pos + 4 > |data| ==> r == Err(EndOfStream)
    ensures c.pos + 4 <= |data| ==>
      var l := I32(data, c).value.0;
      && (l == IntMin ==> r == Err(Overflow))
      && (l == 0 ==> r == Err(ArgumentOutOfRange))
      && (r.Ok? ==> r.value.1 == Advance(c, 4 + Min(Abs(l), |data| - c.pos - 4)))
      && (r.Ok? ==> |r.value.0| < Abs(l))
    ensures r.Ok? ==> r.value.1.refs == c.refs && r.value.1.stack == c.stack
  {
    var (l, c1) :- I32(data, c);
    if l == IntMin then Err(Overflow)
    else if l < 0 then
      var (bs, c2) := ReadBytes(data, c1, -l).value;
      if |bs| < 2 then Err(ArgumentOutOfRange)
      else Ok((Encoding.DecodeUtf16(bs[..|bs| - 2]), c2))
    else
      var (bs, c2) := ReadBytes(data, c1, l).value;
      if |bs| < 1 then Err(ArgumentOutOfRange)
      else Ok((Encoding.DecodeAscii(bs[..|bs| - 1]), c2))
  }

  /** The stored form of an ASCII string: length including a terminator,
      the characters, a NUL. */
  function EncodeFStringAscii(s: string): (bs: seq<byte>)
    requires Encoding.IsAscii(s) && |s| < IntMax
    ensures |bs| == 4 + |s| + 1
  {
    EncodeI32(|s| + 1) + Encoding.EncodeAscii(s) + [0]
  }

  /** The stored form of a UTF-16 string: minus its byte count including
      the two-byte terminator, the code units, a NUL unit. */
  function EncodeFStringUtf16(s: string): (bs: seq<byte>)
    requires |Encoding.EncodeUtf16(s)| + 2 <= IntMax
    ensures |bs| == 4 + |Encoding.EncodeUtf16(s)| + 2
  {
    EncodeI32(-|Utf16Terminated(s)|) + Utf16Terminated(s)
  }

  /** The code units of `s` followed by a NUL unit. */
  function Utf16Terminated(s: string): (bs: seq<byte>)
    ensures |bs| == |Encoding.EncodeUtf16(s)| + 2
    ensures bs[..|bs| - 2] == Encoding.EncodeUtf16(s)
  {
    Encoding.EncodeUtf16(s) + [0, 0]
  }

  /** A stored length of n > 0 followed by n bytes reads as the ASCII
      text of all but the last of them. */
  lemma FStringAsciiAt(data: seq<byte>, c: Cursor, bs: seq<byte>)
    requires 1 <= |bs| <= IntMax
    requires At(data, c.pos, EncodeI32(|bs|) + bs)
    ensures FString(data, c) == Ok((Encoding.DecodeAscii(bs[..|bs| - 1]), Advance(c, 4 + |bs|)))
  {
    var stored := EncodeI32(|bs|) + bs;
    assert data[c.pos..c.pos + |stored|] == stored;
    assert data[c.pos..c.pos + 4] == stored[..4];
    I32RoundTrip(data, c, |bs|);
    var read := ReadBytes(data, Advance(c, 4), |bs|).value.0;
    assert read == stored[4..] == bs;
  }

  /** A stored length of -n < 0 followed by n bytes reads as the UTF-16
      text of all but the last two of them. */
  lemma FStringUtf16At(data: seq<byte>, c: Cursor, bs: seq<byte>)
    requires 2 <= |bs| <= IntMax
    requires At(data, c.pos, EncodeI32(-|bs|) + bs)
    ensures FString(data, c) == Ok((Encoding.DecodeUtf16(bs[..|bs| - 2]), Advance(c, 4 + |bs|)))
  {
    var stored := EncodeI32(-|bs|) + bs;
    assert data[c.pos..c.pos + |stored|] == stored;
    assert data[c.pos..c.pos + 4] == stored[..4];
    I32RoundTrip(data, c, -|bs|);
    var read := ReadBytes(data, Advance(c, 4), |bs|).value.0;
    assert read == stored[4..] == bs;
  }

  lemma FStringAsciiRoundTrip(data: seq<byte>, c: Cursor, s: string)
    requires Encoding.IsAscii(s) && |s| < IntMax
    requires At(data, c.pos, EncodeFStringAscii(s))
    ensures FString(data, c) == Ok((s, Advance(c, 4 + |s| + 1)))
  {
    var body := Encoding.EncodeAscii(s) + [0];
    assert EncodeFStringAscii(s) == EncodeI32(|body|) + body;
    FStringAsciiAt(data, c, body);
    assert body[..|body| - 1] == Encoding.EncodeAscii(s);
    Encoding.AsciiRoundTrip(s);
  }

  lemma FStringUtf16RoundTrip(data: seq<byte>, c: Cursor, s: string)
    requires |Encoding.EncodeUtf16(s)| + 2 <= IntMax
    requires At(data, c.pos, EncodeFStringUtf16(s))
    ensures FString(data, c) == Ok((s, Advance(c, 4 + |Encoding.EncodeUtf16(s)| + 2)))
  {
    FStringUtf16At(data, c, Utf16Terminated(s));
    Encoding.Utf16RoundTrip(s);
  }

  /** `Detour(p)` as a scope: the body runs from position `p`; when the
      scope ends the position is put back, while the references and the
      stack the body changed stay changed. */
  function Detour<T>(c: Cursor, p: nat, body: Cursor -> Result<(T, Cursor)>): (r: Result<(T, Cursor)>)
    ensures r.Ok? <==> body(c.(pos := p)).Ok?
    ensures r.Err? ==> r.error == body(c.(pos := p)).error
    ensures r.Ok? ==> r.value.1.pos == c.pos
    ensures r.Ok? ==> r.value.0 == body(c.(pos := p)).value.0
    ensures r.Ok? ==> r.value.1.refs == body(c.(pos := p)).value.1.refs
    ensures r.Ok? ==> r.value.1.stack == body(c.(pos := p)).value.1.stack
  {
    var (x, c') :- body(c.(pos := p));
    Ok((x, c'.(pos := c.pos)))
  }

  /** `count` elements built one after another, each from where the
      previous one stopped. */
  function Repeat<T>(c: Cursor, count: nat, f: Cursor -> Result<(T, Cursor)>): (r: Result<(seq<T>, Cursor)>)
    ensures r.Ok? ==> |r.value.0| == count
    ensures count == 0 ==> r == Ok(([], c))
    ensures count > 0 && f(c).Err? ==> r == Err(f(c).error)
    decreases count
  {
    if count == 0 then Ok(([], c))
    else
      var (x, c1) :- f(c);
      var (xs, c2) :- Repeat(c1, count - 1, f);
      Ok(([x] + xs, c2))
  }

  /** `xs` in front of the elements of a later read, or its failure. */
  function Prepend<T>(xs: seq<T>, r: Result<(seq<T>, Cursor)>): Result<(seq<T>, Cursor)> {
    match r
    case Err(e) => Err(e)
    case Ok((ys, c)) => Ok((xs + ys, c))
  }

  /** Reading `m + n` elements is reading `m`, then `n` more from where
      those stopped. */
  lemma {:induction false} RepeatSplit<T>(c: Cursor, m: nat, n: nat, f: Cursor -> Result<(T, Cursor)>)
    requires Repeat(c, m, f).Ok?
    ensures Repeat(c, m + n, f) == Prepend(Repeat(c, m, f).value.0, Repeat(Repeat(c, m, f).value.1, n, f))
    decreases m
  {
    if m > 0 {
      var (x, c1) := f(c).value;
      var (xs, c2) := Repeat(c1, m - 1, f).value;
      assert Repeat(c, m, f).value == ([x] + xs, c2);
      RepeatSplit(c1, m - 1, n, f);
      assert m + n - 1 == (m - 1) + n;
      var rest := Repeat(c2, n, f);
      assert Repeat(c1, m + n - 1, f) == Prepend(xs, rest);
      assert Repeat(c, m + n, f) == Prepend([x], Repeat(c1, m + n - 1, f));
      if rest.Ok? {
        var (ys, c3) := rest.value;
        assert [x] + (xs + ys) == ([x] + xs) + ys;
      }
    } else if Repeat(c, n, f).Ok? {
      var ys := Repeat(c, n, f).value.0;
      assert [] + ys == ys;
    }
  }

  /** Once an element fails, reading more elements fails the same way. */
  lemma {:induction false} RepeatFailsEarly<T>(c: Cursor, m: nat, n: nat, f: Cursor -> Result<(T, Cursor)>)
    requires Repeat(c, m, f).Err?
    ensures Repeat(c, m + n, f) == Repeat(c, m, f)
    decreases m
  {
    if f(c).Ok? {
      var (x, c1) := f(c).value;
      RepeatFailsEarly(c1, m - 1, n, f);
      assert m + n - 1 == (m - 1) + n;
    }
  }

  /** `Array(count, construct)`: counts above int.MaxValue are rejected
      before anything is read. */
  function Array<T>(c: Cursor, count: u32, f: Cursor -> Result<(T, Cursor)>): (r: Result<(seq<T>, Cursor)>)
    ensures count > IntMax ==> r == Err(ArgumentOutOfRange)
    ensures r.Ok? ==> |r.value.0| == count
    ensures count <= IntMax ==> r == Repeat(c, count, f)
  {
    if count > IntMax then Err(ArgumentOutOfRange) else Repeat(c, count, f)
  }

  /** `Array(construct)`: a u32 count read first. */
  function CountedArray<T>(data: seq<byte>, c: Cursor, f: Cursor -> Result<(T, Cursor)>): (r: Result<(seq<T>, Cursor)>)
    ensures c.pos + 4 > |data| ==> r == Err(EndOfStream)
    ensures r.Ok? ==> |r.value.0| == U32(data, c).value.0
  {
    var (count, c1) :- U32(data, c);
    Array(c1, count, f)
  }

  /** The stored form of a sequence of words, one after another. */
  function EncodeU32s(vs: seq<u32>): (bs: seq<byte>)
    ensures |bs| == 4 * |vs|
  {
    if |vs| == 0 then [] else EncodeU32(vs[0]) + EncodeU32s(vs[1..])
  }

  /** An array of words reads back the words that were stored. */
  lemma {:induction false} U32ArrayRoundTrip(data: seq<byte>, c: Cursor, vs: seq<u32>)
    requires At(data, c.pos, EncodeU32s(vs))
    ensures Repeat(c, |vs|, d => U32(data, d)) == Ok((vs, Advance(c, 4 * |vs|)))
    decreases |vs|
  {
    if |vs| > 0 {
      var bs := EncodeU32s(vs);
      assert bs == EncodeU32(vs[0]) + EncodeU32s(vs[1..]);
      assert data[c.pos..c.pos + 4] == bs[..4];
      assert data[c.pos + 4..c.pos + |bs|] == bs[4..];
      U32RoundTrip(data, c, vs[0]);
      U32ArrayRoundTrip(data, Advance(c, 4), vs[1..]);
      assert [vs[0]] + vs[1..] == vs;
    }
  }
}
