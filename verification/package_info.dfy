/** `PackageInfo`: a quick probe of an Unreal package's first header fields,
    read with a plain little-endian reader and without table resolution.
    Any read failure leaves the fields read so far in place and the rest at
    their defaults. Text is kept as UTF-16 code units, because the probe's
    string reader casts raw units to characters without decoding them. */
module PackageInfo {
  import opened Wrappers
  import opened Numeric
  import opened BinaryData
  import UnrealPackages
  import Text
  import Encoding

  /** `ValidSignature`: the same magic as every package header. */
  const ValidSignature: u32 := UnrealPackages.PackageSignature

  /** Bytes per unit: one in the narrow form, two in the wide one. */
  function Width(wide: bool): nat {
    if wide then 2 else 1
  }

  /** Bytes taken by `n` units. */
  function Span(wide: bool, n: nat): nat {
    if wide then n + n else n
  }

  /** One unit, as `ReadByte` or `ReadUInt16` gives it: a byte widened to
      a code unit, or two bytes least significant first. */
  function ReadUnit(data: seq<byte>, c: Cursor, wide: bool): (r: Result<(u16, Cursor)>)
    ensures r.Ok? <==> c.pos + Width(wide) <= |data|
    ensures r.Err? ==> r.error == EndOfStream
    ensures r.Ok? ==> r.value.1 == Advance(c, Width(wide))
    ensures r.Ok? && !wide ==> r.value.0 < 0x100
  {
    if c.pos + Width(wide) > |data| then Err(EndOfStream)
    else if wide then Ok(((data[c.pos] as int) + 0x100 * (data[c.pos + 1] as int), Advance(c, 2)))
    else Ok((data[c.pos], Advance(c, 1)))
  }

  /** A reader of one unit. */
  type UnitSource = Cursor -> Result<(u16, Cursor)>

  /** The unit reader of one form over `data`. */
  function Source(data: seq<byte>, wide: bool): UnitSource {
    d => ReadUnit(data, d, wide)
  }

  /** At most `limit` units, stopping after (and without) a zero unit. */
  function ReadUnits(read: UnitSource, c: Cursor, limit: nat): (r: Result<(seq<u16>, Cursor)>)
    ensures r.Ok? ==> 0 !in r.value.0 && |r.value.0| <= limit
    decreases limit
  {
    if limit == 0 then Ok(([], c))
    else
      match read(c)
      case Err(e) => Err(e)
      case Ok((u, c1)) =>
        if u == 0 then Ok(([], c1))
        else
          match ReadUnits(read, c1, limit - 1)
          case Err(e) => Err(e)
          case Ok((rest, c2)) => Ok(([u] + rest, c2))
  }

  predicate Narrow(units: seq<u16>) {
    forall i :: 0 <= i < |units| ==> units[i] < 0x100
  }

  /** Reading units from bytes fails only at the end of the stream, gives
      byte-sized units in the narrow form, and leaves the reference table
      and the position stack alone. */
  lemma {:induction false} SourceUnits(data: seq<byte>, c: Cursor, wide: bool, limit: nat)
    ensures var r := ReadUnits(Source(data, wide), c, limit);
      && (r.Err? ==> r.error == EndOfStream)
      && (r.Ok? && !wide ==> Narrow(r.value.0))
      && (r.Ok? ==> r.value.1.refs == c.refs && r.value.1.stack == c.stack)
      && (r.Ok? && c.pos <= |data| ==> c.pos + Span(wide, |r.value.0|) <= |data|)
    decreases limit
  {
    if limit > 0 {
      match ReadUnit(data, c, wide)
      case Err(_) =>
      case Ok((u, c1)) =>
        if u != 0 {
          SourceUnits(data, c1, wide, limit - 1);
        }
    }
  }

  /** How many units the loop `for (i = 0; i <= n; ++i)` may read for a
      length prefix `length`, where `n` is the length or its 32-bit
      negation, with `available` bytes left. The negation of int.MinValue
      wraps to itself, so that loop never runs. When `n` is int.MaxValue
      the counter wraps before it can pass `n`, so only the end of the
      stream or a zero unit ends the loop; more units than bytes left
      stands for that. */
  function UnitLimit(length: i32, available: nat): nat {
    if length == IntMin then 0
    else if Abs(length) == IntMax then available + 1
    else Abs(length) + 1
  }

  /** `PackageInfo.ReadFString`: a signed length, negative for wide units,
      then units up to a zero terminator or the length plus one, whichever
      comes first. */
  function ReadFString(data: seq<byte>, c: Cursor): (r: Result<(seq<u16>, Cursor)>)
    ensures c.pos + 4 > |data| ==> r == Err(EndOfStream)
    ensures r.Err? ==> r.error == EndOfStream
    ensures r.Ok? ==> 0 !in r.value.0
    ensures r.Ok? ==> |r.value.0| <= UnitLimit(I32(data, c).value.0, |data| - (c.pos + 4))
    ensures r.Ok? ==> c.pos + 4 + |r.value.0| <= |data|
    ensures r.Ok? && I32(data, c).value.0 >= 0 ==> forall i :: 0 <= i < |r.value.0| ==> r.value.0[i] < 0x100
    ensures c.pos + 4 <= |data| && I32(data, c).value.0 == IntMin ==> r == Ok(([], Advance(c, 4)))
    ensures r.Ok? ==> r.value.1.refs == c.refs && r.value.1.stack == c.stack
  {
    var (length, c1) :- I32(data, c);
    var limit := UnitLimit(length, |data| - c1.pos);
    SourceUnits(data, c1, length < 0, limit);
    ReadUnits(Source(data, length < 0), c1, limit)
  }

  /** The reader handed to the save-game description reader. */
  function UnitReader(data: seq<byte>): Cursor -> Result<(seq<u16>, Cursor)> {
    d => ReadFString(data, d)
  }

  /** Encoding of one unit in either form. */
  function EncodeUnit(u: u16, wide: bool): (bs: seq<byte>)
    requires wide || u < 0x100
    ensures |bs| == Width(wide)
  {
    if wide then [u % 0x100, u / 0x100] else [u]
  }

  function EncodeUnits(units: seq<u16>, wide: bool): (bs: seq<byte>)
    requires wide || Narrow(units)
    ensures |bs| == Span(wide, |units|)
  {
    if |units| == 0 then [] else EncodeUnit(units[0], wide) + EncodeUnits(units[1..], wide)
  }

  /** The Unreal form of a string: the length counts the terminator and is
      negated for wide units; the units follow, then a zero unit. */
  function EncodeFString(units: seq<u16>, wide: bool): (bs: seq<byte>)
    requires wide || Narrow(units)
    requires |units| < IntMax
    ensures |bs| == 4 + Span(wide, |units| + 1)
  {
    EncodeI32(LengthPrefix(units, wide)) + Terminated(units, wide)
  }

  /** The length prefix: the unit count with its terminator, negated when wide. */
  function LengthPrefix(units: seq<u16>, wide: bool): (length: i32)
    requires |units| < IntMax
    ensures Abs(length) == |units| + 1 && (length < 0 <==> wide)
  {
    var n := |units| + 1;
    if wide then -n else n
  }

  /** The units followed by a zero unit. */
  function Terminated(units: seq<u16>, wide: bool): (bs: seq<byte>)
    requires wide || Narrow(units)
    ensures |bs| == Span(wide, |units| + 1)
  {
    EncodeUnits(units, wide) + EncodeUnit(0, wide)
  }

  lemma UnitRoundTrip(data: seq<byte>, c: Cursor, u: u16, wide: bool)
    requires wide || u < 0x100
    requires At(data, c.pos, EncodeUnit(u, wide))
    ensures ReadUnit(data, c, wide) == Ok((u, Advance(c, Width(wide))))
  {
    var bs := EncodeUnit(u, wide);
    assert data[c.pos] == bs[0];
    if wide {
      assert data[c.pos + 1] == bs[1];
    }
  }

  /** The `i`-th unit read from `c` on. */
  predicate UnitAt(data: seq<byte>, c: Cursor, wide: bool, i: nat, u: u16) {
    ReadUnit(data, Advance(c, Span(wide, i)), wide) == Ok((u, Advance(c, Span(wide, i + 1))))
  }

  /** Encoded units are each where the reader expects them. */
  lemma {:induction false} EncodedUnitsAt(data: seq<byte>, c: Cursor, units: seq<u16>, wide: bool)
    requires wide || Narrow(units)
    requires At(data, c.pos, EncodeUnits(units, wide))
    ensures forall i {:trigger UnitAt(data, c, wide, i, units[i])} :: 0 <= i < |units| ==> UnitAt(data, c, wide, i, units[i])
    decreases units
  {
    if |units| > 0 {
      var c1 := Advance(c, Width(wide));
      AtSplit(data, c.pos, EncodeUnit(units[0], wide), EncodeUnits(units[1..], wide));
      UnitRoundTrip(data, c, units[0], wide);
      EncodedUnitsAt(data, c1, units[1..], wide);
      forall i | 0 <= i < |units| ensures UnitAt(data, c, wide, i, units[i]) {
        if i > 0 {
          assert UnitAt(data, c1, wide, i - 1, units[1..][i - 1]);
          assert Advance(c1, Span(wide, i - 1)) == Advance(c, Span(wide, i));
          assert Advance(c1, Span(wide, i)) == Advance(c, Span(wide, i + 1));
        }
      }
    }
  }

  /** The cursors a reader passes through: `cs[i]` is where unit `i` starts. */
  predicate Chain(read: UnitSource, cs: seq<Cursor>, units: seq<u16>) {
    && |cs| == |units| + 1
    && forall i :: 0 <= i < |units| ==> read(cs[i]) == Ok((units[i], cs[i + 1]))
  }

  /** Non-zero units read one by one, after which the reading goes on from
      just past them with what is left of the limit. */
  lemma {:induction false} UnitsPrefix(
    read: UnitSource, cs: seq<Cursor>, units: seq<u16>, limit: nat, more: seq<u16>, last: Cursor)
    requires 0 !in units && |units| <= limit
    requires Chain(read, cs, units)
    requires ReadUnits(read, cs[|units|], limit - |units|) == Ok((more, last))
    ensures ReadUnits(read, cs[0], limit) == Ok((units + more, last))
    decreases units
  {
    if |units| > 0 {
      assert read(cs[0]) == Ok((units[0], cs[1]));
      assert units == [units[0]] + units[1..];
      UnitsPrefix(read, cs[1..], units[1..], limit - 1, more, last);
      assert [units[0]] + (units[1..] + more) == units + more;
    } else {
      assert units + more == more;
    }
  }

  /** Where each of `n` units of one form starts, and where they end. */
  function Cursors(c: Cursor, wide: bool, n: nat): (cs: seq<Cursor>)
    ensures |cs| == n + 1
  {
    seq(n + 1, (i: nat) => Advance(c, Span(wide, i)))
  }

  /** The cursors of encoded units laid out from `c`. */
  lemma EncodedChain(data: seq<byte>, c: Cursor, units: seq<u16>, wide: bool)
    requires wide || Narrow(units)
    requires At(data, c.pos, EncodeUnits(units, wide))
    ensures var cs := Cursors(c, wide, |units|);
      Chain(Source(data, wide), cs, units) && cs[0] == c && cs[|units|] == Advance(c, Span(wide, |units|))
  {
    EncodedUnitsAt(data, c, units, wide);
    var cs := Cursors(c, wide, |units|);
    forall i | 0 <= i < |units| ensures Source(data, wide)(cs[i]) == Ok((units[i], cs[i + 1])) {
      assert UnitAt(data, c, wide, i, units[i]);
    }
  }

  /** A zero unit ends the reading and is consumed. */
  lemma TerminatorStops(read: UnitSource, c: Cursor, limit: nat, c1: Cursor)
    requires limit > 0 && read(c) == Ok((0, c1))
    ensures ReadUnits(read, c, limit) == Ok(([], c1))
  {
  }

  lemma UnitsRoundTrip(data: seq<byte>, c: Cursor, units: seq<u16>, wide: bool, limit: nat)
    requires wide || Narrow(units)
    requires 0 !in units && |units| < limit
    requires At(data, c.pos, Terminated(units, wide))
    ensures ReadUnits(Source(data, wide), c, limit) == Ok((units, Advance(c, Span(wide, |units| + 1))))
  {
    var w := Width(wide);
    AtSplit(data, c.pos, EncodeUnits(units, wide), EncodeUnit(0, wide));
    var c1 := Advance(c, Span(wide, |units|));
    UnitRoundTrip(data, c1, 0, wide);
    TerminatorStops(Source(data, wide), c1, limit - |units|, Advance(c1, w));
    EncodedChain(data, c, units, wide);
    UnitsPrefix(Source(data, wide), Cursors(c, wide, |units|), units, limit, [], Advance(c1, w));
    assert units + [] == units;
  }

  /** Reading back an encoded string gives its units and moves past the
      terminator, in either form. */
  lemma FStringRoundTrip(data: seq<byte>, c: Cursor, units: seq<u16>, wide: bool)
    requires wide || Narrow(units)
    requires 0 !in units && |units| < IntMax
    requires At(data, c.pos, EncodeFString(units, wide))
    ensures ReadFString(data, c) == Ok((units, Advance(c, |EncodeFString(units, wide)|)))
  {
    var length := LengthPrefix(units, wide);
    AtSplit(data, c.pos, EncodeI32(length), Terminated(units, wide));
    I32RoundTrip(data, c, length);
    var limit := UnitLimit(length, |data| - (c.pos + 4));
    assert limit > |units|;
    UnitsRoundTrip(data, Advance(c, 4), units, wide, limit);
    ReadFStringUnits(data, c, length);
  }

  /** After a length that reads as `length`, the string is the units read
      in the form its sign selects, up to its limit. */
  lemma ReadFStringUnits(data: seq<byte>, c: Cursor, length: i32)
    requires I32(data, c) == Ok((length, Advance(c, 4)))
    ensures ReadFString(data, c)
      == ReadUnits(Source(data, length < 0), Advance(c, 4), UnitLimit(length, |data| - (c.pos + 4)))
  {
  }

  /** Any limit beyond the bytes left gives the same reading: the stand-in
      for the unbounded loop of a length of int.MaxValue is faithful. */
  lemma {:induction false} LimitBeyondData(data: seq<byte>, c: Cursor, wide: bool, limit: nat, limit': nat)
    requires c.pos <= |data| && limit > |data| - c.pos && limit' > |data| - c.pos
    ensures ReadUnits(Source(data, wide), c, limit) == ReadUnits(Source(data, wide), c, limit')
    decreases limit
  {
    match ReadUnit(data, c, wide)
    case Err(_) =>
    case Ok((u, c1)) =>
      if u != 0 {
        LimitBeyondData(data, c1, wide, limit - 1, limit' - 1);
      }
  }

  /** A string that fills its whole allowance stops without a terminator:
      `length` plus one units are read, none of them zero. */
  lemma UnitsAtLimit(data: seq<byte>, c: Cursor, units: seq<u16>, wide: bool)
    requires wide || Narrow(units)
    requires 0 !in units
    requires At(data, c.pos, EncodeUnits(units, wide))
    ensures ReadUnits(Source(data, wide), c, |units|) == Ok((units, Advance(c, Span(wide, |units|))))
  {
    EncodedChain(data, c, units, wide);
    UnitsPrefix(Source(data, wide), Cursors(c, wide, |units|), units, |units|, [], Advance(c, Span(wide, |units|)));
    assert units + [] == units;
  }

  /** The named members of the `PackageFlags` enum, one bit each. */
  datatype Flag =
    | AllowDownload | ClientOptional | ServerSideOnly | Cooked | Insecure | Encrypted
    | Required | Map | Script | Debug | Imports | Compressed | FullyCompressed
    | NoExportsData | Stripped | Protected

  function Bit(f: Flag): (b: nat)
    ensures b < 32
  {
    match f
    case AllowDownload => 0
    case ClientOptional => 1
    case ServerSideOnly => 2
    case Cooked => 3
    case Insecure => 4
    case Encrypted => 5
    case Required => 15
    case Map => 17
    case Script => 21
    case Debug => 22
    case Imports => 23
    case Compressed => 25
    case FullyCompressed => 26
    case NoExportsData => 29
    case Stripped => 30
    case Protected => 31
  }

  function Name(f: Flag): string {
    match f
    case AllowDownload => "AllowDownload"
    case ClientOptional => "ClientOptional"
    case ServerSideOnly => "ServerSideOnly"
    case Cooked => "Cooked"
    case Insecure => "Insecure"
    case Encrypted => "Encrypted"
    case Required => "Required"
    case Map => "Map"
    case Script => "Script"
    case Debug => "Debug"
    case Imports => "Imports"
    case Compressed => "Compressed"
    case FullyCompressed => "FullyCompressed"
    case NoExportsData => "NoExportsData"
    case Stripped => "Stripped"
    case Protected => "Protected"
  }

  /** The members in the order `Enum.ToString` visits them: from the
      highest value down. */
  const Declared: seq<Flag> := [
    Protected, Stripped, NoExportsData, FullyCompressed, Compressed, Imports,
    Debug, Script, Map, Required, Encrypted, Insecure, Cooked, ServerSideOnly,
    ClientOptional, AllowDownload]

  /** Each member's bit is above the next one's. */
  predicate Descending(fs: seq<Flag>) {
    forall i :: 0 <= i < |fs| - 1 ==> Bit(fs[i]) > Bit(fs[i + 1])
  }

  lemma DeclaredDescending()
    ensures Descending(Declared)
  {
  }

  lemma AllDeclared(f: Flag)
    ensures f in Declared
  {
    match f
    case Protected => assert Declared[0] == f;
    case Stripped => assert Declared[1] == f;
    case NoExportsData => assert Declared[2] == f;
    case FullyCompressed => assert Declared[3] == f;
    case Compressed => assert Declared[4] == f;
    case Imports => assert Declared[5] == f;
    case Debug => assert Declared[6] == f;
    case Script => assert Declared[7] == f;
    case Map => assert Declared[8] == f;
    case Required => assert Declared[9] == f;
    case Encrypted => assert Declared[10] == f;
    case Insecure => assert Declared[11] == f;
    case Cooked => assert Declared[12] == f;
    case ServerSideOnly => assert Declared[13] == f;
    case ClientOptional => assert Declared[14] == f;
    case AllowDownload => assert Declared[15] == f;
  }

  /** Every later member of a descending list has a lower bit than the first. */
  lemma {:induction false} BelowHead(fs: seq<Flag>, f: Flag)
    requires Descending(fs) && |fs| > 0 && f in fs[1..]
    ensures Bit(f) < Bit(fs[0])
    decreases |fs|
  {
    if f != fs[1] {
      assert f in fs[1..][1..];
      assert Descending(fs[1..]) by {
        forall i | 0 <= i < |fs[1..]| - 1 ensures Bit(fs[1..][i]) > Bit(fs[1..][i + 1]) {
          assert fs[1..][i] == fs[i + 1] && fs[1..][i + 1] == fs[i + 2];
        }
      }
      BelowHead(fs[1..], f);
    }
    assert Bit(fs[0]) > Bit(fs[1]);
  }

  /** The name of the zero member. */
  const NoneName: string := "None"

  /** The member a name spells, if any. */
  function FlagNamed(s: string): (r: Option<Flag>)
    ensures r.Some? ==> Name(r.value) == s
  {
    if s == "AllowDownload" then Some(AllowDownload)
    else if s == "ClientOptional" then Some(ClientOptional)
    else if s == "ServerSideOnly" then Some(ServerSideOnly)
    else if s == "Cooked" then Some(Cooked)
    else if s == "Insecure" then Some(Insecure)
    else if s == "Encrypted" then Some(Encrypted)
    else if s == "Required" then Some(Required)
    else if s == "Map" then Some(Map)
    else if s == "Script" then Some(Script)
    else if s == "Debug" then Some(Debug)
    else if s == "Imports" then Some(Imports)
    else if s == "Compressed" then Some(Compressed)
    else if s == "FullyCompressed" then Some(FullyCompressed)
    else if s == "NoExportsData" then Some(NoExportsData)
    else if s == "Stripped" then Some(Stripped)
    else if s == "Protected" then Some(Protected)
    else None
  }

  lemma FlagNamedName(f: Flag)
    ensures FlagNamed(Name(f)) == Some(f)
  {
  }

  /** Every member name begins with an upper-case letter. */
  lemma NameStartsUpper(f: Flag)
    ensures |Name(f)| > 0 && 'A' <= Name(f)[0] <= 'Z'
  {
  }

  /** No member name contains the separator. */
  lemma NameHasNoBar(f: Flag)
    ensures '|' !in Name(f)
  {
  }

  /** A set bit is worth at least its own value. */
  lemma {:induction false} HasBitBound(value: nat, b: nat)
    requires UnrealPackages.HasBit(value, b)
    ensures value >= UnrealPackages.Pow2(b)
    decreases b
  {
    if b > 0 {
      HasBitBound(value / 2, b - 1);
    }
  }

  /** The flags loop of `Enum.ToString` on a `[Flags]` enum: visit the
      members in `fs` in order, take each whose bits are all still set and
      clear them. Returns what is left and the members taken, the last
      visited first, since each taken name is inserted at the front. */
  function Strip(value: nat, fs: seq<Flag>): (r: (nat, seq<Flag>))
    ensures forall i :: 0 <= i < |r.1| ==> r.1[i] in fs
    decreases |fs|
  {
    if |fs| == 0 then (value, [])
    else if UnrealPackages.HasBit(value, Bit(fs[0])) then
      HasBitBound(value, Bit(fs[0]));
      var r := Strip(value - UnrealPackages.Pow2(Bit(fs[0])), fs[1..]);
      (r.0, r.1 + [fs[0]])
    else Strip(value, fs[1..])
  }

  /** The combined value of a list of members. */
  function Total(fs: seq<Flag>): nat {
    if |fs| == 0 then 0 else Total(fs[..|fs| - 1]) + UnrealPackages.Pow2(Bit(fs[|fs| - 1]))
  }

  lemma TotalAppend(fs: seq<Flag>, f: Flag)
    ensures Total(fs + [f]) == Total(fs) + UnrealPackages.Pow2(Bit(f))
  {
    assert (fs + [f])[..|fs|] == fs;
  }

  /** Nothing is lost: what is left plus the members taken is the value. */
  lemma {:induction false} StripConserves(value: nat, fs: seq<Flag>)
    ensures Strip(value, fs).0 + Total(Strip(value, fs).1) == value
    decreases |fs|
  {
    if |fs| > 0 {
      var b := Bit(fs[0]);
      if UnrealPackages.HasBit(value, b) {
        HasBitBound(value, b);
        var v := value - UnrealPackages.Pow2(b);
        StripConserves(v, fs[1..]);
        TotalAppend(Strip(v, fs[1..]).1, fs[0]);
      } else {
        StripConserves(value, fs[1..]);
      }
    }
  }

  /** Clearing bit `b` leaves every lower bit as it was. */
  lemma {:induction false} ClearKeepsLower(v: nat, b: nat, j: nat)
    requires v >= UnrealPackages.Pow2(b) && j < b
    ensures UnrealPackages.HasBit(v - UnrealPackages.Pow2(b), j) == UnrealPackages.HasBit(v, j)
    decreases j
  {
    if j > 0 {
      assert (v - UnrealPackages.Pow2(b)) / 2 == v / 2 - UnrealPackages.Pow2(b - 1);
      ClearKeepsLower(v / 2, b - 1, j - 1);
    }
  }

  /** A member of a descending list is taken exactly when its bit is set:
      clearing higher bits on the way never disturbs a lower one. */
  lemma {:induction false} StripTakes(value: nat, fs: seq<Flag>, f: Flag)
    requires Descending(fs) && f in fs
    ensures f in Strip(value, fs).1 <==> UnrealPackages.HasBit(value, Bit(f))
    decreases |fs|
  {
    var g := fs[0];
    var rest := fs[1..];
    assert Descending(rest) by {
      forall i | 0 <= i < |rest| - 1 ensures Bit(rest[i]) > Bit(rest[i + 1]) {
        assert rest[i] == fs[i + 1] && rest[i + 1] == fs[i + 2];
      }
    }
    if f == g {
      if f in rest {
        BelowHead(fs, f);
      }
      if UnrealPackages.HasBit(value, Bit(g)) {
        HasBitBound(value, Bit(g));
        assert f in Strip(value - UnrealPackages.Pow2(Bit(g)), rest).1 + [g];
      }
    } else {
      assert f in rest;
      BelowHead(fs, f);
      if UnrealPackages.HasBit(value, Bit(g)) {
        HasBitBound(value, Bit(g));
        var v := value - UnrealPackages.Pow2(Bit(g));
        StripTakes(v, rest, f);
        ClearKeepsLower(value, Bit(g), Bit(f));
        var taken := Strip(v, rest).1;
        assert f in taken + [g] <==> f in taken;
      } else {
        StripTakes(value, rest, f);
      }
    }
  }

  /** A member is printed exactly when its bit is set. */
  lemma StripTakesSetBits(value: nat, f: Flag)
    ensures f in Strip(value, Declared).1 <==> UnrealPackages.HasBit(value, Bit(f))
  {
    DeclaredDescending();
    AllDeclared(f);
    StripTakes(value, Declared, f);
  }

  function Names(fs: seq<Flag>): (ns: seq<string>)
    ensures |ns| == |fs|
    ensures forall i :: 0 <= i < |fs| ==> ns[i] == Name(fs[i])
  {
    seq(|fs|, i requires 0 <= i < |fs| => Name(fs[i]))
  }

  /** `Flags.ToString().Replace(", ", "|")`: the zero member's name for 0,
      the decimal value when some set bit has no member, otherwise the
      member names in ascending order separated by `|` (no name contains
      `", "`, so the replacement only rewrites the separators). */
  function FlagsText(flags: u32): (s: string)
    ensures flags == 0 ==> s == NoneName
  {
    StripConserves(flags, Declared);
    var (rest, taken) := Strip(flags, Declared);
    if rest != 0 then Numeric.Decimal(flags)
    else if flags == 0 then NoneName
    else Text.Join(Names(taken), '|')
  }

  /** Parsing the text back: member names separated by `|`, the zero
      member's name, or a decimal number. */
  function ParseNames(parts: seq<string>): (r: Option<seq<Flag>>)
    ensures r.Some? ==> |r.value| == |parts|
  {
    if |parts| == 0 then Some([])
    else
      var f :- FlagNamed(parts[0]);
      var fs :- ParseNames(parts[1..]);
      Some([f] + fs)
  }

  function ParseFlags(s: string): Option<nat> {
    match ParseNames(Text.Split(s, '|'))
    case Some(fs) => Some(Total(fs))
    case None =>
      if s == NoneName then Some(0)
      else if |s| > 0 && Numeric.AllDigits(s) then Some(Numeric.DigitsValue(s))
      else None
  }

  lemma {:induction false} ParseNamesOfNames(fs: seq<Flag>)
    ensures ParseNames(Names(fs)) == Some(fs)
    decreases fs
  {
    if |fs| > 0 {
      FlagNamedName(fs[0]);
      assert Names(fs)[1..] == Names(fs[1..]);
      ParseNamesOfNames(fs[1..]);
      assert [fs[0]] + fs[1..] == fs;
    }
  }

  /** A value with a bit no member names prints as its decimal number. */
  lemma DecimalTextRoundTrip(flags: u32)
    ensures ParseFlags(Numeric.Decimal(flags)) == Some(flags)
  {
    var d := Numeric.Decimal(flags);
    assert Numeric.IsDigit(d[0]);
    forall i | 0 <= i < |d| ensures d[i] != '|' {
      assert Numeric.IsDigit(d[i]);
    }
    Text.SplitNoSeparator(d, '|');
    if FlagNamed(d).Some? {
      NameStartsUpper(FlagNamed(d).value);
    }
    assert ParseNames([d]).None?;
    Numeric.DecimalRoundTrip(flags);
  }

  /** Member names joined by `|` parse back to the members. */
  lemma NamesTextRoundTrip(fs: seq<Flag>)
    requires |fs| > 0
    ensures ParseFlags(Text.Join(Names(fs), '|')) == Some(Total(fs))
  {
    var ns := Names(fs);
    forall i | 0 <= i < |ns| ensures '|' !in ns[i] {
      NameHasNoBar(fs[i]);
    }
    Text.SplitJoin(ns, '|');
    ParseNamesOfNames(fs);
  }

  /** The zero member's name parses back to zero. */
  lemma NoneTextRoundTrip()
    ensures ParseFlags(NoneName) == Some(0)
  {
    Text.SplitNoSeparator(NoneName, '|');
    assert FlagNamed(NoneName).None?;
  }

  /** The flags text determines the flags: every value prints to a text
      that parses back to it, so no two values print alike. */
  lemma FlagsTextRoundTrip(flags: u32)
    ensures ParseFlags(FlagsText(flags)) == Some(flags)
  {
    StripConserves(flags, Declared);
    if Strip(flags, Declared).0 != 0 {
      UnnamedBitsRoundTrip(flags);
    } else if flags != 0 {
      NamedBitsRoundTrip(flags);
    } else {
      NoneTextRoundTrip();
    }
  }

  lemma UnnamedBitsRoundTrip(flags: u32)
    requires Strip(flags, Declared).0 != 0
    ensures ParseFlags(FlagsText(flags)) == Some(flags)
  {
    assert FlagsText(flags) == Numeric.Decimal(flags);
    DecimalTextRoundTrip(flags);
  }

  lemma NamedBitsRoundTrip(flags: u32)
    requires Strip(flags, Declared).0 == 0 && flags != 0
    ensures ParseFlags(FlagsText(flags)) == Some(flags)
  {
    StripConserves(flags, Declared);
    var taken := Strip(flags, Declared).1;
    assert FlagsText(flags) == Text.Join(Names(taken), '|');
    NamesTextRoundTrip(taken);
  }

  /** No member is called like the zero member. */
  lemma NameNotNone(f: Flag)
    ensures Name(f) != NoneName
  {
    assert |Name(f)| != |NoneName|;
  }

  /** A name lists exactly its own member. */
  lemma NamesList(fs: seq<Flag>, f: Flag)
    ensures Name(f) in Names(fs) <==> f in fs
  {
    if Name(f) in Names(fs) {
      var i :| 0 <= i < |fs| && Names(fs)[i] == Name(f);
      FlagNamedName(f);
      FlagNamedName(fs[i]);
    }
    if f in fs {
      var i :| 0 <= i < |fs| && fs[i] == f;
      assert Names(fs)[i] == Name(f);
    }
  }

  /** When every set bit has a member, the text lists a member's name
      exactly when its bit is set. */
  lemma MemberShown(flags: u32, f: Flag)
    requires Strip(flags, Declared).0 == 0
    ensures Name(f) in Text.Split(FlagsText(flags), '|') <==> UnrealPackages.HasBit(flags, Bit(f))
  {
    StripConserves(flags, Declared);
    StripTakesSetBits(flags, f);
    var taken := Strip(flags, Declared).1;
    if flags == 0 {
      assert |taken| == 0;
      Text.SplitNoSeparator(NoneName, '|');
      NameNotNone(f);
    } else {
      var ns := Names(taken);
      assert FlagsText(flags) == Text.Join(ns, '|');
      forall i | 0 <= i < |ns| ensures '|' !in ns[i] {
        NameHasNoBar(taken[i]);
      }
      Text.SplitJoin(ns, '|');
      NamesList(taken, f);
    }
  }

  /** The probe's fields. `Group` is a reference that stays null unless
      its read completes; the other fields start at zero. */
  datatype Info = Info(
    signature: u32,
    version: u16,
    licenseeVersion: u16,
    headerSize: u32,
    group: Option<seq<u16>>,
    flags: u32)

  const Unread: Info := Info(0, 0, 0, 0, None, 0)

  /** `IsValid`. */
  predicate IsValid(p: Info) {
    p.signature == ValidSignature
  }

  /** `IsDebug`: the `Debug` member's bit is set. */
  predicate IsDebug(p: Info) {
    UnrealPackages.HasBit(p.flags, Bit(Debug))
  }

  /** When every set bit is named, the text shows `Debug` exactly for a
      debug package. */
  lemma DebugShown(p: Info)
    requires Strip(p.flags, Declared).0 == 0
    ensures IsDebug(p) <==> Name(Debug) in Text.Split(FlagsText(p.flags), '|')
  {
    MemberShown(p.flags, Debug);
  }

  /** The constructor: the signature, then, only when it is valid, the
      version, licensee version, header size, group and flags in that
      order. A failed read ends the probe and leaves the rest unread,
      because the constructor swallows the exception. */
  function Probe(data: seq<byte>): (p: Info)
    ensures |data| < 4 ==> p == Unread
    ensures |data| >= 4 ==> p.signature == U32(data, Start).value.0
    ensures !IsValid(p) ==> p == Unread.(signature := p.signature)
    ensures p.flags != 0 ==> p.group.Some?
  {
    match U32(data, Start)
    case Err(_) => Unread
    case Ok((signature, c)) =>
      var p := Unread.(signature := signature);
      if signature != ValidSignature then p else ProbeFields(data, c, p)
  }

  /** The reads guarded by a valid signature, each field assigned as soon
      as it is read. */
  function ProbeFields(data: seq<byte>, c: Cursor, p: Info): (q: Info)
    requires p.group.None? && p.flags == 0
    ensures q.signature == p.signature
    ensures q.flags != 0 ==> q.group.Some?
  {
    match U16(data, c)
    case Err(_) => p
    case Ok((version, c1)) =>
      var p := p.(version := version);
      match U16(data, c1)
      case Err(_) => p
      case Ok((licenseeVersion, c2)) =>
        var p := p.(licenseeVersion := licenseeVersion);
        match U32(data, c2)
        case Err(_) => p
        case Ok((headerSize, c3)) =>
          var p := p.(headerSize := headerSize);
          match ReadFString(data, c3)
          case Err(_) => p
          case Ok((group, c4)) =>
            var p := p.(group := Some(group));
            match U32(data, c4)
            case Err(_) => p
            case Ok((flags, _)) => p.(flags := flags)
  }

  /** The bytes of a header prefix holding the given fields. */
  function EncodeProbed(version: u16, licenseeVersion: u16, headerSize: u32, group: seq<u16>, wide: bool, flags: u32)
    : (bs: seq<byte>)
    requires wide || Narrow(group)
    requires |group| < IntMax
  {
    EncodeU32(ValidSignature) + EncodeFields(version, licenseeVersion, headerSize, group, wide, flags)
  }

  /** The bytes of the fields after the signature. */
  function EncodeFields(version: u16, licenseeVersion: u16, headerSize: u32, group: seq<u16>, wide: bool, flags: u32)
    : (bs: seq<byte>)
    requires wide || Narrow(group)
    requires |group| < IntMax
  {
    EncodeU16(version) + (EncodeU16(licenseeVersion) + (EncodeU32(headerSize)
      + (EncodeFString(group, wide) + EncodeU32(flags))))
  }

  /** The fields after a valid signature are read back as encoded. */
  lemma ProbeFieldsRoundTrip(
    data: seq<byte>, c: Cursor, p: Info,
    version: u16, licenseeVersion: u16, headerSize: u32, group: seq<u16>, wide: bool, flags: u32)
    requires p.group.None? && p.flags == 0
    requires wide || Narrow(group)
    requires 0 !in group && |group| < IntMax
    requires At(data, c.pos, EncodeFields(version, licenseeVersion, headerSize, group, wide, flags))
    ensures ProbeFields(data, c, p) ==
      p.(version := version, licenseeVersion := licenseeVersion, headerSize := headerSize,
         group := Some(group), flags := flags)
  {
    var b := EncodeU16(version);
    var d := EncodeU16(licenseeVersion);
    var e := EncodeU32(headerSize);
    var g := EncodeFString(group, wide);
    var f := EncodeU32(flags);
    AtSplit(data, c.pos, b, d + (e + (g + f)));
    U16RoundTrip(data, c, version);
    var c1 := Advance(c, 2);
    AtSplit(data, c1.pos, d, e + (g + f));
    U16RoundTrip(data, c1, licenseeVersion);
    var c2 := Advance(c1, 2);
    AtSplit(data, c2.pos, e, g + f);
    U32RoundTrip(data, c2, headerSize);
    var c3 := Advance(c2, 4);
    AtSplit(data, c3.pos, g, f);
    FStringRoundTrip(data, c3, group, wide);
    var c4 := Advance(c3, |g|);
    U32RoundTrip(data, c4, flags);
  }

  /** A complete header prefix is read back field for field, whatever
      follows it. */
  lemma ProbeRoundTrip(data: seq<byte>, version: u16, licenseeVersion: u16, headerSize: u32, group: seq<u16>, wide: bool, flags: u32)
    requires wide || Narrow(group)
    requires 0 !in group && |group| < IntMax
    requires At(data, 0, EncodeProbed(version, licenseeVersion, headerSize, group, wide, flags))
    ensures Probe(data) == Info(ValidSignature, version, licenseeVersion, headerSize, Some(group), flags)
  {
    AtSplit(data, 0, EncodeU32(ValidSignature), EncodeFields(version, licenseeVersion, headerSize, group, wide, flags));
    U32RoundTrip(data, Start, ValidSignature);
    ProbeFieldsRoundTrip(data, Advance(Start, 4), Unread.(signature := ValidSignature),
      version, licenseeVersion, headerSize, group, wide, flags);
  }

  /** A file holding only a valid signature probes as valid with every
      other field at its default. */
  lemma ProbeSignatureOnly(data: seq<byte>)
    requires data == EncodeU32(ValidSignature)
    ensures Probe(data) == Unread.(signature := ValidSignature)
  {
    U32RoundTrip(data, Start, ValidSignature);
  }

  /** ASCII text as UTF-16 code units. */
  function Units(s: string): (us: seq<u16>)
    requires Encoding.IsAscii(s)
    ensures |us| == |s|
    ensures forall i :: 0 <= i < |s| ==> us[i] == s[i] as int
  {
    seq(|s|, i requires 0 <= i < |s| => s[i] as int)
  }

  lemma AsciiConcat(a: string, b: string)
    requires Encoding.IsAscii(a) && Encoding.IsAscii(b)
    ensures Encoding.IsAscii(a + b)
  {
    assert forall i :: 0 <= i < |a + b| ==> (a + b)[i] == if i < |a| then a[i] else b[i - |a|];
  }

  lemma DecimalAscii(n: nat)
    ensures Encoding.IsAscii(Numeric.Decimal(n))
  {
    var d := Numeric.Decimal(n);
    forall i | 0 <= i < |d| ensures (d[i] as int) < 0x80 {
      assert Numeric.IsDigit(d[i]);
    }
  }

  lemma NameAscii(f: Flag)
    ensures Encoding.IsAscii(Name(f))
  {
    if Bit(f) <= 15 {
      LowNameAscii(f);
    } else {
      HighNameAscii(f);
    }
  }

  lemma LowNameAscii(f: Flag)
    requires Bit(f) <= 15
    ensures Encoding.IsAscii(Name(f))
  {
  }

  lemma HighNameAscii(f: Flag)
    requires Bit(f) > 15
    ensures Encoding.IsAscii(Name(f))
  {
  }

  lemma {:induction false} JoinNamesAscii(fs: seq<Flag>)
    requires |fs| > 0
    ensures Encoding.IsAscii(Text.Join(Names(fs), '|'))
    decreases |fs|
  {
    NameAscii(fs[0]);
    if |fs| > 1 {
      assert Names(fs)[1..] == Names(fs[1..]);
      JoinNamesAscii(fs[1..]);
      AsciiConcat(Name(fs[0]), "|");
      AsciiConcat(Name(fs[0]) + "|", Text.Join(Names(fs[1..]), '|'));
    }
  }

  lemma FlagsTextAscii(flags: u32)
    ensures Encoding.IsAscii(FlagsText(flags))
  {
    StripConserves(flags, Declared);
    var (rest, taken) := Strip(flags, Declared);
    if rest != 0 {
      DecimalAscii(flags);
      assert FlagsText(flags) == Numeric.Decimal(flags);
    } else if flags != 0 {
      JoinNamesAscii(taken);
      assert FlagsText(flags) == Text.Join(Names(taken), '|');
    } else {
      LabelsAscii();
    }
  }

  const VersionLabel: string := "Version="
  const GroupLabel: string := ", Group="
  const FlagsLabel: string := ", Flags="
  const InvalidText: string := "(Invalid Package)"

  lemma LabelsAscii()
    ensures Encoding.IsAscii(VersionLabel) && Encoding.IsAscii("/")
    ensures Encoding.IsAscii(GroupLabel) && Encoding.IsAscii(FlagsLabel)
    ensures Encoding.IsAscii(InvalidText) && Encoding.IsAscii(NoneName)
  {
  }

  /** The text before the group: `Version=<v>/<l>, Group=`. */
  function Heading(p: Info): (s: string)
    ensures Encoding.IsAscii(s)
    ensures |s| > 0 && s[0] == 'V'
  {
    LabelsAscii();
    DecimalAscii(p.version);
    DecimalAscii(p.licenseeVersion);
    var v := VersionLabel + Numeric.Decimal(p.version);
    assert v[0] == 'V';
    AsciiConcat(VersionLabel, Numeric.Decimal(p.version));
    AsciiConcat(v, "/");
    AsciiConcat(v + "/", Numeric.Decimal(p.licenseeVersion));
    AsciiConcat(v + "/" + Numeric.Decimal(p.licenseeVersion), GroupLabel);
    v + "/" + Numeric.Decimal(p.licenseeVersion) + GroupLabel
  }

  /** The text after the group: `, Flags=<flags>`. */
  function Trailer(p: Info): (s: string)
    ensures Encoding.IsAscii(s)
  {
    LabelsAscii();
    FlagsTextAscii(p.flags);
    AsciiConcat(FlagsLabel, FlagsText(p.flags));
    FlagsLabel + FlagsText(p.flags)
  }

  /** `ToString`: a fixed text for an invalid package; otherwise the
      versions, the group (empty while it is null) and the flags text. */
  function ToString(p: Info): (s: seq<u16>) {
    if !IsValid(p) then Units(InvalidText)
    else Units(Heading(p)) + p.group.GetOr([]) + Units(Trailer(p))
  }

  /** The fixed text appears exactly for invalid packages: a valid one's
      text starts with `V`, not `(`. */
  lemma InvalidTextIffInvalid(p: Info)
    ensures ToString(p) == Units(InvalidText) <==> !IsValid(p)
  {
    LabelsAscii();
    if IsValid(p) {
      ValidTextStart(p);
      assert Units(InvalidText)[0] == '(' as int;
    }
  }

  /** A valid package's text starts with the version label. */
  lemma ValidTextStart(p: Info)
    requires IsValid(p)
    ensures |ToString(p)| > 0 && ToString(p)[0] == 'V' as int
  {
    var head := Units(Heading(p));
    assert head[0] == 'V' as int;
    assert ToString(p) == head + (p.group.GetOr([]) + Units(Trailer(p)));
  }

  /** Two valid packages that agree on everything the text shows before
      the flags print alike only if their flags are equal. */
  lemma ToStringShowsFlags(p: Info, q: Info)
    requires IsValid(p) && IsValid(q)
    requires p.version == q.version && p.licenseeVersion == q.licenseeVersion && p.group == q.group
    requires ToString(p) == ToString(q)
    ensures p.flags == q.flags
  {
    var head := Units(Heading(p)) + p.group.GetOr([]);
    assert Heading(p) == Heading(q);
    var a := Units(Trailer(p));
    var b := Units(Trailer(q));
    assert head + a == head + b;
    assert a == (head + a)[|head|..];
    assert b == (head + b)[|head|..];
    assert Trailer(p) == Trailer(q) by {
      assert |Trailer(p)| == |Trailer(q)|;
      forall i | 0 <= i < |Trailer(p)| ensures Trailer(p)[i] == Trailer(q)[i] {
        assert a[i] == b[i];
      }
    }
    var n := |FlagsLabel|;
    assert FlagsText(p.flags) == Trailer(p)[n..];
    assert FlagsText(q.flags) == Trailer(q)[n..];
    FlagsTextRoundTrip(p.flags);
    FlagsTextRoundTrip(q.flags);
  }

  /** A probe that stopped right after a valid signature still prints as a
      valid package, with default fields and an empty group. */
  lemma SignatureOnlyText()
    ensures ToString(Unread.(signature := ValidSignature)) ==
      Units("Version=0/0, Group=") + Units(", Flags=None")
  {
    var p := Unread.(signature := ValidSignature);
    assert Numeric.Decimal(0) == "0";
    assert Heading(p) == "Version=0/0, Group=";
    assert Trailer(p) == ", Flags=None";
  }
}
