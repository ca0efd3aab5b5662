/** `PackageReader`: the package header with its three offset-addressed
    tables and the reference-resolution pass, and the compressed-chunk
    framing around an opaque block decompressor. */
module PackageReader {
  import opened Wrappers
  import opened Numeric
  import opened UnrealPackages
  import opened BinaryData

  // ---------------------------------------------------------------------
  // Reference bookkeeping

  /** The raw references a record contributes to the reader's list, in the
      order its fields are read. */
  function ExportRaws(x: PackageExport): seq<i32> {
    [x.typ.raw, x.parentClass.raw, x.owner.raw, x.archetype.raw]
  }

  function ImportRaws(x: PackageImport): seq<i32> {
    [x.owner.raw]
  }

  /** Records without reference fields. */
  function NoRaws<T>(x: T): seq<i32> {
    []
  }

  /** The references of a whole table, record after record. */
  function Flatten<T>(xs: seq<T>, g: T -> seq<i32>): seq<i32> {
    if |xs| == 0 then [] else g(xs[0]) + Flatten(xs[1..], g)
  }

  /** `f` leaves the stack as it found it and appends `g` of what it read to
      the reference list. */
  ghost predicate AppendsRefs<T>(f: Cursor -> Result<(T, Cursor)>, g: T -> seq<i32>) {
    forall d :: f(d).Ok? ==> f(d).value.1.refs == d.refs + g(f(d).value.0) && f(d).value.1.stack == d.stack
  }

  lemma {:induction false} RepeatAppendsRefs<T>(c: Cursor, n: nat, f: Cursor -> Result<(T, Cursor)>, g: T -> seq<i32>)
    requires AppendsRefs(f, g) && Repeat(c, n, f).Ok?
    ensures Repeat(c, n, f).value.1.refs == c.refs + Flatten(Repeat(c, n, f).value.0, g)
    ensures Repeat(c, n, f).value.1.stack == c.stack
    decreases n
  {
    if n > 0 {
      var (x, c1) := f(c).value;
      var (xs, c2) := Repeat(c1, n - 1, f).value;
      RepeatAppendsRefs(c1, n - 1, f, g);
      assert Repeat(c, n, f).value.0 == [x] + xs;
      assert ([x] + xs)[1..] == xs;
    }
  }

  lemma {:induction false} FlattenMember<T>(xs: seq<T>, g: T -> seq<i32>, i: nat, raw: i32)
    requires i < |xs| && raw in g(xs[i])
    ensures raw in Flatten(xs, g)
    decreases i
  {
    if i > 0 {
      FlattenMember(xs[1..], g, i - 1, raw);
    }
  }

  lemma {:induction false} FlattenEmpty<T>(xs: seq<T>, g: T -> seq<i32>)
    requires forall x :: g(x) == []
    ensures Flatten(xs, g) == []
  {
    if |xs| > 0 {
      FlattenEmpty(xs[1..], g);
    }
  }

  // ---------------------------------------------------------------------
  // Records

  /** A name-table entry: an FString and a plain little-endian u64. */
  function ReadGlobalName(data: seq<byte>, c: Cursor): (r: Result<(GlobalName, Cursor)>)
    ensures r.Ok? ==> r.value.1.pos > c.pos + 12
    ensures r.Ok? ==> r.value.1.refs == c.refs && r.value.1.stack == c.stack
    ensures r.Ok? ==> FString(data, c).Ok? && r.value.0.name == FString(data, c).value.0
  {
    var (name, c1) :- FString(data, c);
    var (flags, c2) :- U64(data, c1);
    Ok((GlobalName(name, flags), c2))
  }

  /** The names loop: `count` entries in file order (a plain loop, so no
      int.MaxValue check). */
  function ReadNames(data: seq<byte>, c: Cursor, count: nat): (r: Result<(seq<GlobalName>, Cursor)>)
    ensures r.Ok? ==> |r.value.0| == count
    ensures r.Ok? ==> r.value.1.refs == c.refs && r.value.1.stack == c.stack
    decreases count
  {
    if count == 0 then Ok(([], c))
    else
      var (n, c1) :- ReadGlobalName(data, c);
      var (ns, c2) :- ReadNames(data, c1, count - 1);
      Ok(([n] + ns, c2))
  }

  /** The stored form of a name entry with ASCII text. */
  function EncodeGlobalName(n: GlobalName): (bs: seq<byte>)
    requires Encoding.IsAscii(n.name) && |n.name| < IntMax
  {
    EncodeFStringAscii(n.name) + EncodeU64(n.flags)
  }

  predicate Storable(names: seq<GlobalName>) {
    forall i :: 0 <= i < |names| ==> Encoding.IsAscii(names[i].name) && |names[i].name| < IntMax
  }

  function EncodeNames(names: seq<GlobalName>): (bs: seq<byte>)
    requires Storable(names)
  {
    if |names| == 0 then [] else EncodeGlobalName(names[0]) + EncodeNames(names[1..])
  }

  lemma GlobalNameRoundTrip(data: seq<byte>, c: Cursor, n: GlobalName)
    requires Encoding.IsAscii(n.name) && |n.name| < IntMax
    requires At(data, c.pos, EncodeGlobalName(n))
    ensures ReadGlobalName(data, c) == Ok((n, Advance(c, |EncodeGlobalName(n)|)))
  {
    AtSplit(data, c.pos, EncodeFStringAscii(n.name), EncodeU64(n.flags));
    FStringAsciiRoundTrip(data, c, n.name);
    U64RoundTrip(data, Advance(c, |EncodeFStringAscii(n.name)|), n.flags);
  }

  /** A stored name table reads back entry for entry. */
  lemma {:induction false} NamesRoundTrip(data: seq<byte>, c: Cursor, names: seq<GlobalName>)
    requires Storable(names) && At(data, c.pos, EncodeNames(names))
    ensures ReadNames(data, c, |names|) == Ok((names, Advance(c, |EncodeNames(names)|)))
    decreases |names|
  {
    if |names| > 0 {
      var first := EncodeGlobalName(names[0]);
      var rest := EncodeNames(names[1..]);
      assert EncodeNames(names) == first + rest;
      var c1 := Advance(c, |first|);
      AtSplit(data, c.pos, first, rest);
      GlobalNameRoundTrip(data, c, names[0]);
      assert ReadGlobalName(data, c) == Ok((names[0], c1));
      NamesRoundTrip(data, c1, names[1..]);
      assert ReadNames(data, c1, |names| - 1) == Ok((names[1..], Advance(c1, |rest|)));
      assert Advance(c1, |rest|) == Advance(c, |EncodeNames(names)|);
      assert [names[0]] + names[1..] == names;
    }
  }

  /** A name field as stored: an index into the name table and an instance
      suffix. */
  datatype NameRef = NameRef(index: u32, suffix: u32)

  function EncodeNameRef(n: NameRef): (bs: seq<byte>)
    ensures |bs| == 8
  {
    EncodeU32(n.index) + EncodeU32(n.suffix)
  }

  /** The text a stored name field reads as. */
  function NameOf(names: seq<GlobalName>, n: NameRef): string
    requires n.index < |names|
  {
    Suffixed(names[n.index].name, n.suffix)
  }

  /** The reference and name fields an export begins with. */
  datatype ExportHead = ExportHead(
    typ: ObjectReference, parentClass: ObjectReference, owner: ObjectReference,
    name: string, archetype: ObjectReference)

  function HeadRaws(x: ExportHead): seq<i32> {
    [x.typ.raw, x.parentClass.raw, x.owner.raw, x.archetype.raw]
  }

  /** Type, parent class, owner, name, archetype: 24 bytes. */
  function ReadExportHead(data: seq<byte>, c: Cursor, names: seq<GlobalName>): (r: Result<(ExportHead, Cursor)>)
    ensures r.Ok? <==> c.pos + 24 <= |data| && U32(data, Advance(c, 12)).value.0 < |names|
    ensures r.Ok? ==> r.value.1 == Cursor(c.pos + 24, c.refs + HeadRaws(r.value.0), c.stack)
    ensures r.Ok? ==> r.value.0.typ.to.None? && r.value.0.parentClass.to.None?
    ensures r.Ok? ==> r.value.0.owner.to.None? && r.value.0.archetype.to.None?
  {
    var (typ, c1) :- Ref(data, c);
    var (parentClass, c2) :- Ref(data, c1);
    var (owner, c3) :- Ref(data, c2);
    var (name, c4) :- Name(data, c3, names);
    var (archetype, c5) :- Ref(data, c4);
    Ok((ExportHead(typ, parentClass, owner, name, archetype), c5))
  }

  /** The head's fields are the words at offsets 0, 4, 8 and 20 and the
      name at offset 12. */
  lemma ExportHeadFields(data: seq<byte>, c: Cursor, names: seq<GlobalName>)
    requires ReadExportHead(data, c, names).Ok?
    ensures var h := ReadExportHead(data, c, names).value.0;
      && h.typ.raw == I32(data, c).value.0
      && h.parentClass.raw == I32(data, Advance(c, 4)).value.0
      && h.owner.raw == I32(data, Advance(c, 8)).value.0
      && h.name == Name(data, Advance(c, 12), names).value.0
      && h.archetype.raw == I32(data, Advance(c, 20)).value.0
  {
  }

  function EncodeExportHead(h: ExportHead, n: NameRef): (bs: seq<byte>)
    ensures |bs| == 24
  {
    EncodeI32(h.typ.raw) + EncodeI32(h.parentClass.raw) + EncodeI32(h.owner.raw) + EncodeNameRef(n)
      + EncodeI32(h.archetype.raw)
  }

  /** A stored head reads back field for field, its references recorded
      in order. */
  lemma ExportHeadRoundTrip(data: seq<byte>, c: Cursor, names: seq<GlobalName>, h: ExportHead, n: NameRef)
    requires n.index < |names| && h.name == NameOf(names, n)
    requires h.typ.to.None? && h.parentClass.to.None? && h.owner.to.None? && h.archetype.to.None?
    requires At(data, c.pos, EncodeExportHead(h, n))
    ensures ReadExportHead(data, c, names) == Ok((h, Cursor(c.pos + 24, c.refs + HeadRaws(h), c.stack)))
  {
    var a, b, d := EncodeI32(h.typ.raw), EncodeI32(h.parentClass.raw), EncodeI32(h.owner.raw);
    AtSplit(data, c.pos, a + b + d + EncodeNameRef(n), EncodeI32(h.archetype.raw));
    AtSplit(data, c.pos, a + b + d, EncodeNameRef(n));
    AtSplit(data, c.pos, a + b, d);
    AtSplit(data, c.pos, a, b);
    var c1 := Cursor(c.pos + 4, c.refs + [h.typ.raw], c.stack);
    var c2 := Cursor(c.pos + 8, c1.refs + [h.parentClass.raw], c.stack);
    var c3 := Cursor(c.pos + 12, c2.refs + [h.owner.raw], c.stack);
    RefRoundTrip(data, c, h.typ);
    RefRoundTrip(data, c1, h.parentClass);
    RefRoundTrip(data, c2, h.owner);
    NameRoundTrip(data, c3, names, n.index, n.suffix);
    RefRoundTrip(data, Advance(c3, 8), h.archetype);
  }

  /** The fixed-width fields after the head. */
  datatype ExportFixed = ExportFixed(
    objectFlags: u64, serializedDataSize: u32, serializedDataOffset: u32,
    exportFlags: u32, netObjectCount: u32, guid: seq<byte>, unknown: u32)

  /** Object flags (high word first), three words, the pushed net object
      count, the GUID and one more word: 44 bytes. */
  function ReadExportFixed(data: seq<byte>, c: Cursor): (r: Result<(ExportFixed, Cursor)>)
    ensures r.Ok? <==> c.pos + 44 <= |data|
    ensures r.Ok? ==> r.value.1 == Cursor(c.pos + 44, c.refs, c.stack + [r.value.0.netObjectCount])
    ensures r.Ok? ==> r.value.0.objectFlags == U64HL(data, c).value.0
    ensures r.Ok? ==> |r.value.0.guid| == 16
  {
    var (objectFlags, c1) :- U64HL(data, c);
    var (size, c2) :- U32(data, c1);
    var (offset, c3) :- U32(data, c2);
    var (exportFlags, c4) :- U32(data, c3);
    var (count, c5) :- U32(data, c4);
    var (netObjectCount, c6) := Push(c5, count);
    var (guid, c7) :- FGuid(data, c6);
    var (unknown, c8) :- U32(data, c7);
    Ok((ExportFixed(objectFlags, size, offset, exportFlags, netObjectCount, guid, unknown), c8))
  }

  /** The fixed fields are the object flags at offset 0, the words at
      offsets 8, 12, 16, 20 and 40, and the sixteen bytes at offset 24. */
  lemma ExportFixedFields(data: seq<byte>, c: Cursor)
    requires ReadExportFixed(data, c).Ok?
    ensures var f := ReadExportFixed(data, c).value.0;
      && f.objectFlags == U64HL(data, c).value.0
      && f.serializedDataSize == U32(data, Advance(c, 8)).value.0
      && f.serializedDataOffset == U32(data, Advance(c, 12)).value.0
      && f.exportFlags == U32(data, Advance(c, 16)).value.0
      && f.netObjectCount == U32(data, Advance(c, 20)).value.0
      && At(data, c.pos + 24, f.guid)
      && f.unknown == U32(data, Advance(c, 40)).value.0
  {
  }

  function EncodeExportFixed(f: ExportFixed): (bs: seq<byte>)
    ensures |bs| == 28 + |f.guid|
  {
    EncodeWords(f) + f.guid + EncodeU32(f.unknown)
  }

  /** The object flags and the four words before the GUID. */
  function EncodeWords(f: ExportFixed): (bs: seq<byte>)
    ensures |bs| == 24
  {
    EncodeU64HL(f.objectFlags) + EncodeU32(f.serializedDataSize) + EncodeU32(f.serializedDataOffset)
      + EncodeU32(f.exportFlags) + EncodeU32(f.netObjectCount)
  }

  /** The stored fixed fields read back, the net object count pushed. */
  lemma ExportFixedRoundTrip(data: seq<byte>, c: Cursor, f: ExportFixed)
    requires |f.guid| == 16 && At(data, c.pos, EncodeExportFixed(f))
    ensures ReadExportFixed(data, c) == Ok((f, Cursor(c.pos + 44, c.refs, c.stack + [f.netObjectCount])))
  {
    AtSplit(data, c.pos, EncodeWords(f) + f.guid, EncodeU32(f.unknown));
    AtSplit(data, c.pos, EncodeWords(f), f.guid);
    WordsRoundTrip(data, c, f);
    FGuidRoundTrip(data, Advance(c, 24), f.guid);
    U32RoundTrip(data, Advance(c, 40), f.unknown);
  }

  lemma WordsRoundTrip(data: seq<byte>, c: Cursor, f: ExportFixed)
    requires At(data, c.pos, EncodeWords(f))
    ensures U64HL(data, c) == Ok((f.objectFlags, Advance(c, 8)))
    ensures U32(data, Advance(c, 8)) == Ok((f.serializedDataSize, Advance(c, 12)))
    ensures U32(data, Advance(c, 12)) == Ok((f.serializedDataOffset, Advance(c, 16)))
    ensures U32(data, Advance(c, 16)) == Ok((f.exportFlags, Advance(c, 20)))
    ensures U32(data, Advance(c, 20)) == Ok((f.netObjectCount, Advance(c, 24)))
  {
    var a, b, d, e := EncodeU64HL(f.objectFlags), EncodeU32(f.serializedDataSize),
                      EncodeU32(f.serializedDataOffset), EncodeU32(f.exportFlags);
    AtSplit(data, c.pos, a + b + d + e, EncodeU32(f.netObjectCount));
    AtSplit(data, c.pos, a + b + d, e);
    AtSplit(data, c.pos, a + b, d);
    AtSplit(data, c.pos, a, b);
    U64HLRoundTrip(data, c, f.objectFlags);
    U32RoundTrip(data, Advance(c, 8), f.serializedDataSize);
    U32RoundTrip(data, Advance(c, 12), f.serializedDataOffset);
    U32RoundTrip(data, Advance(c, 16), f.exportFlags);
    U32RoundTrip(data, Advance(c, 20), f.netObjectCount);
  }

  /** The export assembled from its three stored parts. */
  function Assemble(head: ExportHead, fixed: ExportFixed, netUnknown: seq<u32>): PackageExport {
    PackageExport(head.typ, head.parentClass, head.owner, head.name, head.archetype,
                  fixed.objectFlags, fixed.serializedDataSize, fixed.serializedDataOffset,
                  fixed.exportFlags, fixed.netObjectCount, fixed.guid, fixed.unknown, netUnknown)
  }

  function HeadOf(x: PackageExport): ExportHead {
    ExportHead(x.typ, x.parentClass, x.owner, x.name, x.archetype)
  }

  function FixedOf(x: PackageExport): ExportFixed {
    ExportFixed(x.objectFlags, x.serializedDataSize, x.serializedDataOffset, x.exportFlags,
                x.netObjectCount, x.guid, x.unknown)
  }

  /** An export record; `NetObjectCount` is pushed and popped again to size
      the trailing word array. */
  function ReadExport(data: seq<byte>, c: Cursor, names: seq<GlobalName>): (r: Result<(PackageExport, Cursor)>)
    ensures r.Ok? ==> |r.value.0.netUnknown| == r.value.0.netObjectCount
    ensures r.Ok? ==> r.value.1.pos == c.pos + 68 + 4 * r.value.0.netObjectCount
    ensures r.Ok? ==> r.value.1.refs == c.refs + ExportRaws(r.value.0) && r.value.1.stack == c.stack
    ensures r.Ok? ==> |r.value.0.guid| == 16
    ensures r.Ok? ==> r.value.0.typ.to.None? && r.value.0.parentClass.to.None?
    ensures r.Ok? ==> r.value.0.owner.to.None? && r.value.0.archetype.to.None?
  {
    var (head, c1) :- ReadExportHead(data, c, names);
    var (fixed, c2) :- ReadExportFixed(data, c1);
    var (netUnknown, c4) :- ReadNetUnknown(data, c2);
    var x := Assemble(head, fixed, netUnknown);
    assert ExportRaws(x) == HeadRaws(head);
    Ok((x, c4))
  }

  /** An export is the head at its start, the fixed fields 24 bytes on,
      and as many words after byte 68 as the net object count says. */
  lemma ExportFields(data: seq<byte>, c: Cursor, names: seq<GlobalName>)
    requires ReadExport(data, c, names).Ok?
    ensures ReadExportHead(data, c, names).Ok? && ReadExportFixed(data, Advance(c, 24)).Ok?
    ensures var x := ReadExport(data, c, names).value.0;
      && HeadOf(x) == ReadExportHead(data, c, names).value.0
      && FixedOf(x) == ReadExportFixed(data, Advance(c, 24)).value.0
      && (|x.netUnknown| > 0 ==> c.pos + 68 + 4 * |x.netUnknown| <= |data|)
      && forall i :: 0 <= i < |x.netUnknown| ==> x.netUnknown[i] == U32(data, Advance(c, 68 + 4 * i)).value.0
  {
    var (head, c1) := ReadExportHead(data, c, names).value;
    var (fixed, c2) := ReadExportFixed(data, c1).value;
    var netUnknown := ReadNetUnknown(data, c2).value.0;
    NetUnknownWords(data, c2);
    FixedAtSamePosition(data, c1, Advance(c, 24));
    NetWordsAt(data, c, c2, netUnknown);
  }

  /** The fixed fields depend on where they are read, not on the
      references and stack the cursor carries. */
  lemma FixedAtSamePosition(data: seq<byte>, c: Cursor, d: Cursor)
    requires c.pos == d.pos && ReadExportFixed(data, c).Ok?
    ensures ReadExportFixed(data, d).Ok? && ReadExportFixed(data, d).value.0 == ReadExportFixed(data, c).value.0
  {
    ExportFixedFields(data, c);
    ExportFixedFields(data, d);
    var f, g := ReadExportFixed(data, c).value.0, ReadExportFixed(data, d).value.0;
    assert f.guid == g.guid by {
      AtSameLength(data, c.pos + 24, f.guid, g.guid);
    }
  }

  /** Equally long byte strings stored at one position are equal. */
  lemma AtSameLength(data: seq<byte>, pos: nat, a: seq<byte>, b: seq<byte>)
    requires At(data, pos, a) && At(data, pos, b) && |a| == |b|
    ensures a == b
  {
  }

  lemma NetWordsAt(data: seq<byte>, c: Cursor, c2: Cursor, ws: seq<u32>)
    requires c2.pos == c.pos + 68 && (|ws| > 0 ==> c2.pos + 4 * |ws| <= |data|)
    requires forall i :: 0 <= i < |ws| ==> ws[i] == U32(data, Advance(c2, 4 * i)).value.0
    ensures forall i :: 0 <= i < |ws| ==> ws[i] == U32(data, Advance(c, 68 + 4 * i)).value.0
  {
  }

  /** The count pushed last is popped and sizes an array of words. */
  function ReadNetUnknown(data: seq<byte>, c: Cursor): (r: Result<(seq<u32>, Cursor)>)
    ensures r.Ok? ==> |c.stack| > 0 && |r.value.0| == c.stack[|c.stack| - 1]
    ensures r.Ok? ==> r.value.1 == Cursor(c.pos + 4 * |r.value.0|, c.refs, c.stack[..|c.stack| - 1])
  {
    var (popped, c1) :- Pop(c);
    var (netUnknown, c2) :- Array(c1, popped, WordReader(data));
    RepeatAppendsRefs(c1, popped, WordReader(data), NoRaws);
    FlattenEmpty(netUnknown, NoRaws);
    RepeatWords(data, c1, popped);
    Ok((netUnknown, c2))
  }

  /** The words are the ones stored from the cursor on, four bytes apart. */
  lemma NetUnknownWords(data: seq<byte>, c: Cursor)
    requires ReadNetUnknown(data, c).Ok?
    ensures var ws := ReadNetUnknown(data, c).value.0;
      && (|ws| > 0 ==> c.pos + 4 * |ws| <= |data|)
      && forall i :: 0 <= i < |ws| ==> ws[i] == U32(data, Advance(c, 4 * i)).value.0
  {
    var (popped, c1) := Pop(c).value;
    RepeatWords(data, c1, popped);
  }

  function WordReader(data: seq<byte>): Cursor -> Result<(u32, Cursor)> {
    d => U32(data, d)
  }

  /** An array of words takes them one after another, four bytes apart. */
  lemma {:induction false} RepeatWords(data: seq<byte>, c: Cursor, n: nat)
    requires Repeat(c, n, WordReader(data)).Ok?
    ensures Repeat(c, n, WordReader(data)).value.1.pos == c.pos + 4 * n
    ensures n > 0 ==> c.pos + 4 * n <= |data|
    ensures forall i :: 0 <= i < n ==>
      Repeat(c, n, WordReader(data)).value.0[i] == U32(data, Advance(c, 4 * i)).value.0
    decreases n
  {
    if n > 0 {
      RepeatWords(data, Advance(c, 4), n - 1);
      var ws := Repeat(c, n, WordReader(data)).value.0;
      forall i | 0 <= i < n
        ensures ws[i] == U32(data, Advance(c, 4 * i)).value.0
      {
        if i > 0 {
          assert Advance(Advance(c, 4), 4 * (i - 1)) == Advance(c, 4 * i);
        }
      }
    }
  }

  /** The stored form of an export: head, fixed fields, then the words. */
  function EncodeExport(x: PackageExport, n: NameRef): (bs: seq<byte>)
    ensures |bs| == 52 + |x.guid| + 4 * |x.netUnknown|
  {
    EncodeExportHead(HeadOf(x), n) + EncodeExportFixed(FixedOf(x)) + EncodeU32s(x.netUnknown)
  }

  /** What an export read from a file can be: unresolved references, a
      sixteen-byte GUID, as many words as the net object count says, and a
      name that is a suffixed name-table entry. */
  predicate StoredExport(x: PackageExport, n: NameRef, names: seq<GlobalName>) {
    && n.index < |names| && x.name == NameOf(names, n)
    && x.typ.to.None? && x.parentClass.to.None? && x.owner.to.None? && x.archetype.to.None?
    && |x.guid| == 16 && |x.netUnknown| == x.netObjectCount <= IntMax
  }

  /** A stored export reads back as itself, its four references recorded. */
  lemma ExportRoundTrip(data: seq<byte>, c: Cursor, names: seq<GlobalName>, x: PackageExport, n: NameRef)
    requires StoredExport(x, n, names) && At(data, c.pos, EncodeExport(x, n))
    ensures ReadExport(data, c, names)
      == Ok((x, Cursor(c.pos + 68 + 4 * |x.netUnknown|, c.refs + ExportRaws(x), c.stack)))
  {
    ExportPartsRoundTrip(data, c, names, x, n);
    AssembleParts(x);
  }

  /** Each part of a stored export reads back from where the previous one
      stopped. */
  lemma ExportPartsRoundTrip(data: seq<byte>, c: Cursor, names: seq<GlobalName>, x: PackageExport, n: NameRef)
    requires StoredExport(x, n, names) && At(data, c.pos, EncodeExport(x, n))
    ensures var c1 := Cursor(c.pos + 24, c.refs + HeadRaws(HeadOf(x)), c.stack);
      var c2 := Cursor(c.pos + 68, c1.refs, c.stack + [x.netObjectCount]);
      && ReadExportHead(data, c, names) == Ok((HeadOf(x), c1))
      && ReadExportFixed(data, c1) == Ok((FixedOf(x), c2))
      && ReadNetUnknown(data, c2) == Ok((x.netUnknown, Cursor(c.pos + 68 + 4 * |x.netUnknown|, c1.refs, c.stack)))
  {
    ExportStoredParts(data, c.pos, x, n);
    ExportHeadRoundTrip(data, c, names, HeadOf(x), n);
    StoredFixedRoundTrip(data, c.pos + 24, c.refs + HeadRaws(HeadOf(x)), c.stack, x);
    StoredWordsRoundTrip(data, c.pos + 68, c.refs + HeadRaws(HeadOf(x)), c.stack, x);
  }

  lemma StoredFixedRoundTrip(data: seq<byte>, pos: nat, refs: seq<i32>, stack: seq<u32>, x: PackageExport)
    requires |x.guid| == 16 && At(data, pos, EncodeExportFixed(FixedOf(x)))
    ensures ReadExportFixed(data, Cursor(pos, refs, stack)) == Ok((FixedOf(x), Cursor(pos + 44, refs, stack + [x.netObjectCount])))
  {
    ExportFixedRoundTrip(data, Cursor(pos, refs, stack), FixedOf(x));
  }

  lemma StoredWordsRoundTrip(data: seq<byte>, pos: nat, refs: seq<i32>, stack: seq<u32>, x: PackageExport)
    requires |x.netUnknown| == x.netObjectCount <= IntMax && At(data, pos, EncodeU32s(x.netUnknown))
    ensures ReadNetUnknown(data, Cursor(pos, refs, stack + [x.netObjectCount]))
      == Ok((x.netUnknown, Cursor(pos + 4 * |x.netUnknown|, refs, stack)))
  {
    var c := Cursor(pos, refs, stack + [x.netObjectCount]);
    assert c.stack[..|c.stack| - 1] == stack;
    NetUnknownRoundTrip(data, c, x.netUnknown);
  }

  /** An export is reassembled from its head, fixed fields and words. */
  lemma AssembleParts(x: PackageExport)
    ensures Assemble(HeadOf(x), FixedOf(x), x.netUnknown) == x
    ensures ExportRaws(x) == HeadRaws(HeadOf(x))
  {
  }

  /** Where the three parts of a stored export lie. */
  lemma ExportStoredParts(data: seq<byte>, pos: nat, x: PackageExport, n: NameRef)
    requires |x.guid| == 16 && At(data, pos, EncodeExport(x, n))
    ensures At(data, pos, EncodeExportHead(HeadOf(x), n))
    ensures At(data, pos + 24, EncodeExportFixed(FixedOf(x)))
    ensures At(data, pos + 68, EncodeU32s(x.netUnknown))
  {
    var a, b := EncodeExportHead(HeadOf(x), n), EncodeExportFixed(FixedOf(x));
    AtSplit(data, pos, a + b, EncodeU32s(x.netUnknown));
    AtSplit(data, pos, a, b);
  }

  /** The words stored after a pushed count read back once it is popped. */
  lemma NetUnknownRoundTrip(data: seq<byte>, c: Cursor, ws: seq<u32>)
    requires |c.stack| > 0 && c.stack[|c.stack| - 1] == |ws| <= IntMax && At(data, c.pos, EncodeU32s(ws))
    ensures ReadNetUnknown(data, c) == Ok((ws, Cursor(c.pos + 4 * |ws|, c.refs, c.stack[..|c.stack| - 1])))
  {
    var c1 := c.(stack := c.stack[..|c.stack| - 1]);
    assert Pop(c) == Ok((|ws| as u32, c1));
    U32ArrayRoundTrip(data, c1, ws);
    assert WordReader(data) == (d => U32(data, d));
  }

  /** An import record: three names around the owner reference. */
  function ReadImport(data: seq<byte>, c: Cursor, names: seq<GlobalName>): (r: Result<(PackageImport, Cursor)>)
    ensures r.Ok? <==> (c.pos + 28 <= |data| && U32(data, c).value.0 < |names|
      && U32(data, Advance(c, 8)).value.0 < |names| && U32(data, Advance(c, 20)).value.0 < |names|)
    ensures r.Ok? ==> r.value.1.pos == c.pos + 28
    ensures r.Ok? ==> r.value.1.refs == c.refs + ImportRaws(r.value.0) && r.value.1.stack == c.stack
    ensures r.Ok? ==> r.value.0.owner.to.None?
  {
    var (packageName, c1) :- Name(data, c, names);
    var (typeName, c2) :- Name(data, c1, names);
    var (owner, c3) :- Ref(data, c2);
    var (name, c4) :- Name(data, c3, names);
    Ok((PackageImport(packageName, typeName, owner, name), c4))
  }

  /** An import's fields are the names at offsets 0, 8 and 20 and the
      word at offset 16. */
  lemma ImportFields(data: seq<byte>, c: Cursor, names: seq<GlobalName>)
    requires ReadImport(data, c, names).Ok?
    ensures var x := ReadImport(data, c, names).value.0;
      && x.packageName == Name(data, c, names).value.0
      && x.typeName == Name(data, Advance(c, 8), names).value.0
      && x.owner.raw == I32(data, Advance(c, 16)).value.0
      && x.name == Name(data, Advance(c, 20), names).value.0
  {
    var c2 := Advance(Advance(c, 8), 8);
    var c3 := Ref(data, c2).value.1;
    NameAtSamePosition(data, c3, Advance(c, 20), names);
  }

  /** A name depends on where it is read, not on the references and stack
      the cursor carries. */
  lemma NameAtSamePosition(data: seq<byte>, c: Cursor, d: Cursor, names: seq<GlobalName>)
    requires c.pos == d.pos && Name(data, c, names).Ok?
    ensures Name(data, d, names).Ok? && Name(data, d, names).value.0 == Name(data, c, names).value.0
  {
    assert Advance(c, 4).pos == Advance(d, 4).pos;
  }

  /** The stored name fields of an import. */
  datatype ImportNames = ImportNames(packageName: NameRef, typeName: NameRef, name: NameRef)

  function EncodeImport(x: PackageImport, n: ImportNames): (bs: seq<byte>)
    ensures |bs| == 28
  {
    EncodeNameRef(n.packageName) + EncodeNameRef(n.typeName) + EncodeI32(x.owner.raw) + EncodeNameRef(n.name)
  }

  predicate StoredImport(x: PackageImport, n: ImportNames, names: seq<GlobalName>) {
    && n.packageName.index < |names| && x.packageName == NameOf(names, n.packageName)
    && n.typeName.index < |names| && x.typeName == NameOf(names, n.typeName)
    && n.name.index < |names| && x.name == NameOf(names, n.name)
    && x.owner.to.None?
  }

  /** A stored import reads back as itself, its owner recorded. */
  lemma ImportRoundTrip(data: seq<byte>, c: Cursor, names: seq<GlobalName>, x: PackageImport, n: ImportNames)
    requires StoredImport(x, n, names) && At(data, c.pos, EncodeImport(x, n))
    ensures ReadImport(data, c, names) == Ok((x, Cursor(c.pos + 28, c.refs + ImportRaws(x), c.stack)))
  {
    var a, b, d := EncodeNameRef(n.packageName), EncodeNameRef(n.typeName), EncodeI32(x.owner.raw);
    AtSplit(data, c.pos, a + b + d, EncodeNameRef(n.name));
    AtSplit(data, c.pos, a + b, d);
    AtSplit(data, c.pos, a, b);
    NameRoundTrip(data, c, names, n.packageName.index, n.packageName.suffix);
    NameRoundTrip(data, Advance(c, 8), names, n.typeName.index, n.typeName.suffix);
    RefRoundTrip(data, Advance(c, 16), x.owner);
    NameRoundTrip(data, Cursor(c.pos + 20, c.refs + [x.owner.raw], c.stack), names, n.name.index, n.name.suffix);
  }

  // ---------------------------------------------------------------------
  // Header

  /** The fixed fields after the signature. */
  datatype Summary = Summary(version: u16, licenseeVersion: u16, headerSize: u32, group: string, flags: u32)

  /** Signature, version, licensee version, header size, group, flags. */
  function ReadSummary(data: seq<byte>, c: Cursor): (r: Result<(Summary, Cursor)>)
    ensures U32(data, c).Ok? && U32(data, c).value.0 != PackageSignature ==> r == Err(InvalidSignature)
    ensures r.Ok? ==> U32(data, c).Ok? && U32(data, c).value.0 == PackageSignature
    ensures r.Ok? ==> FString(data, Advance(c, 12)).Ok?
    ensures r.Ok? ==> r.value.1 == Advance(FString(data, Advance(c, 12)).value.1, 4)
    ensures r.Ok? ==> r.value.0.group == FString(data, Advance(c, 12)).value.0
  {
    var (signature, c1) :- U32(data, c);
    if signature != PackageSignature then Err(InvalidSignature)
    else ReadSummaryFields(data, c1)
  }

  /** The summary fields after the signature. */
  function ReadSummaryFields(data: seq<byte>, c1: Cursor): (r: Result<(Summary, Cursor)>)
    ensures r.Ok? ==> FString(data, Advance(c1, 8)).Ok?
    ensures r.Ok? ==> r.value.1 == Advance(FString(data, Advance(c1, 8)).value.1, 4)
    ensures r.Ok? ==> r.value.0.group == FString(data, Advance(c1, 8)).value.0
  {
    var (version, c2) :- U16(data, c1);
    var (licenseeVersion, c3) :- U16(data, c2);
    var (headerSize, c4) :- U32(data, c3);
    ReadGroupAndFlags(data, c4, version, licenseeVersion, headerSize)
  }

  /** The group name and the package flags. */
  function ReadGroupAndFlags(data: seq<byte>, c: Cursor, version: u16, licenseeVersion: u16, headerSize: u32)
    : (r: Result<(Summary, Cursor)>)
    ensures r.Ok? ==> FString(data, c).Ok?
    ensures r.Ok? ==> r.value.1 == Advance(FString(data, c).value.1, 4)
    ensures r.Ok? ==> r.value.0 == Summary(version, licenseeVersion, headerSize, FString(data, c).value.0, r.value.0.flags)
  {
    var (group, c5) :- FString(data, c);
    var (flags, c6) :- U32(data, c5);
    Ok((Summary(version, licenseeVersion, headerSize, group, flags), c6))
  }

  function EncodeSummary(s: Summary): (bs: seq<byte>)
    requires Encoding.IsAscii(s.group) && |s.group| < IntMax
  {
    EncodeU32(PackageSignature) + EncodeSummaryFields(s)
  }

  function EncodeSummaryFields(s: Summary): (bs: seq<byte>)
    requires Encoding.IsAscii(s.group) && |s.group| < IntMax
    ensures |bs| == 8 + |EncodeFStringAscii(s.group)| + 4
  {
    EncodeVersions(s) + EncodeGroupAndFlags(s)
  }

  function EncodeVersions(s: Summary): (bs: seq<byte>)
    ensures |bs| == 8
  {
    EncodeU16(s.version) + EncodeU16(s.licenseeVersion) + EncodeU32(s.headerSize)
  }

  function EncodeGroupAndFlags(s: Summary): (bs: seq<byte>)
    requires Encoding.IsAscii(s.group) && |s.group| < IntMax
    ensures |bs| == |EncodeFStringAscii(s.group)| + 4
  {
    EncodeFStringAscii(s.group) + EncodeU32(s.flags)
  }

  /** The fixed part of a header reads back the fields that were stored. */
  lemma SummaryRoundTrip(data: seq<byte>, c: Cursor, s: Summary)
    requires Encoding.IsAscii(s.group) && |s.group| < IntMax
    requires At(data, c.pos, EncodeSummary(s))
    ensures ReadSummary(data, c) == Ok((s, Advance(c, |EncodeSummary(s)|)))
  {
    var rest := EncodeSummaryFields(s);
    AtSplit(data, c.pos, EncodeU32(PackageSignature), rest);
    U32RoundTrip(data, c, PackageSignature);
    SummaryFieldsRoundTrip(data, Advance(c, 4), s);
    assert Advance(Advance(c, 4), |rest|) == Advance(c, |EncodeSummary(s)|);
  }

  lemma SummaryFieldsRoundTrip(data: seq<byte>, c1: Cursor, s: Summary)
    requires Encoding.IsAscii(s.group) && |s.group| < IntMax
    requires At(data, c1.pos, EncodeSummaryFields(s))
    ensures ReadSummaryFields(data, c1) == Ok((s, Advance(c1, |EncodeSummaryFields(s)|)))
  {
    var b, d, e := EncodeU16(s.version), EncodeU16(s.licenseeVersion), EncodeU32(s.headerSize);
    var tail := EncodeGroupAndFlags(s);
    AtSplit(data, c1.pos, EncodeVersions(s), tail);
    AtSplit(data, c1.pos, b + d, e);
    AtSplit(data, c1.pos, b, d);
    U16RoundTrip(data, c1, s.version);
    U16RoundTrip(data, Advance(c1, 2), s.licenseeVersion);
    U32RoundTrip(data, Advance(c1, 4), s.headerSize);
    GroupAndFlagsRoundTrip(data, Advance(c1, 8), s);
  }

  lemma GroupAndFlagsRoundTrip(data: seq<byte>, c: Cursor, s: Summary)
    requires Encoding.IsAscii(s.group) && |s.group| < IntMax
    requires At(data, c.pos, EncodeGroupAndFlags(s))
    ensures ReadGroupAndFlags(data, c, s.version, s.licenseeVersion, s.headerSize)
      == Ok((s, Advance(c, |EncodeGroupAndFlags(s)|)))
  {
    var f, g := EncodeFStringAscii(s.group), EncodeU32(s.flags);
    AtSplit(data, c.pos, f, g);
    FStringAsciiRoundTrip(data, c, s.group);
    U32RoundTrip(data, Advance(c, |f|), s.flags);
  }

  /** A header that does not begin with the package magic is rejected. */
  lemma WrongSignatureRejected(data: seq<byte>, c: Cursor, v: u32)
    requires v != PackageSignature && At(data, c.pos, EncodeU32(v))
    ensures ReadSummary(data, c) == Err(InvalidSignature)
  {
    U32RoundTrip(data, c, v);
  }

  datatype Tables = Tables(names: seq<GlobalName>, exports: seq<PackageExport>, imports: seq<PackageImport>)

  /** The entry count of a (count, offset) pair. */
  function TableCount(data: seq<byte>, c: Cursor): u32
    requires c.pos + 8 <= |data|
  {
    U32(data, c).value.0
  }

  /** The cursor moved to the offset of a (count, offset) pair. */
  function TableStart(data: seq<byte>, c: Cursor): Cursor
    requires c.pos + 8 <= |data|
  {
    c.(pos := U32(data, Advance(c, 4)).value.0)
  }

  function ExportReader(data: seq<byte>, names: seq<GlobalName>): Cursor -> Result<(PackageExport, Cursor)> {
    d => ReadExport(data, d, names)
  }

  function ImportReader(data: seq<byte>, names: seq<GlobalName>): Cursor -> Result<(PackageImport, Cursor)> {
    d => ReadImport(data, d, names)
  }

  /** A (count, offset) pair, then the name entries read at the offset. */
  function ReadNameTable(data: seq<byte>, c: Cursor): (r: Result<(seq<GlobalName>, Cursor)>)
    ensures r.Ok? <==> c.pos + 8 <= |data| && ReadNames(data, TableStart(data, c), TableCount(data, c)).Ok?
    ensures r.Ok? ==> r.value == (ReadNames(data, TableStart(data, c), TableCount(data, c)).value.0, Advance(c, 8))
    ensures r.Ok? ==> |r.value.0| == TableCount(data, c)
  {
    var (count, c1) :- U32(data, c);
    var (offset, c2) :- U32(data, c1);
    Detour(c2, offset, d => ReadNames(data, d, count))
  }

  /** A (count, offset) pair, then the export records read at the offset. */
  function ReadExportTable(data: seq<byte>, c: Cursor, names: seq<GlobalName>): (r: Result<(seq<PackageExport>, Cursor)>)
    ensures r.Ok? <==>
      c.pos + 8 <= |data| && Array(TableStart(data, c), TableCount(data, c), ExportReader(data, names)).Ok?
    ensures r.Ok? ==> r.value.0 == Array(TableStart(data, c), TableCount(data, c), ExportReader(data, names)).value.0
    ensures r.Ok? ==> r.value.1 == Cursor(c.pos + 8, c.refs + Flatten(r.value.0, ExportRaws), c.stack)
    ensures r.Ok? ==> |r.value.0| == TableCount(data, c)
    ensures r.Ok? ==> forall i :: 0 <= i < |r.value.0| ==>
      |r.value.0[i].netUnknown| == r.value.0[i].netObjectCount && Unlinked(r.value.0[i]) == r.value.0[i]
  {
    var (count, c1) :- U32(data, c);
    var (offset, c2) :- U32(data, c1);
    var f := ExportReader(data, names);
    var (exports, c3) :- Detour(c2, offset, d => Array(d, count, f));
    RepeatAppendsRefs(c2.(pos := offset), count, f, ExportRaws);
    RepeatAll(c2.(pos := offset), count, f,
      (x: PackageExport) => |x.netUnknown| == x.netObjectCount && Unlinked(x) == x);
    Ok((exports, c3))
  }

  /** A (count, offset) pair, then the import records read at the offset. */
  function ReadImportTable(data: seq<byte>, c: Cursor, names: seq<GlobalName>): (r: Result<(seq<PackageImport>, Cursor)>)
    ensures r.Ok? <==>
      c.pos + 8 <= |data| && Array(TableStart(data, c), TableCount(data, c), ImportReader(data, names)).Ok?
    ensures r.Ok? ==> r.value.0 == Array(TableStart(data, c), TableCount(data, c), ImportReader(data, names)).value.0
    ensures r.Ok? ==> r.value.1 == Cursor(c.pos + 8, c.refs + Flatten(r.value.0, ImportRaws), c.stack)
    ensures r.Ok? ==> |r.value.0| == TableCount(data, c)
    ensures r.Ok? ==> forall i :: 0 <= i < |r.value.0| ==> UnlinkedImport(r.value.0[i]) == r.value.0[i]
  {
    var (count, c1) :- U32(data, c);
    var (offset, c2) :- U32(data, c1);
    var f := ImportReader(data, names);
    var (imports, c3) :- Detour(c2, offset, d => Array(d, count, f));
    RepeatAppendsRefs(c2.(pos := offset), count, f, ImportRaws);
    RepeatAll(c2.(pos := offset), count, f, (x: PackageImport) => UnlinkedImport(x) == x);
    Ok((imports, c3))
  }

  /** The three tables; each is read inside a detour, so the main cursor
      moves only over the three (count, offset) pairs. The export and
      import records take their names from the name table just read. */
  function ReadTables(data: seq<byte>, c: Cursor): (r: Result<(Tables, Cursor)>)
    ensures r.Ok? ==> r.value.1.pos == c.pos + 24 && r.value.1.stack == c.stack
    ensures r.Ok? ==>
      r.value.1.refs == c.refs + Flatten(r.value.0.exports, ExportRaws) + Flatten(r.value.0.imports, ImportRaws)
    ensures r.Ok? ==> ReadNameTable(data, c).Ok? && r.value.0.names == ReadNameTable(data, c).value.0
    ensures r.Ok? ==> ReadExportTable(data, Advance(c, 8), r.value.0.names).Ok?
    ensures r.Ok? ==> r.value.0.exports == ReadExportTable(data, Advance(c, 8), r.value.0.names).value.0
    ensures r.Ok? ==>
      var c2 := Cursor(c.pos + 16, c.refs + Flatten(r.value.0.exports, ExportRaws), c.stack);
      ReadImportTable(data, c2, r.value.0.names).Ok? && r.value.0.imports == ReadImportTable(data, c2, r.value.0.names).value.0
    ensures r.Ok? ==> forall i :: 0 <= i < |r.value.0.exports| ==>
      |r.value.0.exports[i].netUnknown| == r.value.0.exports[i].netObjectCount
      && Unlinked(r.value.0.exports[i]) == r.value.0.exports[i]
    ensures r.Ok? ==> forall i :: 0 <= i < |r.value.0.imports| ==>
      UnlinkedImport(r.value.0.imports[i]) == r.value.0.imports[i]
  {
    var (names, c1) :- ReadNameTable(data, c);
    var (exports, c2) :- ReadExportTable(data, c1, names);
    var (imports, c3) :- ReadImportTable(data, c2, names);
    Ok((Tables(names, exports, imports), c3))
  }

  /** Whatever every single read guarantees of its element holds of every
      element of a repeated read. */
  lemma {:induction false} RepeatAll<T>(c: Cursor, n: nat, f: Cursor -> Result<(T, Cursor)>, p: T -> bool)
    requires Repeat(c, n, f).Ok?
    requires forall d :: f(d).Ok? ==> p(f(d).value.0)
    ensures forall i :: 0 <= i < |Repeat(c, n, f).value.0| ==> p(Repeat(c, n, f).value.0[i])
    decreases n
  {
    if n > 0 {
      var (x, c1) := f(c).value;
      RepeatAll(c1, n - 1, f, p);
    }
  }

  // Stored tables

  /** Records stored one after another. */
  function EncodeAll<T, N>(xs: seq<T>, ns: seq<N>, enc: (T, N) -> seq<byte>): (bs: seq<byte>)
    requires |xs| == |ns|
  {
    if |xs| == 0 then [] else enc(xs[0], ns[0]) + EncodeAll(xs[1..], ns[1..], enc)
  }

  function EncodeExports(xs: seq<PackageExport>, ns: seq<NameRef>): (bs: seq<byte>)
    requires |xs| == |ns|
  {
    EncodeAll(xs, ns, EncodeExport)
  }

  function EncodeImports(xs: seq<PackageImport>, ns: seq<ImportNames>): (bs: seq<byte>)
    requires |xs| == |ns|
  {
    EncodeAll(xs, ns, EncodeImport)
  }

  /** `f` reads back every record `st` says is stored from `d.pos` to `e`,
      appending `g` of it to the references. */
  ghost predicate ReadsStored<T(!new), N(!new)>(f: Cursor -> Result<(T, Cursor)>, g: T -> seq<i32>,
                                                st: (nat, nat, T, N) -> bool) {
    forall d: Cursor, e: nat, x, n {:trigger st(d.pos, e, x, n)} :: st(d.pos, e, x, n) ==>
      f(d) == Ok((x, Cursor(e, d.refs + g(x), d.stack)))
  }

  /** A record `ok` admits, stored as `enc` says, is one `st` recognises. */
  ghost predicate StoredBy<T(!new), N(!new)>(data: seq<byte>, enc: (T, N) -> seq<byte>, ok: (T, N) -> bool,
                                             st: (nat, nat, T, N) -> bool) {
    forall pos: nat, x, n {:trigger At(data, pos, enc(x, n))} :: ok(x, n) && At(data, pos, enc(x, n)) ==>
      st(pos, pos + |enc(x, n)|, x, n)
  }

  /** When each stored record reads back as itself and appends its
      references, records stored one after another read back in order. */
  lemma {:induction false} RepeatStored<T(!new), N(!new)>(data: seq<byte>, c: Cursor, f: Cursor -> Result<(T, Cursor)>,
                                              xs: seq<T>, ns: seq<N>, enc: (T, N) -> seq<byte>, g: T -> seq<i32>,
                                              ok: (T, N) -> bool, st: (nat, nat, T, N) -> bool)
    requires |xs| == |ns| && forall i :: 0 <= i < |xs| ==> ok(xs[i], ns[i])
    requires StoredBy(data, enc, ok, st) && ReadsStored(f, g, st)
    requires At(data, c.pos, EncodeAll(xs, ns, enc))
    ensures Repeat(c, |xs|, f) == Ok((xs, Cursor(c.pos + |EncodeAll(xs, ns, enc)|, c.refs + Flatten(xs, g), c.stack)))
    decreases |xs|
  {
    if |xs| > 0 {
      var c1 := StoredFirst(data, c, f, xs, ns, enc, g, ok, st);
      RepeatStored(data, c1, f, xs[1..], ns[1..], enc, g, ok, st);
      var c2 := Cursor(c1.pos + |EncodeAll(xs[1..], ns[1..], enc)|, c1.refs + Flatten(xs[1..], g), c.stack);
      RepeatCons(c, |xs|, f, xs[0], c1, xs[1..], c2);
      assert [xs[0]] + xs[1..] == xs;
    } else {
      assert c.refs + Flatten(xs, g) == c.refs;
    }
  }

  /** The first stored record, and where the others start. */
  lemma StoredFirst<T(!new), N(!new)>(data: seq<byte>, c: Cursor, f: Cursor -> Result<(T, Cursor)>,
                          xs: seq<T>, ns: seq<N>, enc: (T, N) -> seq<byte>, g: T -> seq<i32>,
                          ok: (T, N) -> bool, st: (nat, nat, T, N) -> bool)
    returns (c1: Cursor)
    requires |xs| == |ns| > 0 && ok(xs[0], ns[0])
    requires StoredBy(data, enc, ok, st) && ReadsStored(f, g, st)
    requires At(data, c.pos, EncodeAll(xs, ns, enc))
    ensures f(c) == Ok((xs[0], c1)) && c1.stack == c.stack
    ensures At(data, c1.pos, EncodeAll(xs[1..], ns[1..], enc))
    ensures c1.pos + |EncodeAll(xs[1..], ns[1..], enc)| == c.pos + |EncodeAll(xs, ns, enc)|
    ensures c1.refs + Flatten(xs[1..], g) == c.refs + Flatten(xs, g)
  {
    var first, rest := enc(xs[0], ns[0]), EncodeAll(xs[1..], ns[1..], enc);
    assert EncodeAll(xs, ns, enc) == first + rest;
    AtSplit(data, c.pos, first, rest);
    assert st(c.pos, c.pos + |first|, xs[0], ns[0]);
    c1 := Cursor(c.pos + |first|, c.refs + g(xs[0]), c.stack);
  }

  /** A repeated read is its first element and the rest read after it. */
  lemma RepeatCons<T>(c: Cursor, n: nat, f: Cursor -> Result<(T, Cursor)>, x: T, c1: Cursor, xs: seq<T>, c2: Cursor)
    requires n > 0 && f(c) == Ok((x, c1)) && Repeat(c1, n - 1, f) == Ok((xs, c2))
    ensures Repeat(c, n, f) == Ok(([x] + xs, c2))
  {
  }

  /** A stored export table reads back record for record, every record's
      references recorded in order. */
  lemma ExportsRoundTrip(data: seq<byte>, c: Cursor, names: seq<GlobalName>, xs: seq<PackageExport>, ns: seq<NameRef>)
    requires |xs| == |ns| && forall i :: 0 <= i < |xs| ==> StoredExport(xs[i], ns[i], names)
    requires At(data, c.pos, EncodeExports(xs, ns))
    ensures Repeat(c, |xs|, ExportReader(data, names))
      == Ok((xs, Cursor(c.pos + |EncodeExports(xs, ns)|, c.refs + Flatten(xs, ExportRaws), c.stack)))
  {
    assert EncodeExports(xs, ns) == EncodeAll(xs, ns, EncodeExport);
    StoredExportsIn(names, xs, ns);
    ExportsStoredBy(data, names);
    ExportReaderStored(data, names);
    RepeatStored(data, c, ExportReader(data, names), xs, ns, EncodeExport, ExportRaws,
      StoredExportIn(names), StoredExportAt(data, names));
  }

  function StoredExportIn(names: seq<GlobalName>): (PackageExport, NameRef) -> bool {
    (x, n) => StoredExport(x, n, names)
  }

  lemma StoredExportsIn(names: seq<GlobalName>, xs: seq<PackageExport>, ns: seq<NameRef>)
    requires |xs| == |ns| && forall i :: 0 <= i < |xs| ==> StoredExport(xs[i], ns[i], names)
    ensures forall i :: 0 <= i < |xs| ==> StoredExportIn(names)(xs[i], ns[i])
  {
  }

  /** An export stored from `pos` to `end`. */
  function StoredExportAt(data: seq<byte>, names: seq<GlobalName>): (nat, nat, PackageExport, NameRef) -> bool {
    (pos: nat, end: nat, x: PackageExport, n: NameRef) =>
      StoredExport(x, n, names) && At(data, pos, EncodeExport(x, n)) && end == pos + 68 + 4 * |x.netUnknown|
  }

  lemma ExportsStoredBy(data: seq<byte>, names: seq<GlobalName>)
    ensures StoredBy(data, EncodeExport, StoredExportIn(names), StoredExportAt(data, names))
  {
    var enc: (PackageExport, NameRef) -> seq<byte>, ok, st := EncodeExport, StoredExportIn(names), StoredExportAt(data, names);
    forall pos: nat, x, n | ok(x, n) && At(data, pos, enc(x, n))
      ensures st(pos, pos + |enc(x, n)|, x, n)
    {
      assert enc(x, n) == EncodeExport(x, n);
    }
  }

  lemma ExportReaderStored(data: seq<byte>, names: seq<GlobalName>)
    ensures ReadsStored(ExportReader(data, names), ExportRaws, StoredExportAt(data, names))
  {
    var f, g, st := ExportReader(data, names), ExportRaws, StoredExportAt(data, names);
    forall d: Cursor, e: nat, x, n | st(d.pos, e, x, n)
      ensures f(d) == Ok((x, Cursor(e, d.refs + g(x), d.stack)))
    {
      StoredExportUnpack(data, names, d.pos, e, x, n);
      ExportReaderAt(data, d, names, x, n, e);
    }
  }

  lemma StoredExportUnpack(data: seq<byte>, names: seq<GlobalName>, pos: nat, e: nat, x: PackageExport, n: NameRef)
    requires StoredExportAt(data, names)(pos, e, x, n)
    ensures StoredExportIn(names)(x, n) && At(data, pos, EncodeExport(x, n)) && e == pos + 68 + 4 * |x.netUnknown|
  {
  }

  /** One stored export, read through the table's reader. */
  lemma ExportReaderAt(data: seq<byte>, d: Cursor, names: seq<GlobalName>, x: PackageExport, n: NameRef, e: nat)
    requires StoredExportIn(names)(x, n) && At(data, d.pos, EncodeExport(x, n)) && e == d.pos + 68 + 4 * |x.netUnknown|
    ensures ExportReader(data, names)(d) == Ok((x, Cursor(e, d.refs + ExportRaws(x), d.stack)))
  {
    ExportRoundTrip(data, d, names, x, n);
  }

  lemma ImportsRoundTrip(data: seq<byte>, c: Cursor, names: seq<GlobalName>, xs: seq<PackageImport>, ns: seq<ImportNames>)
    requires |xs| == |ns| && forall i :: 0 <= i < |xs| ==> StoredImport(xs[i], ns[i], names)
    requires At(data, c.pos, EncodeImports(xs, ns))
    ensures Repeat(c, |xs|, ImportReader(data, names))
      == Ok((xs, Cursor(c.pos + |EncodeImports(xs, ns)|, c.refs + Flatten(xs, ImportRaws), c.stack)))
  {
    assert forall i :: 0 <= i < |xs| ==> StoredImportIn(names)(xs[i], ns[i]);
    ImportsStoredBy(data, names);
    ImportReaderStored(data, names);
    RepeatStored(data, c, ImportReader(data, names), xs, ns, EncodeImport, ImportRaws,
      StoredImportIn(names), StoredImportAt(data, names));
  }

  function StoredImportIn(names: seq<GlobalName>): (PackageImport, ImportNames) -> bool {
    (x, n) => StoredImport(x, n, names)
  }

  /** An import stored from `pos` to `end`. */
  function StoredImportAt(data: seq<byte>, names: seq<GlobalName>): (nat, nat, PackageImport, ImportNames) -> bool {
    (pos: nat, end: nat, x: PackageImport, n: ImportNames) =>
      StoredImport(x, n, names) && At(data, pos, EncodeImport(x, n)) && end == pos + 28
  }

  lemma ImportsStoredBy(data: seq<byte>, names: seq<GlobalName>)
    ensures StoredBy(data, EncodeImport, StoredImportIn(names), StoredImportAt(data, names))
  {
    var enc: (PackageImport, ImportNames) -> seq<byte>, ok, st := EncodeImport, StoredImportIn(names), StoredImportAt(data, names);
    forall pos: nat, x, n | ok(x, n) && At(data, pos, enc(x, n))
      ensures st(pos, pos + |enc(x, n)|, x, n)
    {
      assert enc(x, n) == EncodeImport(x, n);
    }
  }

  lemma ImportReaderStored(data: seq<byte>, names: seq<GlobalName>)
    ensures ReadsStored(ImportReader(data, names), ImportRaws, StoredImportAt(data, names))
  {
    var f, g, st := ImportReader(data, names), ImportRaws, StoredImportAt(data, names);
    forall d: Cursor, e: nat, x, n | st(d.pos, e, x, n)
      ensures f(d) == Ok((x, Cursor(e, d.refs + g(x), d.stack)))
    {
      ImportRoundTrip(data, d, names, x, n);
    }
  }

  /** Where the three tables are stored. */
  datatype TableOffsets = TableOffsets(names: u32, exports: u32, imports: u32)

  /** The stored name fields of every record. */
  datatype TableNames = TableNames(exports: seq<NameRef>, imports: seq<ImportNames>)

  /** Tables a file can hold: ASCII names, counts a reader accepts, and
      records whose name fields index the name table. */
  predicate StoredTables(t: Tables, n: TableNames) {
    && Storable(t.names)
    && |t.names| <= IntMax && |t.exports| <= IntMax && |t.imports| <= IntMax
    && |n.exports| == |t.exports| && |n.imports| == |t.imports|
    && (forall i :: 0 <= i < |t.exports| ==> StoredExport(t.exports[i], n.exports[i], t.names))
    && (forall i :: 0 <= i < |t.imports| ==> StoredImport(t.imports[i], n.imports[i], t.names))
  }

  function EncodePointer(count: u32, offset: u32): (bs: seq<byte>)
    ensures |bs| == 8
  {
    EncodeU32(count) + EncodeU32(offset)
  }

  /** The three (count, offset) pairs in the header. */
  function EncodePointers(t: Tables, o: TableOffsets): (bs: seq<byte>)
    requires |t.names| <= IntMax && |t.exports| <= IntMax && |t.imports| <= IntMax
    ensures |bs| == 24
  {
    EncodePointer(|t.names|, o.names) + EncodePointer(|t.exports|, o.exports)
      + EncodePointer(|t.imports|, o.imports)
  }

  /** Every table is stored at the offset its pair names. */
  predicate TablesAt(data: seq<byte>, t: Tables, n: TableNames, o: TableOffsets)
    requires StoredTables(t, n)
  {
    && At(data, o.names, EncodeNames(t.names))
    && At(data, o.exports, EncodeExports(t.exports, n.exports))
    && At(data, o.imports, EncodeImports(t.imports, n.imports))
  }

  /** A stored (count, offset) pair reads back as the count and the cursor
      moved to the offset. */
  lemma PointerRoundTrip(data: seq<byte>, c: Cursor, count: u32, offset: u32)
    requires At(data, c.pos, EncodePointer(count, offset))
    ensures c.pos + 8 <= |data| && TableCount(data, c) == count && TableStart(data, c) == c.(pos := offset)
  {
    AtSplit(data, c.pos, EncodeU32(count), EncodeU32(offset));
    U32RoundTrip(data, c, count);
    U32RoundTrip(data, Advance(c, 4), offset);
  }

  lemma NameTableRoundTrip(data: seq<byte>, c: Cursor, names: seq<GlobalName>, offset: u32)
    requires Storable(names) && |names| <= IntMax
    requires At(data, c.pos, EncodePointer(|names|, offset)) && At(data, offset, EncodeNames(names))
    ensures ReadNameTable(data, c) == Ok((names, Advance(c, 8)))
  {
    PointerRoundTrip(data, c, |names|, offset);
    NamesRoundTrip(data, c.(pos := offset), names);
  }

  lemma ExportTableRoundTrip(data: seq<byte>, c: Cursor, names: seq<GlobalName>,
                             xs: seq<PackageExport>, ns: seq<NameRef>, offset: u32)
    requires |xs| <= IntMax && |xs| == |ns| && forall i :: 0 <= i < |xs| ==> StoredExport(xs[i], ns[i], names)
    requires At(data, c.pos, EncodePointer(|xs|, offset)) && At(data, offset, EncodeExports(xs, ns))
    ensures ReadExportTable(data, c, names) == Ok((xs, Cursor(c.pos + 8, c.refs + Flatten(xs, ExportRaws), c.stack)))
  {
    PointerRoundTrip(data, c, |xs|, offset);
    ExportsRoundTrip(data, c.(pos := offset), names, xs, ns);
  }

  lemma ImportTableRoundTrip(data: seq<byte>, c: Cursor, names: seq<GlobalName>,
                             xs: seq<PackageImport>, ns: seq<ImportNames>, offset: u32)
    requires |xs| <= IntMax && |xs| == |ns| && forall i :: 0 <= i < |xs| ==> StoredImport(xs[i], ns[i], names)
    requires At(data, c.pos, EncodePointer(|xs|, offset)) && At(data, offset, EncodeImports(xs, ns))
    ensures ReadImportTable(data, c, names) == Ok((xs, Cursor(c.pos + 8, c.refs + Flatten(xs, ImportRaws), c.stack)))
  {
    PointerRoundTrip(data, c, |xs|, offset);
    ImportsRoundTrip(data, c.(pos := offset), names, xs, ns);
  }

  /** Stored tables read back, whatever bytes lie between them. */
  lemma TablesRoundTrip(data: seq<byte>, c: Cursor, t: Tables, n: TableNames, o: TableOffsets)
    requires StoredTables(t, n) && TablesAt(data, t, n, o)
    requires At(data, c.pos, EncodePointers(t, o))
    ensures ReadTables(data, c) == Ok((t, Cursor(c.pos + 24,
      c.refs + Flatten(t.exports, ExportRaws) + Flatten(t.imports, ImportRaws), c.stack)))
  {
    var c1 := Advance(c, 8);
    var c2 := Cursor(c1.pos + 8, c1.refs + Flatten(t.exports, ExportRaws), c1.stack);
    var c3 := Cursor(c2.pos + 8, c2.refs + Flatten(t.imports, ImportRaws), c2.stack);
    PointersAt(data, c.pos, t, o);
    NamePartRoundTrip(data, c, t, n, o);
    ExportPartRoundTrip(data, c1, t, n, o);
    ImportPartRoundTrip(data, c2, t, n, o);
    ReadTablesOfParts(data, c, t, c1, c2, c3);
  }

  /** The three (count, offset) pairs lie one after the other. */
  lemma PointersAt(data: seq<byte>, pos: nat, t: Tables, o: TableOffsets)
    requires |t.names| <= IntMax && |t.exports| <= IntMax && |t.imports| <= IntMax
    requires At(data, pos, EncodePointers(t, o))
    ensures At(data, pos, EncodePointer(|t.names|, o.names))
    ensures At(data, pos + 8, EncodePointer(|t.exports|, o.exports))
    ensures At(data, pos + 16, EncodePointer(|t.imports|, o.imports))
  {
    var a, b := EncodePointer(|t.names|, o.names), EncodePointer(|t.exports|, o.exports);
    AtSplit(data, pos, a + b, EncodePointer(|t.imports|, o.imports));
    AtSplit(data, pos, a, b);
  }

  /** Each table of a stored set reads back from its own pair. */
  lemma NamePartRoundTrip(data: seq<byte>, c: Cursor, t: Tables, n: TableNames, o: TableOffsets)
    requires StoredTables(t, n) && TablesAt(data, t, n, o)
    requires At(data, c.pos, EncodePointer(|t.names|, o.names))
    ensures ReadNameTable(data, c) == Ok((t.names, Advance(c, 8)))
  {
    NameTableRoundTrip(data, c, t.names, o.names);
  }

  lemma ExportPartRoundTrip(data: seq<byte>, c: Cursor, t: Tables, n: TableNames, o: TableOffsets)
    requires StoredTables(t, n) && TablesAt(data, t, n, o)
    requires At(data, c.pos, EncodePointer(|t.exports|, o.exports))
    ensures ReadExportTable(data, c, t.names) == Ok((t.exports, Cursor(c.pos + 8, c.refs + Flatten(t.exports, ExportRaws), c.stack)))
  {
    ExportTableRoundTrip(data, c, t.names, t.exports, n.exports, o.exports);
  }

  lemma ImportPartRoundTrip(data: seq<byte>, c: Cursor, t: Tables, n: TableNames, o: TableOffsets)
    requires StoredTables(t, n) && TablesAt(data, t, n, o)
    requires At(data, c.pos, EncodePointer(|t.imports|, o.imports))
    ensures ReadImportTable(data, c, t.names) == Ok((t.imports, Cursor(c.pos + 8, c.refs + Flatten(t.imports, ImportRaws), c.stack)))
  {
    ImportTableRoundTrip(data, c, t.names, t.imports, n.imports, o.imports);
  }

  /** `ReadTables` gathers whatever its three table reads return. */
  lemma ReadTablesOfParts(data: seq<byte>, c: Cursor, t: Tables, c1: Cursor, c2: Cursor, c3: Cursor)
    requires ReadNameTable(data, c) == Ok((t.names, c1))
    requires ReadExportTable(data, c1, t.names) == Ok((t.exports, c2))
    requires ReadImportTable(data, c2, t.names) == Ok((t.imports, c3))
    ensures ReadTables(data, c) == Ok((t, c3))
  {
  }

  // ---------------------------------------------------------------------
  // Resolution

  /** The slot a raw reference names: positive values count exports from 1,
      negative values count imports from -1, 0 names nothing. */
  function Resolve(raw: i32, exportCount: nat, importCount: nat): (r: Result<Option<Referenceable>>)
    ensures r.Err? ==> r.error == IndexOutOfRange
    ensures r == Ok(None) <==> raw == 0
    ensures r.Ok? && r.value.Some? ==> Fits(r.value.value, exportCount, importCount)
    ensures r.Ok? && r.value.Some? ==> ToRaw(r.value.value) == raw
  {
    if raw > 0 then
      if raw - 1 < exportCount then Ok(Some(ExportAt(raw - 1))) else Err(IndexOutOfRange)
    else if raw < 0 then
      if -(raw as int) - 1 < importCount then Ok(Some(ImportAt(-(raw as int) - 1))) else Err(IndexOutOfRange)
    else Ok(None)
  }

  predicate Fits(t: Referenceable, exportCount: nat, importCount: nat) {
    match t
    case ExportAt(i) => i < exportCount
    case ImportAt(i) => i < importCount
  }

  /** The raw value a writer stores for a slot. */
  function ToRaw(t: Referenceable): int {
    match t
    case ExportAt(i) => i + 1
    case ImportAt(i) => -(i + 1)
  }

  /** Every slot that exists is reached by its raw value. */
  lemma ResolveToRaw(t: Referenceable, exportCount: nat, importCount: nat)
    requires Fits(t, exportCount, importCount) && -0x8000_0000 <= ToRaw(t) < 0x8000_0000
    ensures Resolve(ToRaw(t), exportCount, importCount) == Ok(Some(t))
  {
  }

  predicate RefValid(raw: i32, exportCount: nat, importCount: nat) {
    Resolve(raw, exportCount, importCount).Ok?
  }

  /** The loop over `Refs()`: every recorded reference resolved in order,
      failing at the first one outside the tables. */
  function ResolveAll(refs: seq<i32>, exportCount: nat, importCount: nat): (r: Result<seq<Option<Referenceable>>>)
    ensures r.Ok? <==> forall raw :: raw in refs ==> RefValid(raw, exportCount, importCount)
    ensures r.Err? ==> r.error == IndexOutOfRange
    ensures r.Ok? ==> |r.value| == |refs|
    ensures r.Ok? ==> forall i :: 0 <= i < |refs| ==> Resolve(refs[i], exportCount, importCount) == Ok(r.value[i])
  {
    if |refs| == 0 then Ok([])
    else
      assert refs == [refs[0]] + refs[1..] && refs[0] in refs;
      var first :- Resolve(refs[0], exportCount, importCount);
      var rest :- ResolveAll(refs[1..], exportCount, importCount);
      Ok([first] + rest)
  }

  /** A reference with its target filled in. */
  function ResolveRef(x: ObjectReference, exportCount: nat, importCount: nat): ObjectReference
    requires RefValid(x.raw, exportCount, importCount)
  {
    x.(to := Resolve(x.raw, exportCount, importCount).value)
  }

  predicate ExportRefsValid(x: PackageExport, ne: nat, ni: nat) {
    forall raw :: raw in ExportRaws(x) ==> RefValid(raw, ne, ni)
  }

  function ResolveExport(x: PackageExport, ne: nat, ni: nat): PackageExport
    requires ExportRefsValid(x, ne, ni)
  {
    x.(typ := ResolveRef(x.typ, ne, ni), parentClass := ResolveRef(x.parentClass, ne, ni),
       owner := ResolveRef(x.owner, ne, ni), archetype := ResolveRef(x.archetype, ne, ni))
  }

  function ResolveImport(x: PackageImport, ne: nat, ni: nat): PackageImport
    requires RefValid(x.owner.raw, ne, ni)
  {
    x.(owner := ResolveRef(x.owner, ne, ni))
  }

  /** A record with every reference target forgotten and the raw values
      kept: the record as read, before resolution. */
  function Unlinked(x: PackageExport): PackageExport {
    x.(typ := x.typ.(to := None), parentClass := x.parentClass.(to := None),
       owner := x.owner.(to := None), archetype := x.archetype.(to := None))
  }

  function UnlinkedImport(x: PackageImport): PackageImport {
    x.(owner := x.owner.(to := None))
  }

  /** The fixed fields of a header. */
  function SummaryOf(h: PackageHeader): Summary {
    Summary(h.version, h.licenseeVersion, h.headerSize, h.packageGroup, h.packageFlags)
  }

  /** A reference whose target is what its raw value names. */
  predicate RefResolved(x: ObjectReference, ne: nat, ni: nat) {
    RefValid(x.raw, ne, ni) && x.to == Resolve(x.raw, ne, ni).value
  }

  predicate ExportResolved(x: PackageExport, ne: nat, ni: nat) {
    && RefResolved(x.typ, ne, ni) && RefResolved(x.parentClass, ne, ni)
    && RefResolved(x.owner, ne, ni) && RefResolved(x.archetype, ne, ni)
  }

  /** Every reference field of every record points where its raw value says. */
  predicate Resolved(h: PackageHeader) {
    var ne, ni := |h.exports|, |h.imports|;
    && (forall i :: 0 <= i < ne ==> ExportResolved(h.exports[i], ne, ni))
    && (forall i :: 0 <= i < ni ==> RefResolved(h.imports[i].owner, ne, ni))
  }

  /** Resolving an export fills in all four reference fields and keeps the raw values. */
  lemma ResolveExportResolves(x: PackageExport, ne: nat, ni: nat)
    requires ExportRefsValid(x, ne, ni)
    ensures ExportResolved(ResolveExport(x, ne, ni), ne, ni)
  {
    assert x.typ.raw in ExportRaws(x) && x.parentClass.raw in ExportRaws(x);
    assert x.owner.raw in ExportRaws(x) && x.archetype.raw in ExportRaws(x);
  }

  /** Resolution leaves every owner inside the tables, so every display is
      defined up to cycles. */
  lemma ResolvedOwnersInRange(h: PackageHeader)
    requires Resolved(h)
    ensures OwnersInRange(h)
  {
    forall i | 0 <= i < |h.exports|
      ensures OwnerInRange(h, h.exports[i].owner)
    {
      var o := h.exports[i].owner;
      assert ExportResolved(h.exports[i], |h.exports|, |h.imports|);
      assert RefResolved(o, |h.exports|, |h.imports|);
    }
    forall i | 0 <= i < |h.imports|
      ensures OwnerInRange(h, h.imports[i].owner)
    {
      var o := h.imports[i].owner;
      assert RefResolved(o, |h.exports|, |h.imports|);
    }
  }

  /** `ReadHeader`: summary, tables, then resolution of every reference
      the reader has recorded, this header's and any read before it. */
  function ReadHeader(data: seq<byte>, c: Cursor): (r: Result<(PackageHeader, Cursor)>)
    ensures ReadSummary(data, c).Err? ==> r == Err(ReadSummary(data, c).error)
    ensures r.Ok? ==> r.value.0.signature == PackageSignature
    ensures r.Ok? ==> Resolved(r.value.0) && OwnersInRange(r.value.0)
    ensures r.Ok? ==> r.value.1.pos == ReadSummary(data, c).value.1.pos + 24
    ensures r.Ok? ==> r.value.1.stack == c.stack
    ensures r.Ok? ==> forall raw :: raw in r.value.1.refs ==>
      RefValid(raw, |r.value.0.exports|, |r.value.0.imports|)
    ensures ReadSummary(data, c).Ok? && ReadTables(data, ReadSummary(data, c).value.1).Ok? ==>
      var t := ReadTables(data, ReadSummary(data, c).value.1).value;
      (r.Ok? <==> forall raw :: raw in t.1.refs ==> RefValid(raw, |t.0.exports|, |t.0.imports|))
    ensures r.Ok? ==> SummaryOf(r.value.0) == ReadSummary(data, c).value.0
    ensures r.Ok? ==> ReadTables(data, ReadSummary(data, c).value.1).Ok?
    ensures r.Ok? ==>
      var t := ReadTables(data, ReadSummary(data, c).value.1).value.0;
      && r.value.0.names == t.names
      && |r.value.0.exports| == |t.exports| && |r.value.0.imports| == |t.imports|
      && (forall i :: 0 <= i < |t.exports| ==> Unlinked(r.value.0.exports[i]) == t.exports[i])
      && (forall i :: 0 <= i < |t.imports| ==> UnlinkedImport(r.value.0.imports[i]) == t.imports[i])
  {
    var (s, c1) :- ReadSummary(data, c);
    var (t, c2) :- ReadTables(data, c1);
    var _ :- ResolveAll(c2.refs, |t.exports|, |t.imports|);
    RecordRefsValid(c1.refs, t.exports, t.imports);
    Ok((Link(s, t), c2))
  }

  /** The header assembled from its parts, every record reference resolved
      against the final table sizes (so forward references work). */
  function Link(s: Summary, t: Tables): (h: PackageHeader)
    requires forall i :: 0 <= i < |t.exports| ==> ExportRefsValid(t.exports[i], |t.exports|, |t.imports|)
    requires forall i :: 0 <= i < |t.imports| ==> RefValid(t.imports[i].owner.raw, |t.exports|, |t.imports|)
    ensures h.signature == PackageSignature && SummaryOf(h) == s
    ensures h.names == t.names && |h.exports| == |t.exports| && |h.imports| == |t.imports|
    ensures Resolved(h) && OwnersInRange(h)
    ensures forall i :: 0 <= i < |h.exports| ==>
      h.exports[i] == ResolveExport(t.exports[i], |t.exports|, |t.imports|)
      && Unlinked(h.exports[i]) == Unlinked(t.exports[i])
    ensures forall i :: 0 <= i < |h.imports| ==>
      h.imports[i] == ResolveImport(t.imports[i], |t.exports|, |t.imports|)
      && UnlinkedImport(h.imports[i]) == UnlinkedImport(t.imports[i])
  {
    var ne, ni := |t.exports|, |t.imports|;
    var exports := seq(ne, i requires 0 <= i < ne => ResolveExport(t.exports[i], ne, ni));
    var imports := seq(ni, i requires 0 <= i < ni => ResolveImport(t.imports[i], ne, ni));
    var h := PackageHeader(PackageSignature, s.version, s.licenseeVersion, s.headerSize, s.group, s.flags,
                           t.names, exports, imports);
    forall i | 0 <= i < ne
      ensures ExportResolved(h.exports[i], ne, ni)
    {
      ResolveExportResolves(t.exports[i], ne, ni);
    }
    assert Resolved(h);
    ResolvedOwnersInRange(h);
    h
  }

  /** A stored header reads back as its summary and tables linked, once
      every reference it and the reader's earlier records hold names a
      slot of its tables. */
  lemma HeaderRoundTrip(data: seq<byte>, c: Cursor, s: Summary, t: Tables, n: TableNames, o: TableOffsets)
    requires Encoding.IsAscii(s.group) && |s.group| < IntMax
    requires StoredTables(t, n) && TablesAt(data, t, n, o)
    requires At(data, c.pos, EncodeSummary(s)) && At(data, c.pos + |EncodeSummary(s)|, EncodePointers(t, o))
    requires forall raw :: raw in c.refs ==> RefValid(raw, |t.exports|, |t.imports|)
    requires forall i :: 0 <= i < |t.exports| ==> ExportRefsValid(t.exports[i], |t.exports|, |t.imports|)
    requires forall i :: 0 <= i < |t.imports| ==> RefValid(t.imports[i].owner.raw, |t.exports|, |t.imports|)
    ensures ReadHeader(data, c) == Ok((Link(s, t), Cursor(c.pos + |EncodeSummary(s)| + 24,
      c.refs + Flatten(t.exports, ExportRaws) + Flatten(t.imports, ImportRaws), c.stack)))
  {
    var c1 := Advance(c, |EncodeSummary(s)|);
    var c2 := Cursor(c.pos + |EncodeSummary(s)| + 24,
      c.refs + Flatten(t.exports, ExportRaws) + Flatten(t.imports, ImportRaws), c.stack);
    SummaryRoundTrip(data, c, s);
    HeaderTablesRoundTrip(data, c, s, t, n, o);
    HeaderRefsValid(c.refs, t);
    ReadHeaderOfParts(data, c, s, t, c1, c2);
  }

  /** The tables read back from the pairs that follow the summary. */
  lemma HeaderTablesRoundTrip(data: seq<byte>, c: Cursor, s: Summary, t: Tables, n: TableNames, o: TableOffsets)
    requires Encoding.IsAscii(s.group) && |s.group| < IntMax
    requires StoredTables(t, n) && TablesAt(data, t, n, o)
    requires At(data, c.pos + |EncodeSummary(s)|, EncodePointers(t, o))
    ensures ReadTables(data, Advance(c, |EncodeSummary(s)|)) == Ok((t, Cursor(c.pos + |EncodeSummary(s)| + 24,
      c.refs + Flatten(t.exports, ExportRaws) + Flatten(t.imports, ImportRaws), c.stack)))
  {
    TablesAfterRoundTrip(data, c, |EncodeSummary(s)|, t, n, o);
  }

  /** The tables read back from pairs stored `k` bytes past the cursor. */
  lemma TablesAfterRoundTrip(data: seq<byte>, c: Cursor, k: nat, t: Tables, n: TableNames, o: TableOffsets)
    requires StoredTables(t, n) && TablesAt(data, t, n, o)
    requires At(data, c.pos + k, EncodePointers(t, o))
    ensures ReadTables(data, Advance(c, k)) == Ok((t, Cursor(c.pos + k + 24,
      c.refs + Flatten(t.exports, ExportRaws) + Flatten(t.imports, ImportRaws), c.stack)))
  {
    TablesRoundTrip(data, Advance(c, k), t, n, o);
  }

  /** When the references recorded before and those of every record are
      valid, so is the whole list the tables leave behind. */
  lemma HeaderRefsValid(refs: seq<i32>, t: Tables)
    requires forall raw :: raw in refs ==> RefValid(raw, |t.exports|, |t.imports|)
    requires forall i :: 0 <= i < |t.exports| ==> ExportRefsValid(t.exports[i], |t.exports|, |t.imports|)
    requires forall i :: 0 <= i < |t.imports| ==> RefValid(t.imports[i].owner.raw, |t.exports|, |t.imports|)
    ensures forall raw :: raw in refs + Flatten(t.exports, ExportRaws) + Flatten(t.imports, ImportRaws) ==>
      RefValid(raw, |t.exports|, |t.imports|)
  {
    var ne, ni := |t.exports|, |t.imports|;
    FlattenAll(t.exports, ExportRaws, (raw: i32) => RefValid(raw, ne, ni));
    FlattenAll(t.imports, ImportRaws, (raw: i32) => RefValid(raw, ne, ni));
  }

  /** `ReadHeader` links whatever summary and tables it reads once every
      recorded reference resolves. */
  lemma ReadHeaderOfParts(data: seq<byte>, c: Cursor, s: Summary, t: Tables, c1: Cursor, c2: Cursor)
    requires ReadSummary(data, c) == Ok((s, c1)) && ReadTables(data, c1) == Ok((t, c2))
    requires forall raw :: raw in c2.refs ==> RefValid(raw, |t.exports|, |t.imports|)
    requires forall i :: 0 <= i < |t.exports| ==> ExportRefsValid(t.exports[i], |t.exports|, |t.imports|)
    requires forall i :: 0 <= i < |t.imports| ==> RefValid(t.imports[i].owner.raw, |t.exports|, |t.imports|)
    ensures ReadHeader(data, c) == Ok((Link(s, t), c2))
  {
  }

  /** What holds of every reference of every record holds of the whole
      list. */
  lemma {:induction false} FlattenAll<T>(xs: seq<T>, g: T -> seq<i32>, p: i32 -> bool)
    requires forall i :: 0 <= i < |xs| ==> forall raw :: raw in g(xs[i]) ==> p(raw)
    ensures forall raw :: raw in Flatten(xs, g) ==> p(raw)
  {
    if |xs| > 0 {
      FlattenAll(xs[1..], g, p);
      assert forall raw :: raw in g(xs[0]) ==> p(raw);
    }
  }

  /** Every reference of every record is among the recorded ones, so once
      those all resolve, so do the records'. */
  lemma RecordRefsValid(before: seq<i32>, exports: seq<PackageExport>, imports: seq<PackageImport>)
    requires forall raw :: raw in before + Flatten(exports, ExportRaws) + Flatten(imports, ImportRaws) ==>
      RefValid(raw, |exports|, |imports|)
    ensures forall i :: 0 <= i < |exports| ==> ExportRefsValid(exports[i], |exports|, |imports|)
    ensures forall i :: 0 <= i < |imports| ==> RefValid(imports[i].owner.raw, |exports|, |imports|)
  {
    var ne, ni := |exports|, |imports|;
    var all := before + Flatten(exports, ExportRaws) + Flatten(imports, ImportRaws);
    forall i, raw | 0 <= i < |exports| && raw in ExportRaws(exports[i])
      ensures RefValid(raw, ne, ni)
    {
      FlattenMember(exports, ExportRaws, i, raw);
      assert raw in all;
    }
    forall i | 0 <= i < |imports|
      ensures RefValid(imports[i].owner.raw, ne, ni)
    {
      var raw := imports[i].owner.raw;
      assert raw in ImportRaws(imports[i]);
      FlattenMember(imports, ImportRaws, i, raw);
      assert raw in all;
    }
  }

  // ---------------------------------------------------------------------
  // Compressed chunks

  /** `Math.Ceiling(uncompressed / (double)blockSize)`. For 32-bit operands
      the double quotient is never rounded onto an integer it is not, so
      this is the exact ceiling; block size 0 divides by zero into NaN or
      infinity, whose conversion to uint is unspecified, and is an error. */
  function BlockCount(uncompressedSize: u32, blockSize: u32): (r: Result<u32>)
    ensures r.Err? <==> blockSize == 0
    ensures r.Err? ==> r.error == UndefinedBlockCount
    ensures r.Ok? ==> r.value * blockSize >= uncompressedSize
    ensures r.Ok? && r.value > 0 ==> (r.value - 1) * blockSize < uncompressedSize
  {
    if blockSize == 0 then Err(UndefinedBlockCount)
    else Ok((uncompressedSize + blockSize - 1) / blockSize)
  }

  /** `n` bytes: `out` cut to length or padded with zeros, as the output
      buffer of size `n` holds whatever the decompressor wrote over zeros. */
  function Fit(out: seq<byte>, n: nat): (r: seq<byte>)
    ensures |r| == n
    ensures forall i :: 0 <= i < n ==> r[i] == (if i < |out| then out[i] else 0)
  {
    if |out| >= n then out[..n] else out + seq(n - |out|, i => 0)
  }

  /** A block: two sizes, then `CompressedSize` raw bytes (fewer at the end
      of the stream), handed to the decompressor with an output buffer of
      `UncompressedSize` bytes. */
  function ReadBlock(data: seq<byte>, c: Cursor, decompress: (seq<byte>, nat) -> Option<seq<byte>>): (r: Result<(CompressedBlock, Cursor)>)
    ensures c.pos + 8 > |data| ==> r == Err(EndOfStream)
    ensures r.Ok? ==> |r.value.0.data| == r.value.0.uncompressedSize
    ensures r.Ok? ==> c.pos + 8 <= r.value.1.pos <= |data|
    ensures r.Ok? ==> r.value.1.pos == c.pos + 8 + Min(r.value.0.compressedSize, |data| - c.pos - 8)
    ensures r.Ok? ==> r.value.1.refs == c.refs && r.value.1.stack == c.stack
  {
    var (compressedSize, c1) :- U32(data, c);
    var (uncompressedSize, c2) :- U32(data, c1);
    var (raw, c3) :- ReadBytesU(data, c2, compressedSize);
    match decompress(raw, uncompressedSize)
    case None => Err(DecompressionFailed)
    case Some(out) => Ok((CompressedBlock(compressedSize, uncompressedSize, Fit(out, uncompressedSize)), c3))
  }

  /** The sizes are the first two words; the data is what the decompressor
      makes of the raw bytes after them, fitted to the uncompressed size.
      A count above `int.MaxValue` and a failed decompression are errors. */
  lemma BlockFields(data: seq<byte>, c: Cursor, decompress: (seq<byte>, nat) -> Option<seq<byte>>)
    requires c.pos + 8 <= |data|
    ensures U32(data, c).value.0 > IntMax ==> ReadBlock(data, c, decompress) == Err(ArgumentOutOfRange)
    ensures U32(data, c).value.0 <= IntMax ==>
      (ReadBlock(data, c, decompress) == Err(DecompressionFailed) <==>
       decompress(BlockRaw(data, c), U32(data, Advance(c, 4)).value.0).None?)
    ensures U32(data, c).value.0 <= IntMax ==>
      (ReadBlock(data, c, decompress).Ok? <==> decompress(BlockRaw(data, c), U32(data, Advance(c, 4)).value.0).Some?)
    ensures ReadBlock(data, c, decompress).Ok? ==>
      var (b, _) := ReadBlock(data, c, decompress).value;
      && b.compressedSize == U32(data, c).value.0
      && b.uncompressedSize == U32(data, Advance(c, 4)).value.0
      && decompress(BlockRaw(data, c), b.uncompressedSize).Some?
      && b.data == Fit(decompress(BlockRaw(data, c), b.uncompressedSize).value, b.uncompressedSize)
  {
    var cs := U32(data, c).value.0;
    if cs <= IntMax {
      assert ReadBytesU(data, Advance(c, 8), cs).value.0 == BlockRaw(data, c);
    }
  }

  /** The raw bytes after a block's two sizes: as many as the first size
      says, or as many as are left. */
  function BlockRaw(data: seq<byte>, c: Cursor): (bs: seq<byte>)
    requires c.pos + 8 <= |data|
    ensures |bs| == Min(U32(data, c).value.0, |data| - c.pos - 8)
    ensures forall i :: 0 <= i < |bs| ==> bs[i] == data[c.pos + 8 + i]
  {
    data[c.pos + 8..c.pos + 8 + Min(U32(data, c).value.0, |data| - c.pos - 8)]
  }

  function BlockReader(data: seq<byte>, decompress: (seq<byte>, nat) -> Option<seq<byte>>): Cursor -> Result<(CompressedBlock, Cursor)> {
    d => ReadBlock(data, d, decompress)
  }

  /** `ReadCompressedChunk`: signature, block size, compressed and
      uncompressed sizes, then the blocks. The chunk's compressed size is
      read but never checked. */
  function ReadCompressedChunk(data: seq<byte>, c: Cursor, decompress: (seq<byte>, nat) -> Option<seq<byte>>): (r: Result<(CompressedChunk, Cursor)>)
    ensures c.pos + 4 > |data| ==> r == Err(EndOfStream)
    ensures U32(data, c).Ok? && U32(data, c).value.0 != PackageSignature ==> r == Err(InvalidChunkSignature)
    ensures U32(data, c).Ok? && U32(data, c).value.0 == PackageSignature && c.pos + 16 > |data| ==> r == Err(EndOfStream)
    ensures (U32(data, c).Ok? && U32(data, c).value.0 == PackageSignature && c.pos + 16 <= |data|
      && U32(data, Advance(c, 4)).value.0 == 0) ==> r == Err(UndefinedBlockCount)
    ensures r.Ok? ==> r.value.0.signature == PackageSignature
    ensures r.Ok? ==> BlockCount(r.value.0.uncompressedSize, r.value.0.blockSize) == Ok(|r.value.0.blocks|)
    ensures r.Ok? ==> forall i :: 0 <= i < |r.value.0.blocks| ==>
      |r.value.0.blocks[i].data| == r.value.0.blocks[i].uncompressedSize
    ensures r.Ok? ==> c.pos + 16 + 8 * |r.value.0.blocks| <= r.value.1.pos <= |data|
    ensures r.Ok? ==> r.value.1.refs == c.refs && r.value.1.stack == c.stack
  {
    var (signature, c1) :- U32(data, c);
    if signature != PackageSignature then Err(InvalidChunkSignature)
    else
      var (blockSize, c2) :- U32(data, c1);
      var (compressedSize, c3) :- U32(data, c2);
      var (uncompressedSize, c4) :- U32(data, c3);
      var count :- BlockCount(uncompressedSize, blockSize);
      var f := BlockReader(data, decompress);
      var (blocks, c5) :- Array(c4, count, f);
      RepeatStrides(data, c4, count, 8, f);
      RepeatAll(c4, count, f, (b: CompressedBlock) => |b.data| == b.uncompressedSize);
      Ok((CompressedChunk(signature, blockSize, compressedSize, uncompressedSize, blocks), c5))
  }

  /** The header fields are the four words at the start, and the blocks
      are what the block reader makes of the bytes after them. */
  lemma ChunkFields(data: seq<byte>, c: Cursor, decompress: (seq<byte>, nat) -> Option<seq<byte>>)
    requires ReadCompressedChunk(data, c, decompress).Ok?
    ensures c.pos + 16 <= |data|
    ensures var (k, c') := ReadCompressedChunk(data, c, decompress).value;
      && k.signature == U32(data, c).value.0
      && k.blockSize == U32(data, Advance(c, 4)).value.0
      && k.compressedSize == U32(data, Advance(c, 8)).value.0
      && k.uncompressedSize == U32(data, Advance(c, 12)).value.0
      && Array(Advance(c, 16), |k.blocks|, BlockReader(data, decompress)) == Ok((k.blocks, c'))
  {
  }

  /** A block as stored: its two sizes, then its raw bytes. */
  function EncodeBlock(b: CompressedBlock, raw: seq<byte>): (bs: seq<byte>)
    ensures |bs| == 8 + |raw|
  {
    EncodeU32(b.compressedSize) + EncodeU32(b.uncompressedSize) + raw
  }

  /** `raw` holds all of `b`'s compressed bytes, and they decompress to the
      bytes `b` carries. */
  predicate StoredBlock(b: CompressedBlock, raw: seq<byte>, decompress: (seq<byte>, nat) -> Option<seq<byte>>) {
    && |raw| == b.compressedSize
    && decompress(raw, b.uncompressedSize).Some?
    && b.data == Fit(decompress(raw, b.uncompressedSize).value, b.uncompressedSize)
  }

  lemma BlockRoundTrip(data: seq<byte>, c: Cursor, decompress: (seq<byte>, nat) -> Option<seq<byte>>,
                       b: CompressedBlock, raw: seq<byte>)
    requires StoredBlock(b, raw, decompress) && b.compressedSize <= IntMax
    requires At(data, c.pos, EncodeBlock(b, raw))
    ensures ReadBlock(data, c, decompress) == Ok((b, Cursor(c.pos + 8 + |raw|, c.refs, c.stack)))
  {
    var sizes := EncodeU32(b.compressedSize) + EncodeU32(b.uncompressedSize);
    AtSplit(data, c.pos, sizes, raw);
    AtSplit(data, c.pos, EncodeU32(b.compressedSize), EncodeU32(b.uncompressedSize));
    U32RoundTrip(data, c, b.compressedSize);
    U32RoundTrip(data, Advance(c, 4), b.uncompressedSize);
    assert BlockRaw(data, c) == raw;
  }

  /** A chunk's four header words. */
  function EncodeChunkHead(k: CompressedChunk): (bs: seq<byte>)
    ensures |bs| == 16
  {
    EncodeU32(k.signature) + EncodeU32(k.blockSize) + EncodeU32(k.compressedSize) + EncodeU32(k.uncompressedSize)
  }

  /** A chunk the reader accepts: the right signature, as many blocks as
      the sizes call for, and every block stored whole. */
  predicate StoredChunk(k: CompressedChunk, raws: seq<seq<byte>>, decompress: (seq<byte>, nat) -> Option<seq<byte>>) {
    && k.signature == PackageSignature
    && BlockCount(k.uncompressedSize, k.blockSize) == Ok(|k.blocks|)
    && |k.blocks| <= IntMax && |raws| == |k.blocks|
    && forall i :: 0 <= i < |k.blocks| ==> StoredBlockIn(decompress)(k.blocks[i], raws[i])
  }

  /** A stored chunk, its four header words and then its blocks, reads
      back as itself. */
  lemma ChunkRoundTrip(data: seq<byte>, c: Cursor, decompress: (seq<byte>, nat) -> Option<seq<byte>>,
                       k: CompressedChunk, raws: seq<seq<byte>>)
    requires StoredChunk(k, raws, decompress)
    requires At(data, c.pos, EncodeChunkHead(k)) && At(data, c.pos + 16, EncodeAll(k.blocks, raws, EncodeBlock))
    ensures ReadCompressedChunk(data, c, decompress)
      == Ok((k, Cursor(c.pos + 16 + |EncodeAll(k.blocks, raws, EncodeBlock)|, c.refs, c.stack)))
  {
    ChunkBlocksRoundTrip(data, c, decompress, k, raws);
    ReadChunkOfParts(data, c, decompress, k, Cursor(c.pos + 16 + |EncodeAll(k.blocks, raws, EncodeBlock)|, c.refs, c.stack));
  }

  /** The blocks of a stored chunk read back after its header. */
  lemma ChunkBlocksRoundTrip(data: seq<byte>, c: Cursor, decompress: (seq<byte>, nat) -> Option<seq<byte>>,
                             k: CompressedChunk, raws: seq<seq<byte>>)
    requires StoredChunk(k, raws, decompress)
    requires At(data, c.pos + 16, EncodeAll(k.blocks, raws, EncodeBlock))
    ensures Repeat(Advance(c, 16), |k.blocks|, BlockReader(data, decompress))
      == Ok((k.blocks, Cursor(c.pos + 16 + |EncodeAll(k.blocks, raws, EncodeBlock)|, c.refs, c.stack)))
  {
    BlocksRoundTrip(data, Advance(c, 16), decompress, k.blocks, raws);
  }

  /** The four header words read back. */
  lemma ChunkHeadRoundTrip(data: seq<byte>, c: Cursor, k: CompressedChunk)
    requires At(data, c.pos, EncodeChunkHead(k))
    ensures U32(data, c) == Ok((k.signature, Advance(c, 4)))
    ensures U32(data, Advance(c, 4)) == Ok((k.blockSize, Advance(c, 8)))
    ensures U32(data, Advance(c, 8)) == Ok((k.compressedSize, Advance(c, 12)))
    ensures U32(data, Advance(c, 12)) == Ok((k.uncompressedSize, Advance(c, 16)))
  {
    var w0, w1, w2, w3 := EncodeU32(k.signature), EncodeU32(k.blockSize), EncodeU32(k.compressedSize), EncodeU32(k.uncompressedSize);
    AtSplit(data, c.pos, w0 + w1 + w2, w3);
    AtSplit(data, c.pos, w0 + w1, w2);
    AtSplit(data, c.pos, w0, w1);
    U32RoundTrip(data, c, k.signature);
    U32RoundTrip(data, Advance(c, 4), k.blockSize);
    U32RoundTrip(data, Advance(c, 8), k.compressedSize);
    U32RoundTrip(data, Advance(c, 12), k.uncompressedSize);
  }

  /** `ReadCompressedChunk` gathers the stored header words and whatever
      the repeated block read returns. */
  lemma ReadChunkOfParts(data: seq<byte>, c: Cursor, decompress: (seq<byte>, nat) -> Option<seq<byte>>,
                         k: CompressedChunk, c5: Cursor)
    requires k.signature == PackageSignature && BlockCount(k.uncompressedSize, k.blockSize) == Ok(|k.blocks|)
    requires |k.blocks| <= IntMax && At(data, c.pos, EncodeChunkHead(k))
    requires Repeat(Advance(c, 16), |k.blocks|, BlockReader(data, decompress)) == Ok((k.blocks, c5))
    ensures ReadCompressedChunk(data, c, decompress) == Ok((k, c5))
  {
    ChunkHeadRoundTrip(data, c, k);
  }

  /** Stored blocks read back one after another. */
  lemma BlocksRoundTrip(data: seq<byte>, c: Cursor, decompress: (seq<byte>, nat) -> Option<seq<byte>>,
                        bs: seq<CompressedBlock>, raws: seq<seq<byte>>)
    requires |bs| == |raws| && forall i :: 0 <= i < |bs| ==> StoredBlockIn(decompress)(bs[i], raws[i])
    requires At(data, c.pos, EncodeAll(bs, raws, EncodeBlock))
    ensures Repeat(c, |bs|, BlockReader(data, decompress))
      == Ok((bs, Cursor(c.pos + |EncodeAll(bs, raws, EncodeBlock)|, c.refs, c.stack)))
  {
    BlocksStoredBy(data, decompress);
    BlockReaderStored(data, decompress);
    RepeatStored(data, c, BlockReader(data, decompress), bs, raws, EncodeBlock, NoRefs,
      StoredBlockIn(decompress), StoredBlockAt(data, decompress));
    FlattenNoRefs(bs);
    assert c.refs + Flatten(bs, NoRefs) == c.refs;
  }

  /** Blocks record no references. */
  function NoRefs(b: CompressedBlock): seq<i32> {
    []
  }

  lemma {:induction false} FlattenNoRefs(bs: seq<CompressedBlock>)
    ensures Flatten(bs, NoRefs) == []
  {
    if |bs| > 0 {
      FlattenNoRefs(bs[1..]);
    }
  }

  function StoredBlockIn(decompress: (seq<byte>, nat) -> Option<seq<byte>>): (CompressedBlock, seq<byte>) -> bool {
    (b, raw) => StoredBlock(b, raw, decompress) && b.compressedSize <= IntMax
  }

  /** A block stored from `pos` to `end`. */
  function StoredBlockAt(data: seq<byte>, decompress: (seq<byte>, nat) -> Option<seq<byte>>)
    : (nat, nat, CompressedBlock, seq<byte>) -> bool
  {
    (pos: nat, end: nat, b: CompressedBlock, raw: seq<byte>) =>
      StoredBlock(b, raw, decompress) && b.compressedSize <= IntMax
      && At(data, pos, EncodeBlock(b, raw)) && end == pos + 8 + |raw|
  }

  lemma BlocksStoredBy(data: seq<byte>, decompress: (seq<byte>, nat) -> Option<seq<byte>>)
    ensures StoredBy(data, EncodeBlock, StoredBlockIn(decompress), StoredBlockAt(data, decompress))
  {
    var enc: (CompressedBlock, seq<byte>) -> seq<byte>, ok, st := EncodeBlock, StoredBlockIn(decompress), StoredBlockAt(data, decompress);
    forall pos: nat, b, raw | ok(b, raw) && At(data, pos, enc(b, raw))
      ensures st(pos, pos + |enc(b, raw)|, b, raw)
    {
      assert enc(b, raw) == EncodeBlock(b, raw);
    }
  }

  lemma BlockReaderStored(data: seq<byte>, decompress: (seq<byte>, nat) -> Option<seq<byte>>)
    ensures ReadsStored(BlockReader(data, decompress), NoRefs, StoredBlockAt(data, decompress))
  {
    var f, g, st := BlockReader(data, decompress), NoRefs, StoredBlockAt(data, decompress);
    forall d: Cursor, e: nat, b, raw | st(d.pos, e, b, raw)
      ensures f(d) == Ok((b, Cursor(e, d.refs + g(b), d.stack)))
    {
      StoredBlockUnpack(data, decompress, d.pos, e, b, raw);
      BlockRoundTrip(data, d, decompress, b, raw);
      assert d.refs + g(b) == d.refs;
    }
  }

  lemma StoredBlockUnpack(data: seq<byte>, decompress: (seq<byte>, nat) -> Option<seq<byte>>,
                          pos: nat, e: nat, b: CompressedBlock, raw: seq<byte>)
    requires StoredBlockAt(data, decompress)(pos, e, b, raw)
    ensures StoredBlock(b, raw, decompress) && b.compressedSize <= IntMax
    ensures At(data, pos, EncodeBlock(b, raw)) && e == pos + 8 + |raw|
  {
  }

  /** When every single read moves forward by at least `step` bytes without
      passing the end and leaves the references and stack alone, a repeated
      read of `n` elements moves forward by at least `n * step`. */
  lemma {:induction false} RepeatStrides<T>(data: seq<byte>, c: Cursor, n: nat, step: nat, f: Cursor -> Result<(T, Cursor)>)
    requires c.pos <= |data|
    requires Repeat(c, n, f).Ok?
    requires forall d :: f(d).Ok? ==>
      d.pos + step <= f(d).value.1.pos <= |data| && f(d).value.1.refs == d.refs && f(d).value.1.stack == d.stack
    ensures var c' := Repeat(c, n, f).value.1;
      c.pos + step * n <= c'.pos <= |data| && c'.refs == c.refs && c'.stack == c.stack
    decreases n
  {
    if n > 0 {
      var (x, c1) := f(c).value;
      RepeatStrides(data, c1, n - 1, step, f);
      assert step * n == step + step * (n - 1);
    }
  }

}
