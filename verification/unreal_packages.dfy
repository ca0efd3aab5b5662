/** The records of an Unreal package header (the UnrealPackages folder) and the
    recursive display name exports and imports give themselves.
    References are kept as indexes into the header's tables, so a resolved
    `ObjectReference` names a slot instead of holding a pointer. */
module UnrealPackages {
  import opened Wrappers
  import opened Numeric
  import Text

  /** The magic every package header and every compressed chunk begins with. */
  const PackageSignature: u32 := 0x9E2A83C1

  datatype GlobalName = GlobalName(name: string, flags: u64)

  /** What a resolved reference points at (`PackageReferenceable`). */
  datatype Referenceable = ExportAt(index: nat) | ImportAt(index: nat)

  /** `Raw` as read; `To` is `None` until resolution, and stays `None` for raw 0. */
  datatype ObjectReference = ObjectReference(raw: i32, to: Option<Referenceable>)

  datatype PackageExport = PackageExport(
    typ: ObjectReference,
    parentClass: ObjectReference,
    owner: ObjectReference,
    name: string,
    archetype: ObjectReference,
    objectFlags: u64,
    serializedDataSize: u32,
    serializedDataOffset: u32,
    exportFlags: u32,
    netObjectCount: u32,
    guid: seq<byte>,
    unknown: u32,
    netUnknown: seq<u32>)

  datatype PackageImport = PackageImport(
    packageName: string,
    typeName: string,
    owner: ObjectReference,
    name: string)

  datatype PackageHeader = PackageHeader(
    signature: u32,
    version: u16,
    licenseeVersion: u16,
    headerSize: u32,
    packageGroup: string,
    packageFlags: u32,
    names: seq<GlobalName>,
    exports: seq<PackageExport>,
    imports: seq<PackageImport>)

  datatype CompressedBlock = CompressedBlock(compressedSize: u32, uncompressedSize: u32, data: seq<byte>)

  datatype CompressedChunk = CompressedChunk(
    signature: u32,
    blockSize: u32,
    compressedSize: u32,
    uncompressedSize: u32,
    blocks: seq<CompressedBlock>)

  function Pow2(n: nat): (p: nat)
    ensures p >= 1
  {
    if n == 0 then 1 else 2 * Pow2(n - 1)
  }

  /** Bit `i` of a flags word, as `HasFlag` tests a single-bit enum
      member: the lowest bit once `i` lower bits are shifted out. */
  predicate HasBit(flags: nat, i: nat)
    decreases i
  {
    if i == 0 then flags % 2 == 1 else HasBit(flags / 2, i - 1)
  }

  /** `PackageFlags.Debug`. */
  const DebugFlag: u32 := 0x40_0000
  const DebugBit: nat := 22

  lemma DebugFlagIsBit22()
    ensures Pow2(DebugBit) == DebugFlag
  {
    assert Pow2(4) == 16;
    assert Pow2(8) == 256;
    assert Pow2(12) == 4096;
    assert Pow2(16) == 65536;
    assert Pow2(20) == 0x10_0000;
  }

  /** `PackageHeader.IsDebug`. */
  predicate IsDebug(h: PackageHeader) {
    HasBit(h.packageFlags, DebugBit)
  }

  /** The thing a resolved reference names exists in the header. */
  predicate InRange(h: PackageHeader, t: Referenceable) {
    match t
    case ExportAt(i) => i < |h.exports|
    case ImportAt(i) => i < |h.imports|
  }

  predicate OwnerInRange(h: PackageHeader, owner: ObjectReference) {
    owner.to.Some? ==> InRange(h, owner.to.value)
  }

  /** Every owner of every export and import names an existing slot. */
  predicate OwnersInRange(h: PackageHeader) {
    && (forall i :: 0 <= i < |h.exports| ==> OwnerInRange(h, h.exports[i].owner))
    && (forall i :: 0 <= i < |h.imports| ==> OwnerInRange(h, h.imports[i].owner))
  }

  /** The bare `Name` of an export or import. */
  function NameOf(h: PackageHeader, t: Referenceable): string
    requires InRange(h, t)
  {
    match t
    case ExportAt(i) => h.exports[i].name
    case ImportAt(i) => h.imports[i].name
  }

  function OwnerOf(h: PackageHeader, t: Referenceable): ObjectReference
    requires InRange(h, t)
  {
    match t
    case ExportAt(i) => h.exports[i].owner
    case ImportAt(i) => h.imports[i].owner
  }

  lemma OwnerOfInRange(h: PackageHeader, t: Referenceable)
    requires OwnersInRange(h) && InRange(h, t)
    ensures OwnerInRange(h, OwnerOf(h, t))
  {
    match t
    case ExportAt(i) =>
    case ImportAt(i) =>
  }

  /** `PackageExport.ToString` / `PackageImport.ToString`: the owner's display
      name, a dot, then the own name; just the name when there is no owner.
      The original has no cycle guard, so a cyclic owner chain never returns;
      `fuel` bounds the recursion depth and `None` means it ran out. An owner
      index outside the tables also gives `None`; resolution never produces
      one (see `PackageReader.ReadHeader`). */
  function Display(h: PackageHeader, t: Referenceable, fuel: nat): (r: Option<string>)
    requires InRange(h, t)
    ensures OwnerOf(h, t).to.None? ==> r == Some(NameOf(h, t))
    ensures OwnerOf(h, t).to.Some? && r.Some? ==> |r.value| > |NameOf(h, t)|
    decreases fuel
  {
    var owner := OwnerOf(h, t);
    if owner.to.None? then Some(NameOf(h, t))
    else if fuel == 0 || !InRange(h, owner.to.value) then None
    else
      match Display(h, owner.to.value, fuel - 1)
      case None => None
      case Some(prefix) => Some(prefix + "." + NameOf(h, t))
  }

  /** With a resolved owner the display is the owner's display, a dot, the name. */
  lemma DisplayWithOwner(h: PackageHeader, t: Referenceable, fuel: nat)
    requires InRange(h, t) && OwnerInRange(h, OwnerOf(h, t))
    requires OwnerOf(h, t).to.Some? && fuel > 0
    ensures Display(h, OwnerOf(h, t).to.value, fuel - 1).None? ==> Display(h, t, fuel).None?
    ensures Display(h, OwnerOf(h, t).to.value, fuel - 1).Some? ==>
      Display(h, t, fuel) == Some(Display(h, OwnerOf(h, t).to.value, fuel - 1).value + "." + NameOf(h, t))
  {
  }

  /** Every display that finishes ends with the entry's own name. */
  lemma DisplayEndsWithName(h: PackageHeader, t: Referenceable, fuel: nat)
    requires InRange(h, t) && Display(h, t, fuel).Some?
    ensures Text.EndsWith(Display(h, t, fuel).value, NameOf(h, t))
  {
    var owner := OwnerOf(h, t);
    if owner.to.Some? {
      var prefix := Display(h, owner.to.value, fuel - 1).value;
      var r := prefix + "." + NameOf(h, t);
      assert r[|r| - |NameOf(h, t)|..] == NameOf(h, t);
    }
  }

  /** The owner chain from `t` reaches an entry without an owner within `n`
      steps, never leaving the tables. */
  predicate ChainEnds(h: PackageHeader, t: Referenceable, n: nat)
    requires InRange(h, t)
    decreases n
  {
    var owner := OwnerOf(h, t);
    || owner.to.None?
    || (n > 0 && InRange(h, owner.to.value) && ChainEnds(h, owner.to.value, n - 1))
  }

  /** The display finishes exactly when the owner chain ends within the
      recursion depth: an acyclic chain is what makes `ToString` return. */
  lemma {:induction false} DisplayTerminates(h: PackageHeader, t: Referenceable, fuel: nat)
    requires InRange(h, t)
    ensures Display(h, t, fuel).Some? <==> ChainEnds(h, t, fuel)
    decreases fuel
  {
    var owner := OwnerOf(h, t);
    if owner.to.Some? && fuel > 0 && InRange(h, owner.to.value) {
      DisplayTerminates(h, owner.to.value, fuel - 1);
    }
  }

  /** More fuel never changes a display that was already computed. */
  lemma {:induction false} DisplayFuelMonotone(h: PackageHeader, t: Referenceable, fuel: nat, more: nat)
    requires InRange(h, t)
    requires fuel <= more
    requires Display(h, t, fuel).Some?
    ensures Display(h, t, more) == Display(h, t, fuel)
    decreases fuel
  {
    var owner := OwnerOf(h, t);
    if owner.to.Some? {
      var o := owner.to.value;
      assert fuel > 0 && InRange(h, o);
      var prefix := Display(h, o, fuel - 1);
      assert prefix.Some?;
      DisplayFuelMonotone(h, o, fuel - 1, more - 1);
      assert Display(h, t, fuel) == Some(prefix.value + "." + NameOf(h, t));
      assert Display(h, t, more) == Some(prefix.value + "." + NameOf(h, t));
    }
  }

  /** Two headers whose exports and imports agree on `Owner` and `Name` give
      every entry the same display: type, parent class, archetype, flags,
      package name and type name play no part. */
  predicate SameOwnersAndNames(h: PackageHeader, g: PackageHeader) {
    && |h.exports| == |g.exports| && |h.imports| == |g.imports|
    && (forall i :: 0 <= i < |h.exports| ==>
          h.exports[i].owner == g.exports[i].owner && h.exports[i].name == g.exports[i].name)
    && (forall i :: 0 <= i < |h.imports| ==>
          h.imports[i].owner == g.imports[i].owner && h.imports[i].name == g.imports[i].name)
  }

  lemma SameEntry(h: PackageHeader, g: PackageHeader, t: Referenceable)
    requires InRange(h, t) && SameOwnersAndNames(h, g)
    ensures InRange(g, t)
    ensures OwnerOf(h, t) == OwnerOf(g, t) && NameOf(h, t) == NameOf(g, t)
  {
    match t
    case ExportAt(i) =>
    case ImportAt(i) =>
  }

  lemma {:induction false} DisplayOnlyOwnerAndName(h: PackageHeader, g: PackageHeader, t: Referenceable, fuel: nat)
    requires InRange(h, t) && SameOwnersAndNames(h, g)
    ensures InRange(g, t)
    ensures Display(h, t, fuel) == Display(g, t, fuel)
    decreases fuel
  {
    SameEntry(h, g, t);
    var owner := OwnerOf(h, t);
    if owner.to.Some? && fuel > 0 && InRange(h, owner.to.value) {
      var o := owner.to.value;
      SameEntry(h, g, o);
      DisplayOnlyOwnerAndName(h, g, o, fuel - 1);
      var prefix := Display(h, o, fuel - 1);
      if prefix.Some? {
        assert Display(h, t, fuel) == Some(prefix.value + "." + NameOf(h, t));
        assert Display(g, t, fuel) == Some(prefix.value + "." + NameOf(g, t));
      }
    }
  }

  /** An entry that owns itself never finishes displaying, however deep the
      recursion is allowed to go: the original overflows its stack. */
  lemma {:induction false} SelfOwnedNeverDisplays(h: PackageHeader, t: Referenceable, fuel: nat)
    requires InRange(h, t)
    requires OwnerOf(h, t).to == Some(t)
    ensures Display(h, t, fuel).None?
  {
    if fuel > 0 {
      SelfOwnedNeverDisplays(h, t, fuel - 1);
    }
  }
}
