# XCom2ModTool core, modelled in Dafny

XCom2ModTool is a command-line tool for XCOM 2 mod authors. It builds a mod
(stages the project, cleans and restores the SDK's source and scripts, runs
the Unreal compiler, deploys), reads Unreal package headers and compressed
chunks, reads save-game headers, and works out where Steam keeps its
libraries. This project models the parts of it that compute something — the
binary readers, the text and path handling, the compiler-output filter and
the build plan — as pure Dafny functions over immutable data, and proves
what they guarantee.

The modules follow the program's classes:

- `Wrappers`: `Option`, `Result` and the `Error` kinds, one per exception
  type the program can raise on the modelled paths.
- `Numeric`: the fixed-width integer types, little-endian byte values,
  two's complement and decimal text.
- `Text`: the `string` operations the program relies on (`StartsWith`,
  `IndexOf`, `Split`, `Join`, `Replace`, `Trim`, ordinal case-insensitive
  comparison).
- `Encoding`: `Encoding.ASCII` and `Encoding.Unicode` (UTF-16LE) decoding,
  with encoders used to state round trips.
- `BinaryData`: `BinaryDataReader`. The stream is a `seq<byte>` and the
  reader's state is a `Cursor` holding the position, the references `Ref`
  has recorded and the `Push`/`Pop` stack. Every read returns the value and
  the new cursor, or the error the .NET reader would throw.
- `UnrealPackages`: the package records and the recursive display name of
  exports and imports.
- `PackageReader`: `ReadHeader` (summary, name, export and import tables at
  their offsets, then resolution of every recorded reference) and
  `ReadCompressedChunk`.
- `PackageInfo`: the quick package probe with its own string reader and the
  `PackageFlags` enum's `ToString`.
- `SaveGames`, `SaveGameReader`, `SaveGameInfo`: the save-game header, read
  by the full reader and by the quick probe.
- `ByteAbbreviation`: the JSON converter that prints printable byte runs as
  text and collapses everything else into dot runs.
- `PathHelper`: absolute and relative paths and the quoting of process
  arguments.
- `Compiler`: the compiler's command lines and the filter that rewrites,
  de-duplicates and drops the compiler's output lines.
- `ModMetadata`: the `.XComMod` file.
- `Steam`: reading library folders out of `libraryfolders.vdf`.
- `ModBuilder`: the standard SDK file sets, the smart clean-ups, and the
  order of steps a build takes.

File-system, registry, console and process effects are not modelled as
effects: what the program reads from them becomes a parameter, and what it
writes becomes the value a function returns.

## Model

| member | source | states |
|---|---|---|
| BinaryData.ReadBytes | BinaryDataReader.cs:61 | `Bytes(int)` returns the next min(count, remaining) bytes, exactly the stream's bytes, and advances by that many; a negative count is an argument error; the allocation failure of a huge count is not modelled |
| BinaryData.ReadBytesConcat | BinaryDataReader.cs:61 | two consecutive block reads take the same bytes as one read of the combined length |
| BinaryData.ReadBytesU | BinaryDataReader.cs:62-69 | `Bytes(uint)` rejects counts above int.MaxValue with ArgumentOutOfRange and otherwise reads like `Bytes(int)` |
| BinaryData.Fixed | BinaryDataReader.cs:70-80 | a fixed-width read succeeds exactly when n bytes remain, returns the stored bytes and advances by n; otherwise end of stream |
| BinaryData.U16 | BinaryDataReader.cs:78 | `U16` succeeds exactly when two bytes remain and advances by two |
| BinaryData.U32 | BinaryDataReader.cs:77 | `U32` succeeds exactly when four bytes remain, fails with end of stream otherwise, and advances by four |
| BinaryData.U64 | BinaryDataReader.cs:70 | `U64` succeeds exactly when eight bytes remain and advances by eight |
| BinaryData.U8 | BinaryDataReader.cs:79 | `U8` succeeds exactly when a byte remains and advances by one |
| BinaryData.I32 | BinaryDataReader.cs:80 | `I32` reads the same four bytes as `U32`, as two's complement |
| BinaryData.Bool | BinaryDataReader.cs:81 | `Bool` is true exactly when the four-byte word is non-zero |
| BinaryData.U64HL | BinaryDataReader.cs:71-76 | the first word read becomes the high half and the second the low half |
| BinaryData.U64HLSwapsWords | BinaryDataReader.cs:71-76 | `U64HL` equals a little-endian `U64` with its two words swapped |
| BinaryData.U64HLHalves | BinaryDataReader.cs:71-76 | the value's high 32 bits are the first word and its low 32 bits the second |
| BinaryData.U64HLRoundTrip | BinaryDataReader.cs:71-76 | a u64 stored high word first reads back as itself |
| BinaryData.FGuid | BinaryDataReader.cs:82 | sixteen stored bytes; a short read makes the Guid constructor throw an argument error |
| BinaryData.FGuidRoundTrip | BinaryDataReader.cs:82 | sixteen stored bytes read back as the Guid's bytes |
| BinaryData.Ref | BinaryDataReader.cs:83-88 | `Ref` reads a signed index, leaves it unresolved and appends it to the recorded references |
| BinaryData.RefRoundTrip | BinaryDataReader.cs:83-88 | a stored i32 reads back as an unresolved reference with that raw value, recorded at the end of the list |
| BinaryData.Name | BinaryDataReader.cs:90-101 | an index into the name table then a suffix; fails on a short stream or an index past the table; the result starts with the entry's name |
| BinaryData.SuffixedInjective | BinaryDataReader.cs:96-99 | two different suffixes of one entry never display alike |
| BinaryData.NameRoundTrip | BinaryDataReader.cs:90-101 | a stored (index, suffix) pair reads back as the entry's name, with `_<suffix-1>` when the suffix is not zero |
| BinaryData.NameExample | BinaryDataReader.cs:90-101 | index 1 with suffix 3 in the table ["Foo", "Bar"] reads as "Bar_2" |
| BinaryData.U16RoundTrip | BinaryDataReader.cs:78 | a stored u16 reads back as itself |
| BinaryData.U32RoundTrip | BinaryDataReader.cs:77 | a stored u32 reads back as itself |
| BinaryData.U64RoundTrip | BinaryDataReader.cs:70 | a stored u64 reads back as itself |
| BinaryData.I32RoundTrip | BinaryDataReader.cs:80 | a stored i32 reads back as itself |
| BinaryData.Push | BinaryDataReader.cs:102-106 | `Push` returns its argument and puts it on top of the stack |
| BinaryData.Pop | BinaryDataReader.cs:107 | `Pop` removes and returns the top of the stack; an empty stack is an invalid operation |
| BinaryData.PopAfterPush | BinaryDataReader.cs:102-107 | popping right after a push gives back the value and the reader as it was |
| BinaryData.FString | BinaryDataReader.cs:109-126 | a signed length, then that many bytes; a negative length means UTF-16 minus a two-byte terminator, a positive one ASCII minus a one-byte terminator |
| BinaryData.FStringAsciiAt | BinaryDataReader.cs:121-125 | a positive length n and n bytes read as the ASCII text of all but the last byte |
| BinaryData.FStringUtf16At | BinaryDataReader.cs:116-120 | a negative length -n and n bytes read as the UTF-16 text of all but the last two bytes |
| BinaryData.FStringAsciiRoundTrip | BinaryDataReader.cs:109-126 | an ASCII string stored with its length and terminator reads back as itself |
| BinaryData.FStringUtf16RoundTrip | BinaryDataReader.cs:109-126 | a string stored as UTF-16 with a negative length and a terminator reads back as itself |
| BinaryData.Detour | BinaryDataReader.cs:128 | the body runs at the new position; afterwards the position is restored, while what the body recorded and pushed stays |
| BinaryData.Repeat | BinaryDataReader.cs:136 | `count` elements built one after another; the first failure is the result |
| BinaryData.RepeatSplit | BinaryDataReader.cs:136 | reading m + n elements is reading m, then n more from where those stopped |
| BinaryData.RepeatFailsEarly | BinaryDataReader.cs:136 | once an element fails, reading more elements fails the same way |
| BinaryData.Array | BinaryDataReader.cs:130-137 | counts above int.MaxValue throw before anything is read; otherwise exactly `count` elements |
| BinaryData.CountedArray | BinaryDataReader.cs:139 | the count is a u32 read first; a short stream fails before any element |
| BinaryData.U32ArrayRoundTrip | BinaryDataReader.cs:136 | an array of stored words reads back word for word |
| UnrealPackages.DebugFlagIsBit22 | UnrealPackages/PackageFlags.cs:37 | `PackageFlags.Debug` is bit 22 |
| UnrealPackages.Display | UnrealPackages/PackageExport.cs:23-30 | no owner gives the bare name; an owner gives something longer than the name |
| UnrealPackages.DisplayWithOwner | UnrealPackages/PackageImport.cs:13-20 | with a resolved owner the display is the owner's display, a dot, then the name |
| UnrealPackages.DisplayEndsWithName | UnrealPackages/PackageExport.cs:23-30 | every display that finishes ends with the entry's own name |
| UnrealPackages.DisplayTerminates | UnrealPackages/PackageExport.cs:23-30 | the display finishes exactly when the owner chain reaches an entry without an owner |
| UnrealPackages.DisplayFuelMonotone | UnrealPackages/PackageExport.cs:23-30 | allowing deeper recursion never changes a display that already finished |
| UnrealPackages.DisplayOnlyOwnerAndName | UnrealPackages/PackageImport.cs:13-20 | only the owners and names of the records decide the display |
| UnrealPackages.SelfOwnedNeverDisplays | UnrealPackages/PackageExport.cs:23-30 | an entry that owns itself never finishes displaying, at any depth |
| PackageReader.RepeatAppendsRefs | UnrealPackages/PackageReader.cs:46-64 | reading records one after another appends each record's references to the reader's list, in order |
| PackageReader.ReadGlobalName | UnrealPackages/PackageReader.cs:35-37 | a name entry is an FString followed by a u64 of flags |
| PackageReader.ReadNames | UnrealPackages/PackageReader.cs:32-39 | the names loop yields exactly `nameCount` entries and records no references |
| PackageReader.GlobalNameRoundTrip | UnrealPackages/PackageReader.cs:35-37 | a stored name entry reads back as itself |
| PackageReader.NamesRoundTrip | UnrealPackages/PackageReader.cs:32-39 | a stored name table reads back entry for entry |
| PackageReader.ReadExportHead | UnrealPackages/PackageReader.cs:50-54 | type, parent class, owner, name and archetype take 24 bytes and record four references, all unresolved |
| PackageReader.ExportHeadFields | UnrealPackages/PackageReader.cs:50-54 | the type, parent class and owner are the signed words at 0, 4 and 8, the name is the name entry at 12, the archetype the word at 20 |
| PackageReader.ExportHeadRoundTrip | UnrealPackages/PackageReader.cs:50-54 | a stored export head reads back as itself and records its four raw references in field order |
| PackageReader.ReadExportFixed | UnrealPackages/PackageReader.cs:55-61 | the object flags are read high word first and the net object count is pushed |
| PackageReader.ExportFixedFields | UnrealPackages/PackageReader.cs:55-61 | the object flags are the high-word-first u64 at 0, then sizes, offset, export flags and net object count at 8-20, the Guid the sixteen bytes at 24 and the unknown word at 40 |
| PackageReader.ExportFixedRoundTrip | UnrealPackages/PackageReader.cs:55-61 | stored fixed fields read back as themselves, take 44 bytes and push the net object count |
| PackageReader.FixedAtSamePosition | UnrealPackages/PackageReader.cs:55-61 | the fixed fields depend only on the position, not on the references recorded or the stack |
| PackageReader.ReadExport | UnrealPackages/PackageReader.cs:48-63 | an export's net-unknown array has exactly `NetObjectCount` words, the record takes 68 + 4·count bytes, and the stack is as before |
| PackageReader.ExportFields | UnrealPackages/PackageReader.cs:48-63 | an export is the head read at its start, the fixed fields read 24 bytes on, and net-unknown words at 68 + 4i |
| PackageReader.ExportRoundTrip | UnrealPackages/PackageReader.cs:48-63 | a stored export reads back as itself, takes 68 + 4·count bytes and records its references in field order |
| PackageReader.ExportPartsRoundTrip | UnrealPackages/PackageReader.cs:48-63 | a stored export's head, fixed fields and net-unknown words each read back where the previous part stopped |
| PackageReader.ReadNetUnknown | UnrealPackages/PackageReader.cs:62 | the count popped is the one pushed last, and that many words are read |
| PackageReader.NetUnknownWords | UnrealPackages/PackageReader.cs:62 | the i-th net-unknown word is the word 4i bytes on |
| PackageReader.NetUnknownRoundTrip | UnrealPackages/PackageReader.cs:62 | stored words whose count is on top of the stack read back as themselves and pop the count |
| PackageReader.ReadImport | UnrealPackages/PackageReader.cs:73-79 | an import takes 28 bytes and records its owner reference unresolved |
| PackageReader.ImportFields | UnrealPackages/PackageReader.cs:73-79 | the package name, type name and name are the name entries at 0, 8 and 20, the owner the signed word at 16 |
| PackageReader.NameAtSamePosition | BinaryDataReader.cs:90-101 | a name read depends only on the position and the table, not on the references recorded or the stack |
| PackageReader.ImportRoundTrip | UnrealPackages/PackageReader.cs:73-79 | a stored import reads back as itself, takes 28 bytes and records its owner reference |
| PackageReader.ReadSummary | UnrealPackages/PackageReader.cs:16-26 | a wrong signature is rejected; otherwise version, licensee version, header size, the group FString and the flags |
| PackageReader.ReadSummaryFields | UnrealPackages/PackageReader.cs:22-26 | the group is the FString eight bytes after the signature, and the flags word follows it |
| PackageReader.ReadGroupAndFlags | UnrealPackages/PackageReader.cs:25-26 | the group FString and the flags word after it |
| PackageReader.SummaryRoundTrip | UnrealPackages/PackageReader.cs:16-26 | a stored header summary reads back as itself |
| PackageReader.SummaryFieldsRoundTrip | UnrealPackages/PackageReader.cs:22-26 | the stored fields after the signature read back as themselves |
| PackageReader.GroupAndFlagsRoundTrip | UnrealPackages/PackageReader.cs:25-26 | a stored group and flags word read back as themselves |
| PackageReader.WrongSignatureRejected | UnrealPackages/PackageReader.cs:16-20 | a header that does not begin with the package magic is rejected |
| PackageReader.ReadNameTable | UnrealPackages/PackageReader.cs:28-40 | a count and an offset; the main position moves past those two words only |
| PackageReader.ReadExportTable | UnrealPackages/PackageReader.cs:42-65 | `exportCount` export records read at the offset; their references are recorded in order |
| PackageReader.ReadImportTable | UnrealPackages/PackageReader.cs:67-81 | `importCount` import records read at the offset; their references are recorded in order |
| PackageReader.ReadTables | UnrealPackages/PackageReader.cs:28-81 | the three tables; the main position moves by 24 bytes and the references are the exports' then the imports' |
| PackageReader.PointerRoundTrip | UnrealPackages/PackageReader.cs:28-29 | a stored count and offset read back as the table's count and the position it is read from |
| PackageReader.NameTableRoundTrip | UnrealPackages/PackageReader.cs:28-40 | a name table stored at its offset reads back entry for entry, and the main position moves past the two words |
| PackageReader.ExportsRoundTrip | UnrealPackages/PackageReader.cs:46-64 | stored exports read back record for record, their references recorded in order |
| PackageReader.ExportTableRoundTrip | UnrealPackages/PackageReader.cs:42-65 | an export table stored at its offset reads back record for record, the main position moving by eight |
| PackageReader.ImportsRoundTrip | UnrealPackages/PackageReader.cs:71-80 | stored imports read back record for record, their owners recorded in order |
| PackageReader.ImportTableRoundTrip | UnrealPackages/PackageReader.cs:67-81 | an import table stored at its offset reads back record for record, the main position moving by eight |
| PackageReader.TablesRoundTrip | UnrealPackages/PackageReader.cs:28-81 | three stored tables read back as themselves; the references are the exports' then the imports' |
| PackageReader.RepeatStored | BinaryDataReader.cs:136 | records stored back to back, each of which reads back as itself, read back as the list, recording their references in order |
| PackageReader.RepeatAll | BinaryDataReader.cs:136 | what every single read guarantees of its element holds of every element of the array |
| PackageReader.Resolve | UnrealPackages/PackageReader.cs:85-92 | positive values count exports from 1, negative ones imports from -1, 0 names nothing; an index past a table throws |
| PackageReader.ResolveToRaw | UnrealPackages/PackageReader.cs:85-92 | every existing slot is reached from its raw value |
| PackageReader.ResolveAll | UnrealPackages/PackageReader.cs:83-93 | resolution succeeds exactly when every recorded reference names an existing slot, and resolves each one |
| PackageReader.ResolveExportResolves | UnrealPackages/PackageReader.cs:83-93 | resolving an export fills in all four references where their raw values point |
| PackageReader.ResolvedOwnersInRange | UnrealPackages/PackageReader.cs:83-93 | after resolution every owner lies inside the tables |
| PackageReader.ReadHeader | UnrealPackages/PackageReader.cs:13-96 | a wrong signature is rejected; a header read is resolved throughout, keeps the signature, and every recorded reference is valid |
| PackageReader.ReadHeaderOfParts | UnrealPackages/PackageReader.cs:13-96 | a summary, then tables whose references are all valid, make the header that links them |
| PackageReader.HeaderRoundTrip | UnrealPackages/PackageReader.cs:13-96 | a stored summary followed by the pointers of stored tables whose references are valid reads back as the linked header |
| PackageReader.Link | UnrealPackages/PackageReader.cs:83-95 | the assembled header keeps the tables' names and raw owners and resolves every reference |
| PackageReader.RecordRefsValid | UnrealPackages/PackageReader.cs:83-93 | when every recorded reference is valid, so is every reference field of every record |
| PackageReader.BlockCount | UnrealPackages/PackageReader.cs:109 | the ceiling of uncompressed size over block size: enough blocks, and one fewer would not be |
| PackageReader.Fit | Lzo.cs:80-91 | the output buffer has exactly the uncompressed size: what the decompressor wrote, then zeros |
| PackageReader.ReadBlock | UnrealPackages/PackageReader.cs:112-121 | a block needs its two size words or fails at the end of the stream; the data read has exactly `UncompressedSize` bytes, and the position moves past the sizes and at most `CompressedSize` raw bytes, never past the end; the allocation failure of a huge size is not modelled |
| PackageReader.BlockFields | UnrealPackages/PackageReader.cs:112-121 | a size above int.MaxValue is an argument error; otherwise the read succeeds exactly when the decompressor does, with the two stored sizes and the decompressed bytes fitted to the uncompressed size |
| PackageReader.BlockRoundTrip | UnrealPackages/PackageReader.cs:112-121 | a stored block whose raw bytes decompress to its data reads back as itself, past its raw bytes |
| PackageReader.BlocksRoundTrip | UnrealPackages/PackageReader.cs:110-122 | stored blocks read back block for block |
| PackageReader.ReadCompressedChunk | UnrealPackages/PackageReader.cs:98-125 | a short stream or a wrong signature is rejected before any size is read, a block size of 0 is an error; the block count is the ceiling of the sizes, every block's data has its uncompressed size, and each block moves the position by at least eight bytes |
| PackageReader.ChunkFields | UnrealPackages/PackageReader.cs:98-125 | a chunk read is the four header words in order, then its blocks read from sixteen bytes on up to where the read ends |
| PackageReader.ChunkHeadRoundTrip | UnrealPackages/PackageReader.cs:101-108 | the four stored header words read back in order |
| PackageReader.ChunkRoundTrip | UnrealPackages/PackageReader.cs:98-125 | a stored chunk, its header words and then its blocks, reads back as itself |
| PackageReader.RepeatStrides | UnrealPackages/PackageReader.cs:110-122 | blocks of at least eight bytes each move the position by at least eight per block |
| PackageInfo.ReadUnit | PackageInfo.cs:40 | one unit is a byte widened to a code unit, or two bytes low first; it fails exactly at the end of the stream |
| PackageInfo.ReadUnits | PackageInfo.cs:38-43 | the loop stops after a zero unit without keeping it, and keeps at most its allowance of units |
| PackageInfo.SourceUnits | PackageInfo.cs:36-53 | reading units from bytes fails only with end of stream, never runs past the stream, and narrow units are below 256 |
| PackageInfo.ReadFString | PackageInfo.cs:32-55 | a negative length reads wide units, a non-negative one narrow units; at most length + 1 units, none zero; int.MinValue gives the empty string |
| PackageInfo.UnitRoundTrip | PackageInfo.cs:40 | a stored unit reads back as itself in either form |
| PackageInfo.EncodedUnitsAt | PackageInfo.cs:38-53 | every stored unit is where the loop reads it |
| PackageInfo.UnitsPrefix | PackageInfo.cs:38-53 | non-zero units read one by one, after which the reading goes on from the last cursor |
| PackageInfo.EncodedChain | PackageInfo.cs:38-53 | the cursors of stored units form a chain the unit reader walks |
| PackageInfo.TerminatorStops | PackageInfo.cs:41 | a zero unit ends the string and is consumed |
| PackageInfo.UnitsRoundTrip | PackageInfo.cs:38-53 | terminated units within the allowance read back exactly, past the terminator |
| PackageInfo.FStringRoundTrip | PackageInfo.cs:32-55 | a string stored with its length and terminator reads back, in either form |
| PackageInfo.ReadFStringUnits | PackageInfo.cs:35-53 | after the length, the sign picks the form and the length picks the allowance |
| PackageInfo.LimitBeyondData | PackageInfo.cs:38 | any allowance beyond the bytes left reads the same: a length of int.MaxValue is bounded by the stream |
| PackageInfo.UnitsAtLimit | PackageInfo.cs:38-53 | a string that fills its whole allowance stops without a terminator |
| PackageInfo.DeclaredDescending | PackageInfo.cs:80-100 | the enum members in the order `Enum.ToString` visits them have strictly descending bits |
| PackageInfo.AllDeclared | PackageInfo.cs:80-100 | every named member is visited |
| PackageInfo.FlagNamed | PackageInfo.cs:80-100 | a name that parses to a member is that member's name |
| PackageInfo.FlagNamedName | PackageInfo.cs:80-100 | every member name parses back to its member |
| PackageInfo.NameHasNoBar | PackageInfo.cs:65 | no member name contains the separator `|` |
| PackageInfo.Strip | PackageInfo.cs:65 | the flags loop of `Enum.ToString` only takes declared members |
| PackageInfo.StripConserves | PackageInfo.cs:65 | what is left plus the value of the members taken is the original value |
| PackageInfo.StripTakes | PackageInfo.cs:65 | a member of a descending list is taken exactly when its bit is set |
| PackageInfo.StripTakesSetBits | PackageInfo.cs:65 | a member is printed exactly when its bit is set |
| PackageInfo.ParseNamesOfNames | PackageInfo.cs:65 | member names parse back to the members |
| PackageInfo.DecimalTextRoundTrip | PackageInfo.cs:65 | a value printed as a number parses back to the value |
| PackageInfo.NamesTextRoundTrip | PackageInfo.cs:65 | member names joined by `|` parse back to the sum of the members |
| PackageInfo.NoneTextRoundTrip | PackageInfo.cs:83 | the zero member's name parses back to zero |
| PackageInfo.FlagsTextRoundTrip | PackageInfo.cs:65 | the flags text determines the flags: every value's text parses back to it |
| PackageInfo.UnnamedBitsRoundTrip | PackageInfo.cs:65 | a value with an unnamed bit prints as its number, which parses back |
| PackageInfo.NamedBitsRoundTrip | PackageInfo.cs:65 | a non-zero value with only named bits prints as names, which parse back |
| PackageInfo.NameNotNone | PackageInfo.cs:83-99 | no member is named like the zero member |
| PackageInfo.NamesList | PackageInfo.cs:65 | a name appears in a list of names exactly when its member is in the list |
| PackageInfo.MemberShown | PackageInfo.cs:65 | when every set bit is named, a member's name is one of the `|`-separated parts exactly when its bit is set |
| PackageInfo.DebugShown | PackageInfo.cs:65-70 | when every set bit is named, `IsDebug` holds exactly when the text shows `Debug` |
| PackageInfo.Probe | PackageInfo.cs:10-30 | under four bytes nothing is read; the signature is always the first word; an invalid signature reads nothing more; non-zero flags imply a group was read |
| PackageInfo.ProbeFields | PackageInfo.cs:19-23 | the guarded reads assign each field as soon as it is read and keep the signature |
| PackageInfo.ProbeFieldsRoundTrip | PackageInfo.cs:19-23 | the fields after a valid signature read back as stored |
| PackageInfo.ProbeRoundTrip | PackageInfo.cs:10-30 | a complete header prefix probes as valid with exactly the stored fields |
| PackageInfo.ProbeSignatureOnly | PackageInfo.cs:14-28 | a file holding only a valid signature probes as valid with every later field at its default: the exception is swallowed |
| PackageInfo.FlagsTextAscii | PackageInfo.cs:65 | the flags text is ASCII |
| PackageInfo.Heading | PackageInfo.cs:65 | the text before the group begins with `V` and is ASCII |
| PackageInfo.InvalidTextIffInvalid | PackageInfo.cs:57-67 | the fixed "(Invalid Package)" text appears exactly for invalid packages |
| PackageInfo.ValidTextStart | PackageInfo.cs:63-66 | a valid package's text starts with the version label |
| PackageInfo.ToStringShowsFlags | PackageInfo.cs:65 | two valid packages agreeing on version and group print alike only when their flags are equal |
| PackageInfo.SignatureOnlyText | PackageInfo.cs:57-67 | a probe that stopped right after a valid signature prints as valid, with zero versions, an empty group and the zero member |
| SaveGames.ZeroChecksumField | SaveGameReader.cs:36-40 | bytes 8 to 11 of the header become zero and every other byte is kept |
| SaveGames.ZeroChecksumFieldIgnoresField | SaveGameReader.cs:36-41 | two headers that differ only in the checksum field are checksummed alike |
| SaveGames.HeaderWindow | SaveGameReader.cs:33-35 | the detour to offset 0 reads the first `headerByteCount` bytes of the file, fewer when the file is shorter |
| SaveGames.ReadChecksums | SaveGameReader.cs:30-42 | the header size and stored checksum; a size of 2^31 or more turns negative and throws; a window shorter than 12 bytes fails on the zeroing; the computed checksum covers the zeroed window; the position is unchanged by the detour |
| SaveGames.ChecksumCheckIgnoresStoredChecksum | SaveGameReader.cs:36-41 | rewriting the stored checksum leaves the computed checksum unchanged |
| SaveGames.Describe | SaveGameReader.cs:47-69 | save name and mission type are parts 2 and 3; the operation and map name are set exactly for a tactical save |
| SaveGames.DescribeJoined | SaveGameReader.cs:47-69 | a description stored as newline-joined fields gives back the fields: operation and map are parts 4 and 7 and the game time parts 5-6 when tactical, otherwise the game time is parts 4-5 |
| SaveGames.DescribeSingleLine | SaveGameReader.cs:22 | a description without a newline is all save date, and every missing part reads as empty text |
| SaveGames.ReadSizes | SaveGameReader.cs:43-45 | the uncompressed size, campaign number and save slot, twelve bytes |
| SaveGames.ReadSituation | SaveGameReader.cs:47-69 | three strings then a flag, each read where the previous stopped: the first is split on newlines and mapped using the flag, the second gives the save date from its first two parts, the third is the map command; a failing first string is the result |
| SaveGames.SituationInOrder | SaveGameReader.cs:47-69 | three stored strings and a stored flag read back as the situation those strings and that flag describe |
| SaveGames.ReadFlags | SaveGameReader.cs:70-72 | succeeds exactly when twelve bytes remain; ironman, autosave and quicksave are whether the three consecutive words are non-zero |
| SaveGames.FlagsRoundTrip | SaveGameReader.cs:70-72 | three stored words read back as whether each is non-zero |
| SaveGames.ReadWords | SaveGameReader.cs:74-77 | succeeds exactly when sixteen bytes remain; the two unknown words and the archive versions are the four consecutive words, in order |
| SaveGames.ReadSettings | SaveGameReader.cs:70-80 | a short stream fails before anything else; the three flags, then the language string, then the four words, then the campaign start, image and player-name strings, each read where the previous stopped |
| SaveGames.ReadStringArray | SaveGameReader.cs:82-87 | a u32 count, then exactly that many strings |
| SaveGames.ReadStrings | SaveGameReader.cs:84-87 | `count` strings, each read where the previous one stopped; the first failure is the result |
| SaveGames.ReadStringsInOrder | SaveGameReader.cs:84-87 | reads that each give the next string yield the strings in file order |
| SaveGames.StringArrayInOrder | SaveGameReader.cs:82-87 | a stored count followed by stored strings reads back as those strings |
| SaveGames.ReadDlc | SaveGameReader.cs:82-94 | a stream without a count fails; the pack names are the first counted array, and the friendly names the second array, read where the first stopped and ending where the read ends |
| SaveGames.ReadMission | SaveGameReader.cs:96-106 | before version 21 nothing is read; from 21 on a short stream fails, otherwise the four words, then the mission type string, then the three flags read after it, ending where the read ends |
| SaveGames.ReadLadder | SaveGameReader.cs:107-110 | the ladder flag is read only from version 22 on, and is false before |
| SaveGames.ReadBody | SaveGameReader.cs:43-110 | the sizes come first; the situation, settings, DLC lists, mission block and ladder flag follow, each read where the previous stopped; the mission block exists exactly from version 21 and the ladder flag from 22 |
| SaveGameReader.ReadChunks | SaveGameReader.cs:120-127 | chunks are read until the position is the end; none at the end; a failing chunk fails the loop; otherwise the first chunk is the one read at the position and the rest is the loop from where it stopped |
| SaveGameReader.ChunksInOrder | SaveGameReader.cs:120-127 | chunks stored back to back up to the end of the file are read as the chunk list, in file order |
| SaveGameReader.ExpectSignature | SaveGameReader.cs:112-118 | the next word must be the package magic; the position is put back, so the stream is not at its end |
| SaveGameReader.ReadAfterVersion | SaveGameReader.cs:30-118 | the checksums, then the body read eight bytes on, then the package magic, at which the returned position stands; no mission block before version 21 and no ladder flag before 22 |
| SaveGameReader.ReadPreamble | SaveGameReader.cs:24-28 | a version outside 20..22 is rejected; after an accepted preamble the returned position is at the package magic, not at the end of the stream, so the chunk loop runs at least once |
| SaveGameReader.ReadToEnd | SaveGameReader.cs:13-130 | the preamble's failure is the result; a save read keeps the preamble's version, checksums and body, and its chunks are the chunk loop run from the signature: at least one, every one with the signature |
| SaveGameReader.ReadsSupportedSave | SaveGameReader.cs:13-130 | a supported version, checksums, a body, the package magic and chunks up to the end read as exactly that save game |
| SaveGameReader.UnsupportedVersionRejected | SaveGameReader.cs:24-28 | a file whose first word is outside 20..22 is rejected |
| SaveGameReader.MissingSignatureRejected | SaveGameReader.cs:112-117 | a preamble not followed by the package magic is rejected |
| SaveGameInfo.Read | SaveGameInfo.cs:17-106 | a file under four bytes fails; otherwise everything after the version is read whatever the version |
| SaveGameInfo.ReadAfterVersion | SaveGameInfo.cs:25-105 | checksums first; the mission block exactly from version 21, the ladder flag from 22 |
| SaveGameInfo.ReadsAnyVersion | SaveGameInfo.cs:24-105 | whatever the version and whatever word follows, a complete preamble is read and the word is kept as `UpkCheck` |
| SaveGameInfo.AcceptsWhatReaderRejects | SaveGameInfo.cs:24 | a header whose version the full reader rejects is still read by the probe |
| ByteAbbreviation.Dots | AbbreviatedByteArrayJsonConverter.cs:30-34 | `n` dots and nothing else |
| ByteAbbreviation.RunLength | AbbreviatedByteArrayJsonConverter.cs:25 | the length of the maximal run of unprintable bytes at the front |
| ByteAbbreviation.Abbreviate | AbbreviatedByteArrayJsonConverter.cs:18-37 | the text is never longer than the bytes and holds only printable ASCII; no bytes give empty text |
| ByteAbbreviation.WriteJson | AbbreviatedByteArrayJsonConverter.cs:18-37 | the converter's loop writes each printable byte as itself and each maximal run of other bytes as at most two dots |
| ByteAbbreviation.ScanRun | AbbreviatedByteArrayJsonConverter.cs:30-34 | a run of unprintable bytes entered with `d` dots written adds dots only up to two in all |
| ByteAbbreviation.ScanAfterRun | AbbreviatedByteArrayJsonConverter.cs:25-27 | once a printable byte comes, the dot count before it no longer matters |
| ByteAbbreviation.ScanIsAbbreviate | AbbreviatedByteArrayJsonConverter.cs:22-35 | the byte-at-a-time loop and the run-by-run statement agree on every input |
| ByteAbbreviation.PrintableUnchanged | AbbreviatedByteArrayJsonConverter.cs:25-29 | printable bytes are written unchanged, character for byte |
| ByteAbbreviation.ScanCons | AbbreviatedByteArrayJsonConverter.cs:23-35 | one step of the loop: what a byte adds and the dot count after it |
| ByteAbbreviation.ScanSplit | AbbreviatedByteArrayJsonConverter.cs:23-35 | the loop output splits at a printable byte, whatever the dot count coming in |
| ByteAbbreviation.AbbreviateSplit | AbbreviatedByteArrayJsonConverter.cs:18-37 | bytes ending in a printable byte are abbreviated independently of what follows |
| ByteAbbreviation.ReadJson | AbbreviatedByteArrayJsonConverter.cs:11-16 | reading is not supported: every input throws |
| PathHelper.MakeAbsolute | PathHelper.cs:24-32 | an absolute path is returned as it is; a relative one is combined with the parent and made full |
| PathHelper.AsFolder | PathHelper.cs:46-49 | the parent folder ends with exactly one added separator, or is kept when it already ends with one |
| PathHelper.AsFolderIdempotent | PathHelper.cs:46-49 | a folder that already ends with the separator is not given a second |
| PathHelper.ReplaceChar | PathHelper.cs:51 | every `/` becomes the separator and every other character is kept |
| PathHelper.MakeRelative | PathHelper.cs:34-52 | succeeds exactly when both paths are absolute, otherwise an argument error; the result is the unescaped relative URI against the folder form of the parent |
| PathHelper.FoundAfterStartIff | PathHelper.cs:60-61 | the `IndexOf(...) > 0` test holds exactly when the character occurs and the argument does not start with it |
| PathHelper.EscapeAndJoinArguments | PathHelper.cs:54-73 | each argument escaped as the code does, then joined by single spaces; no arguments give the empty text |
| PathHelper.EscapeEach | PathHelper.cs:56-71 | every argument is escaped, in order |
| PathHelper.EscapeAndJoinArgumentsFixed | PathHelper.cs:54-73 | with the intended quote and space test, the joined line parses back to exactly the arguments |
| PathHelper.Undouble | PathHelper.cs:64 | undoing the doubling never lengthens the text |
| PathHelper.ScanConcat | PathHelper.cs:66-69 | the quote scanning of a line is compositional |
| PathHelper.DoubledStaysQuoted | PathHelper.cs:62-69 | an argument with every quote doubled, inside quotes, has no bare space and stays quoted |
| PathHelper.UndoubleDouble | PathHelper.cs:64 | undoing the doubling gives the argument back |
| PathHelper.UndoubleNoQuotes | PathHelper.cs:64 | text without quotes is unchanged by undoubling |
| PathHelper.Wrapped | PathHelper.cs:66-69 | wrapping in quotes makes a single piece that closes its quotes |
| PathHelper.EscapedPiece | PathHelper.cs:59-70 | with the intended test, an escaped argument is one piece that unquotes to the argument |
| PathHelper.PlainIsDoubled | PathHelper.cs:62-65 | without quotes, doubling changes nothing |
| PathHelper.PlainScan | PathHelper.cs:61 | text with neither quotes nor spaces keeps the quoting state |
| PathHelper.PiecesAlone | PathHelper.cs:72 | text without a bare space is a single piece |
| PathHelper.PiecesFirst | PathHelper.cs:72 | a closed piece followed by a space separates from the rest |
| PathHelper.PiecesOfJoin | PathHelper.cs:72 | the joined line splits back into the escaped arguments |
| PathHelper.CommandLineRoundTrip | PathHelper.cs:54-73 | with the intended test, the joined line parses back to exactly the arguments |
| PathHelper.EscapeAgrees | PathHelper.cs:60-69 | for an argument that does not start with a quote or a space, the code as written escapes as intended |
| PathHelper.CommandLineRoundTripAsWritten | PathHelper.cs:54-73 | hence the line as written parses back when no argument starts with a quote or a space |
| PathHelper.DoubleQuotesCons | PathHelper.cs:64 | doubling works a character at a time |
| PathHelper.DoubledExample | PathHelper.cs:64 | `x"y` doubles to `x""y` |
| PathHelper.EscapeCollision | PathHelper.cs:60-69 | as written, `x"y` and `"x""y"` escape to the same text |
| PathHelper.PiecesExample | PathHelper.cs:72 | ` x y` splits into an empty piece, `x` and `y` |
| PathHelper.LeadingSpaceSplits | PathHelper.cs:61-69 | as written, ` x y` is left unquoted and parses back as three arguments |
| Compiler.Except | Compiler.cs:33 | LINQ `Except` never lengthens its input |
| Compiler.ExceptFacts | Compiler.cs:33 | `Except` keeps exactly the elements outside the excluded set, with no repeats, in their original order |
| Compiler.SubsequenceSkip | Compiler.cs:33 | skipping the head of the longer list keeps the subsequence relation |
| Compiler.CompileArguments | Compiler.cs:29-34 | with the debug option the arguments pass unchanged; without it `-debug` is gone, no argument repeats, order is kept, and every other argument survives |
| Compiler.ExceptOfDistinct | Compiler.cs:33 | a list without repeats or excluded elements passes `Except` unchanged |
| Compiler.ExceptCons | Compiler.cs:33 | an excluded head is skipped; any other head is kept and excluded from the rest |
| Compiler.SwitchLengths | Compiler.cs:25 | the fixed switches of a mod build all differ in length |
| Compiler.DistinctFour | Compiler.cs:25 | four pairwise different texts make a list without repeats |
| Compiler.ExceptSecond | Compiler.cs:33 | excluding the second element keeps the first and excludes it from the rest |
| Compiler.ModArgumentsWithoutDebug | Compiler.cs:25-34 | a mod build without the debug option passes exactly `make -nopause -mods <name> <staging>` |
| Compiler.RepeatedArgumentDropped | Compiler.cs:25-34 | when the staging path equals the mod name, `Except` also drops the repeated name |
| Compiler.RepeatedLast | Compiler.cs:33 | a repeated last element is dropped by `Except` |
| Compiler.ModCommandLineReadsBack | Compiler.cs:25-39 | the command line of a mod build parses back to the arguments passed, when the name and path start with neither a quote nor a space |
| Compiler.LastIndexOf | Compiler.cs:125 | the index found holds the character and no later index does; none is found only when the character is absent |
| Compiler.LineEnd | Compiler.cs:121 | `.*` stops at the first line feed |
| Compiler.SavedPackage | Compiler.cs:121-122 | a match is the saving prefix, a line-feed-free name and a closing quote at some position |
| Compiler.MatchSpans | Compiler.cs:121 | the prefix, the window up to a quote, and the quote occur together |
| Compiler.DigitRun | Compiler.cs:133 | the run of digits is maximal and stays inside the text |
| Compiler.DigitsBefore | Compiler.cs:133 | a found run is non-empty, all digits, and followed by the expected literal |
| Compiler.CountsAt | Compiler.cs:133-134 | a match at a position is `Success - ` or `Failure - `, digits, ` error(s), `, digits and ` warning(s)` |
| Compiler.Counts | Compiler.cs:133-134 | the leftmost count match is a match at some later position; none is found only when no position matches |
| Compiler.Classify | Compiler.cs:97-166 | the branches are tried in the code's order: a null or noise line, then a success message, then counts, then a diagnostic, else any other line |
| Compiler.Tallied | Compiler.cs:137-143 | counts beyond `int` fail to parse; both zero drops the line; otherwise it is rewritten as `<e> errors and <w> warnings` |
| Compiler.Deduplicated | Compiler.cs:152-163 | a diagnostic already seen is dropped; the line always joins the seen set; a new one is written with its paths rewritten |
| Compiler.Apply | Compiler.cs:115-167 | what each kind of line becomes; only the diagnostic branch adds to the seen set, and it never removes from it |
| Compiler.FilterOutput | Compiler.cs:97-168 | a null line is dropped; any other line is handled by its kind |
| Compiler.Run | Compiler.cs:53-55 | a run gives one outcome per line and, for a filter that only adds to it, a growing seen set |
| Compiler.OutputFilterGrowing | Compiler.cs:152-157 | the output filter only ever adds to the seen set |
| Compiler.FilterLines | Compiler.cs:53-55 | the lines of one compiler run share one seen set, which only grows |
| Compiler.RunStep | Compiler.cs:53-55 | a successful run filters its first line successfully and runs on from that seen set |
| Compiler.RunKnownDropped | Compiler.cs:152-156 | a line whose key is already seen is dropped wherever it comes |
| Compiler.RunOnce | Compiler.cs:152-157 | a line the filter remembers is dropped at every later occurrence |
| Compiler.DiagnosticWrittenOnce | Compiler.cs:53-157 | an error or warning line that repeats within one run is dropped the second time |
| Compiler.TallyTextReadsBack | Compiler.cs:143 | the rewritten count line splits into the two counts and the words between, and the counts read back |
| Compiler.TallyTextJoins | Compiler.cs:143 | the count line is the five words joined by spaces |
| ModMetadata.FromProject | ModMetadata.cs:9-15 | the metadata copies the title, description and publish id, and requires the expansion exactly for the expansion edition |
| ModMetadata.Lines | ModMetadata.cs:26-33 | five lines for an expansion mod, four otherwise |
| ModMetadata.WriteAllLines | ModMetadata.cs:26-33 | the text is empty exactly when there are no lines |
| ModMetadata.LineLength | ModMetadata.cs:26-33 | the first line stops at the first line break |
| ModMetadata.NextLine | ModMetadata.cs:26-33 | the next line starts past the break, so reading always advances |
| ModMetadata.ReadAllLines | ModMetadata.cs:26-33 | no line read back holds a line break |
| ModMetadata.LineLengthOfLine | ModMetadata.cs:26-33 | a written line ends where its break starts |
| ModMetadata.ReadWriteLines | ModMetadata.cs:26-33 | lines without breaks read back as written |
| ModMetadata.NoLineBreakConcat | ModMetadata.cs:27-29 | joining two single lines gives a single line |
| ModMetadata.ConstantsHaveNoBreak | ModMetadata.cs:26-32 | the section, keys and expansion line are single lines |
| ModMetadata.Parse | ModMetadata.cs:26-33 | a metadata file has four or five lines, and five exactly when it requires the expansion |
| ModMetadata.KeyValue | ModMetadata.cs:27-29 | a `key=value` line starts with the key and holds the value after it |
| ModMetadata.ParseLines | ModMetadata.cs:26-33 | the lines written parse back as the metadata they came from |
| ModMetadata.ExpansionLineIff | ModMetadata.cs:30-33 | the expansion line is written exactly when the mod requires the expansion, as the fifth line |
| ModMetadata.ContentRoundTrip | ModMetadata.cs:22-35 | the file read back line by line parses as the metadata, when title and description are single lines |
| ModMetadata.SaveProject | ModMetadata.cs:9-37 | a saved project's file reads back as its title, description, publish id and edition |
| Steam.LibraryPath | Steam.cs:36-44 | a line without the `"path"` token adds nothing; the substring throws exactly when the first token ends the line; a value added is never empty |
| Steam.ValueOf | Steam.cs:40-44 | an empty cleaned value is skipped |
| Steam.Collect | Steam.cs:33-47 | the loop adds at most one path per line |
| Steam.FindLibraryPaths | Steam.cs:29-48 | at most one library path per line of the file |
| Steam.CollectFailsIff | Steam.cs:34-46 | the loop fails exactly when some line fails, with the first such line's error |
| Steam.CollectValues | Steam.cs:34-46 | every path collected is the value of some line |
| Steam.CollectAppend | Steam.cs:34-46 | the paths of two files one after the other are the paths of each, in order |
| Steam.FindLibraryPathsFacts | Steam.cs:29-48 | the read fails exactly when a line ends at its first token, with an out-of-range error; otherwise every path is non-empty |
| Steam.FindAppend | Steam.cs:34-46 | paths are found line by line |
| Steam.CollectNone | Steam.cs:37 | lines that add nothing give no paths |
| Steam.OnlyTokenLinesCount | Steam.cs:36-37 | a file without the token lists no library |
| Steam.Escaped | Steam.cs:40 | the file's escaping adds no quotes and keeps a non-empty path non-empty |
| Steam.UnescapeEscaped | Steam.cs:40 | collapsing doubled backslashes undoes the escaping |
| Steam.TrimStartSkip | Steam.cs:40 | leading trimmed characters go |
| Steam.TrimBetween | Steam.cs:40 | trimming stops at the first and last characters kept |
| Steam.TrimEndLast | Steam.cs:40 | a trailing trimmed character goes and trimming stops before it |
| Steam.TrimQuoted | Steam.cs:40 | white space then a quoted escaped path trims down to the escaped path |
| Steam.TokenAt | Steam.cs:36 | the token is found right after quote-free indentation |
| Steam.EntryRoundTrip | Steam.cs:36-44 | a `"path"` entry as the file writes it reads back as the path |
| Steam.LibraryPathAt | Steam.cs:36-40 | once the token is found, the value is taken one character past it |
| Steam.ValueAfterToken | Steam.cs:39 | the text one character past the token is the rest of the gap and the quoted value |
| Steam.CleanQuoted | Steam.cs:40 | the cleaned value of a quoted escaped path is the path |
| Steam.TokenAtEndThrows | Steam.cs:36-39 | a line ending at its first token throws, and so does the whole read |
| ModBuilder.Union | ModBuilder.cs:37-47 | `Enumerable.Union` holds exactly the elements of either list, with no repeats |
| ModBuilder.UnionInto | ModBuilder.cs:37-47 | the union added to a repeat-free prefix holds both and stays repeat-free |
| ModBuilder.WithExtension | ModBuilder.cs:37 | one name with the extension appended per folder, in order |
| ModBuilder.AnyIgnoreCaseUnion | ModBuilder.cs:37-47 | a case-insensitive match in a union is a match in either part |
| ModBuilder.AnyIgnoreCasePair | ModBuilder.cs:43-47 | a case-insensitive match among two names is a match with one of them |
| ModBuilder.AnyIgnoreCaseExtension | ModBuilder.cs:37-41 | a case-insensitive match among names with an extension appended is a match of a name plus the extension |
| ModBuilder.StandardModuleIff | ModBuilder.cs:43-47 | a manifest module is standard exactly when it is a standard source folder, `WinDrv` or `XAudio2`, ignoring case |
| ModBuilder.StandardScriptIff | ModBuilder.cs:37-41 | a compiled script is standard exactly when it is a standard folder's `.u` file, `DO_NOT_DELETE.TXT` or `Manifest.txt`, ignoring case |
| ModBuilder.Where | ModBuilder.cs:239-253 | filtering keeps exactly the elements that pass, and never lengthens |
| ModBuilder.WhereAppend | ModBuilder.cs:239-253 | filtering is done line by line |
| ModBuilder.WhereIdempotent | ModBuilder.cs:239-253 | a second smart clean of the manifest changes nothing |
| ModBuilder.SmartCleanSource | ModBuilder.cs:175-193 | exactly the non-standard folders are deleted, and every loose file |
| ModBuilder.SmartCleanScripts | ModBuilder.cs:226-234 | exactly the non-standard compiled-script files are deleted |
| ModBuilder.RemoveEmpty | ModBuilder.cs:242 | no empty entry survives, and none is added |
| ModBuilder.Words | ModBuilder.cs:242 | the words of a line are non-empty and hold no space |
| ModBuilder.RemoveEmptySubset | ModBuilder.cs:242 | removing empty entries only removes |
| ModBuilder.RemoveEmptyNone | ModBuilder.cs:242 | without empty entries, nothing is removed |
| ModBuilder.SmartCleanManifest | ModBuilder.cs:238-253 | the in-place loop with `RemoveAt(i); --i` keeps exactly the lines the filter keeps, in order |
| ModBuilder.WhereSnoc | ModBuilder.cs:239-253 | filtering one more line adds it exactly when it is kept |
| ModBuilder.RemoveAtParts | ModBuilder.cs:249 | `RemoveAt(i)` keeps the part before `i` and moves the rest down |
| ModBuilder.KeepStep | ModBuilder.cs:239-252 | a kept line joins the filtered prefix and the loop moves on |
| ModBuilder.DropStep | ModBuilder.cs:246-251 | a removed line leaves the filtered prefix unchanged and the next line takes its place |
| ModBuilder.ShortLineKept | ModBuilder.cs:243 | a line with fewer than three words is never removed |
| ModBuilder.ModuleLineKeptIff | ModBuilder.cs:243-251 | a line with three or more words is kept exactly when its third word is a standard module |
| ModBuilder.JoinedLineKeptIff | ModBuilder.cs:242-246 | a line written as words joined by single spaces is judged by its third word |
| ModBuilder.Preamble | ModBuilder.cs:84-98 | loading, the title warning and staging neither compile nor deploy |
| ModBuilder.BuildPlan | ModBuilder.cs:79-131 | a build starts by loading the project and ends by deploying, which happens once |
| ModBuilder.NoSourceNoCompile | ModBuilder.cs:92-130 | without source nothing is compiled, yet the four folders and the metadata are staged and the mod deployed |
| ModBuilder.CompilesIff | ModBuilder.cs:100-125 | the mod is compiled exactly when it has source; the game exactly when it has source and the build is not smart |
| ModBuilder.GameBeforeMod | ModBuilder.cs:104-125 | a full or fast build compiles the game before the mod |
| ModBuilder.FullFastDiffer | ModBuilder.cs:104-117 | full and fast builds differ only where one deletes all compiled scripts and the other only the mod's |
| ModBuilder.Execute | ModBuilder.cs:257-273 | the steps that ran are a prefix of the plan; the run ends at the first failing compile, or reaches the end when none fails |
| ModBuilder.DeploysIff | ModBuilder.cs:125-273 | the mod is deployed exactly when no compile step fails |
| ModBuilder.NoSourceAlwaysDeploys | ModBuilder.cs:100-130 | a build of a mod without source always runs to the end |
| Encoding.DecodeAscii | BinaryDataReader.cs:124 | `Encoding.ASCII` gives one character per byte, the byte itself below 128 and `?` above |
| Encoding.AsciiRoundTrip | BinaryDataReader.cs:124 | ASCII text encoded as bytes decodes back to itself |
| Encoding.DecodeUtf16 | BinaryDataReader.cs:119 | `Encoding.Unicode` never gives more characters than bytes |
| Encoding.Utf16CharRoundTrip | BinaryDataReader.cs:119 | one character's code units decode back to the character, whatever follows |
| Encoding.Utf16RoundTrip | BinaryDataReader.cs:119 | text encoded as UTF-16LE decodes back to itself |
| Numeric.ToSigned32 | BinaryDataReader.cs:80 | `ReadInt32` is negative exactly when the top bit is set and agrees with the word modulo 2^32 |
| Numeric.SignedRoundTrip | BinaryDataReader.cs:80 | reinterpreting as signed and back gives the word |
| Numeric.LittleEndianRoundTrip | BinaryDataReader.cs:70-80 | a value stored in n little-endian bytes reads back as itself |
| Numeric.Decimal | ModMetadata.cs:27 | the decimal form is non-empty digits without a leading zero |
| Numeric.DecimalRoundTrip | ModMetadata.cs:27 | the decimal form reads back as the number |
| Numeric.DecimalInjective | ModMetadata.cs:27 | different numbers have different decimal forms |
| PathHelper.ParseCommandLine | PathHelper.cs:54-73 | a command line always reads as at least one argument |

`Compiler.EscapeAndJoinArguments` (Compiler.cs:76-95) is a copy of
`PathHelper.EscapeAndJoinArguments` (PathHelper.cs:54-73), including the
`IndexOf(...) > 0` test, so one definition in `PathHelper` serves both and
`Compiler.CommandLine` calls it.

`PathHelper.ParseCommandLine` is not in the program. It is a reference reading
of a command line, the inverse that the quoting is meant to have: it splits at
spaces outside quotes, strips the wrapping quotes and undoes the doubled
quotes. The quoting is checked against it.

## Left out

- The LZO decompressor (Lzo.cs, a native call) is the `decompress` parameter. It gives back the bytes it wrote, or fails. `PackageReader.Fit` models the fixed-size output buffer around it.
- The BZip2 CRC is the `crc` parameter of the save readers. Its code is not part of this model.
- `DateTime.TryParseExact` (SaveGameReader.cs:132-148, SaveGameInfo.cs:109-126) is the pair of `DateParsers`. Dates are opaque `DateTime` values. The console write in SaveGameInfo.cs:111 is left out.
- `Path.GetFullPath`, `Path.Combine`, `Path.IsPathRooted`, `Uri.MakeRelativeUri` and `Uri.UnescapeDataString` are the fields of `PathHelper.PathSystem`. They are platform file-system logic.
- `Path.GetFileName` and the `ReplacePaths` regular-expression substitution of `FilterOutput` are the fields of `Compiler.Environment`. `Report.Verbose` output is the `Verbose` outcome.
- The compiler process is not modelled: starting it, redirecting its output and polling for exit. Its exit status becomes the `succeeds` parameter of `ModBuilder.Execute`. Standard output and standard error share one duplicate set. `Compiler.FilterLines` models them as one sequence of lines, and does not model how the two streams interleave.
- `Compiler.CompileShaders` (Compiler.cs:27) is never called by a build (ModBuilder.cs:126). Only its argument list `ShaderArguments` is modelled.
- Culture-sensitive `IndexOf`, `StartsWith` and `Contains` are modelled as ordinal comparison. `OrdinalIgnoreCase` is modelled as folding ASCII letters only, since every standard name is ASCII.
- ModBuilder's file-system work is a sequence of `Step` values, not effects. This covers deleting, copying, creating directories, `DirectoryHelper`, and the staging and deploy copies. `modHasSourceCode` (ModBuilder.cs:68) and the title comparison (ModBuilder.cs:87) are parameters.
- `ModBuilder.SmartCleanSource` and `ModBuilder.SmartCleanScripts` return the names they would delete. The directory listings they filter are parameters.
- `ModProject.Load` (XML) is not modelled. `ModMetadata.Project` carries the four values the metadata copies.
- `Steam.FindInstallPath` (registry), `TryFindApp` and the workshop lookups are not modelled. `FindLibraryPaths` takes the lines of `libraryfolders.vdf` as input.
- I/O exceptions other than those the readers raise on a short stream are not modelled. This includes a missing file and an access error.
- JSON plumbing is not modelled beyond `ByteAbbreviation`: `HexJsonConverter`, `StringJsonConverter`, `ObjectReferenceJsonConverter` and the console, settings and UI code.
- UnrealPackages.Display: the source recurses along the owner chain with no cycle guard. The model bounds the depth with `fuel` and returns `None` when it runs out. `DisplayTerminates` and `DisplayFuelMonotone` show that enough fuel gives the source's result exactly when the owner chain ends. `SelfOwnedNeverDisplays` shows that a cycle never finishes, where the source would overflow its stack.
- PackageReader.BlockCount: a block size of 0 is the error `UndefinedBlockCount`. In the source, the division is done in `double` and the cast of infinity or NaN to `uint` is platform dependent.
- PackageInfo.ReadFString: with a length of `int.MaxValue`, the loop test `i <= length` never fails in the source. The loop runs until a zero unit or the end of the stream. The model uses an allowance of the remaining bytes plus one, which gives the same result.
- BinaryData.ReadBytes: `BinaryReader.ReadBytes` allocates a `count`-byte array before it reads. A count above the largest array .NET allows (0x7FFFFFC7 bytes), or above the memory available, throws `OutOfMemoryException`. The model has no such error and returns the bytes that remain. `BinaryData.ReadBytesU`, `BinaryData.FString` (a stored length near int.MaxValue, BinaryDataReader.cs:118,123), `SaveGames.ReadChecksums` (a header size near int.MaxValue, SaveGameReader.cs:35, SaveGameInfo.cs:30) and the raw bytes of `PackageReader.ReadBlock` inherit the gap. The limit that matters depends on the memory of the machine, which the model does not know.
- PackageReader.ReadBlock: the source allocates two `UncompressedSize`-byte output arrays (UnrealPackages/PackageReader.cs:118-119) and a `CompressedSize`-byte input array before decompressing. A size too large to allocate throws `OutOfMemoryException` there. The model reads the block, and its data has exactly `UncompressedSize` bytes, whatever the size.
- SaveGames.ReadDlc: the source allocates each string array before reading it. A huge count therefore fails with an out-of-memory error, where the model fails at the end of the stream.
- UnrealPackages/PackageHeader.cs declares no `Names`, `Exports` or `Imports`, though UnrealPackages/PackageReader.cs:39,46,71 assigns them; the model's `PackageHeader` has all three.
- SaveGameInfo.cs:20 calls `PackageInfo`'s private `ReadFString`; the model calls `PackageInfo`'s string reader directly.
- The line break `ModMetadata.NewLine` is `"\r\n"`: the `WriteLine` calls of ModMetadata.cs:24-32 end each line with `Environment.NewLine`, which is that only on Windows, the tool's platform.
- `Program.DefaultEncoding` (UTF-8 without a byte-order mark, Program.cs:21) is not modelled: `ModMetadata` returns the text, not the bytes written.

## Findings

| source | as written | input that shows it | evidently intended | confidence | as-written member | corrected member |
|---|---|---|---|---|---|---|
| PathHelper.cs:60-61 | `arg.IndexOf("\"") > 0` and `arg.IndexOf(" ") > 0` ignore a quote or a space at index 0 | the arguments `x"y` and `"x""y"` escape to the same text; ` x y` is left unquoted and reads back as three arguments | `>= 0`: any quote or space triggers doubling and wrapping; the corrected member also wraps the empty argument, which the code as written drops from the line; so the joined line reads back as the arguments | not executed | PathHelper.EscapeCollision | PathHelper.CommandLineRoundTrip |
