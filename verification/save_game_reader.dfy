/** `SaveGameReader.ReadToEnd`: the versioned save preamble, the package
    signature that must follow it, and the compressed chunks up to the end
    of the file. */
module SaveGameReader {
  import opened Wrappers
  import opened Numeric
  import opened UnrealPackages
  import opened BinaryData
  import opened SaveGames
  import PackageReader

  /** `SaveGame.MinSupportedVersion` and `MaxSupportedVersion`. */
  const MinSupportedVersion: u32 := 20
  const MaxSupportedVersion: u32 := 22

  predicate Supported(version: u32) {
    MinSupportedVersion <= version <= MaxSupportedVersion
  }

  /** `SaveGame`: the preamble with decoded text, then the chunks. */
  datatype SaveGame = SaveGame(
    version: u32,
    checksums: Checksums,
    body: Body<char>,
    chunks: seq<CompressedChunk>)

  /** The collaborators the reader calls but the model does not contain:
      the BZip2 CRC, the two date parsers and the LZO block decompressor. */
  datatype Services = Services(
    crc: seq<byte> -> u32,
    dates: DateParsers<char>,
    decompress: (seq<byte>, nat) -> Option<seq<byte>>)

  /** The string reader of this reader: `FString`. */
  function FStringReader(data: seq<byte>): StringReader<char> {
    d => FString(data, d)
  }

  /** The chunk loop: a chunk at a time until the position is the end of
      the stream. Every chunk consumes at least its 16-byte framing, so the
      loop ends. */
  function ReadChunks(data: seq<byte>, c: Cursor, decompress: (seq<byte>, nat) -> Option<seq<byte>>)
    : (r: Result<seq<CompressedChunk>>)
    ensures IsEndOfStream(data, c) ==> r == Ok([])
    ensures !IsEndOfStream(data, c) && PackageReader.ReadCompressedChunk(data, c, decompress).Err? ==>
      r == Err(PackageReader.ReadCompressedChunk(data, c, decompress).error)
    ensures r.Ok? ==> c.pos + 16 * |r.value| <= |data|
    ensures r.Ok? && !IsEndOfStream(data, c) ==> |r.value| >= 1
    ensures r.Ok? ==> forall i :: 0 <= i < |r.value| ==> r.value[i].signature == PackageSignature
    ensures r.Ok? && !IsEndOfStream(data, c) ==>
      var first := PackageReader.ReadCompressedChunk(data, c, decompress);
      && first.Ok? && r.value[0] == first.value.0
      && ReadChunks(data, first.value.1, decompress) == Ok(r.value[1..])
    decreases |data| - c.pos
  {
    if IsEndOfStream(data, c) then Ok([])
    else
      var (chunk, c1) :- PackageReader.ReadCompressedChunk(data, c, decompress);
      var rest :- ReadChunks(data, c1, decompress);
      Ok([chunk] + rest)
  }

  /** Chunks stored back to back up to the end of the file, each read
      from where the previous one stopped, are the chunk list, in file
      order. */
  lemma {:induction false} ChunksInOrder(
    data: seq<byte>, decompress: (seq<byte>, nat) -> Option<seq<byte>>,
    ks: seq<CompressedChunk>, cs: seq<Cursor>)
    requires |cs| == |ks| + 1 && cs[|ks|].pos == |data|
    requires forall i :: 0 <= i < |ks| ==>
      PackageReader.ReadCompressedChunk(data, cs[i], decompress) == Ok((ks[i], cs[i + 1]))
    ensures ReadChunks(data, cs[0], decompress) == Ok(ks)
    decreases |ks|
  {
    if |ks| > 0 {
      ChunksInOrder(data, decompress, ks[1..], cs[1..]);
      assert [ks[0]] + ks[1..] == ks;
    }
  }

  /** The trailing signature check: the next word must be the package
      magic; the position then goes back four bytes, so the first chunk is
      read from the signature on. */
  function ExpectSignature(data: seq<byte>, c: Cursor): (r: Result<Cursor>)
    ensures c.pos + 4 > |data| ==> r == Err(EndOfStream)
    ensures c.pos + 4 <= |data| ==>
      (r.Ok? <==> U32(data, c).value.0 == PackageSignature)
    ensures r.Err? && c.pos + 4 <= |data| ==> r.error == MissingPackageSignature
    ensures r.Ok? ==> r.value == c && !IsEndOfStream(data, r.value)
  {
    var (signature, c1) :- U32(data, c);
    if signature != PackageSignature then Err(MissingPackageSignature)
    else Ok(c1.(pos := c1.pos - 4))
  }

  /** Everything before the chunks: the version, checked against the
      supported window before anything else is read, the checksums, the
      body and the signature check. The cursor returned is at the signature. */
  datatype Preamble = Preamble(version: u32, checksums: Checksums, body: Body<char>)

  /** What follows a supported version: checksums, body, signature. */
  function ReadAfterVersion(data: seq<byte>, c: Cursor, version: u32, services: Services)
    : (r: Result<(Preamble, Cursor)>)
    ensures r.Ok? ==> r.value.0.version == version
    ensures r.Ok? ==> ReadChecksums(data, c, services.crc).Ok?
    ensures r.Ok? ==> r.value.0.checksums == ReadChecksums(data, c, services.crc).value.0
    ensures r.Ok? ==> !IsEndOfStream(data, r.value.1)
    ensures r.Ok? && version < MissionVersion ==> r.value.0.body.mission == NoMission()
    ensures r.Ok? && version < LadderVersion ==> !r.value.0.body.ladder
    ensures r.Ok? ==>
      ReadBody(data, Advance(c, 8), version, FStringReader(data), '\n', services.dates) == Ok((r.value.0.body, r.value.1))
    ensures r.Ok? ==> U32(data, r.value.1).Ok? && U32(data, r.value.1).value.0 == PackageSignature
  {
    var checked := ReadChecksums(data, c, services.crc);
    if checked.Err? then Err(checked.error)
    else
      var body := ReadBody(data, checked.value.1, version, FStringReader(data), '\n', services.dates);
      if body.Err? then Err(body.error)
      else
        var signed := ExpectSignature(data, body.value.1);
        if signed.Err? then Err(signed.error)
        else Ok((Preamble(version, checked.value.0, body.value.0), signed.value))
  }

  function ReadPreamble(data: seq<byte>, services: Services): (r: Result<(Preamble, Cursor)>)
    ensures |data| < 4 ==> r == Err(EndOfStream)
    ensures |data| >= 4 && !Supported(U32(data, Start).value.0) ==> r == Err(UnsupportedVersion)
    ensures |data| >= 4 && Supported(U32(data, Start).value.0) ==>
      r == ReadAfterVersion(data, Advance(Start, 4), U32(data, Start).value.0, services)
    ensures r.Ok? ==> Supported(r.value.0.version) && !IsEndOfStream(data, r.value.1)
  {
    var (version, c1) :- U32(data, Start);
    if !Supported(version) then Err(UnsupportedVersion)
    else ReadAfterVersion(data, c1, version, services)
  }

  /** `ReadToEnd` from the start of the file: the preamble, then chunks
      from the signature on. A successful read has at least one chunk. */
  function ReadToEnd(data: seq<byte>, services: Services): (r: Result<SaveGame>)
    ensures ReadPreamble(data, services).Err? ==> r == Err(ReadPreamble(data, services).error)
    ensures r.Ok? ==> ReadPreamble(data, services).Ok?
    ensures r.Ok? ==> var p := ReadPreamble(data, services).value.0;
      r.value.version == p.version && r.value.checksums == p.checksums && r.value.body == p.body
    ensures r.Ok? ==> |r.value.chunks| >= 1
    ensures r.Ok? ==> forall i :: 0 <= i < |r.value.chunks| ==> r.value.chunks[i].signature == PackageSignature
    ensures r.Ok? ==> ReadChunks(data, ReadPreamble(data, services).value.1, services.decompress) == Ok(r.value.chunks)
  {
    var (preamble, c) :- ReadPreamble(data, services);
    var chunks :- ReadChunks(data, c, services.decompress);
    Ok(SaveGame(preamble.version, preamble.checksums, preamble.body, chunks))
  }

  /** A supported version, checksums, a body, the package magic and chunks
      up to the end of the file read as that save game: the chunk loop
      starts at the magic, which is the first chunk's signature. */
  lemma ReadsSupportedSave(
    data: seq<byte>, services: Services, version: u32, checksums: Checksums, c2: Cursor,
    body: Body<char>, c3: Cursor, chunks: seq<CompressedChunk>)
    requires Supported(version) && At(data, 0, EncodeU32(version))
    requires ReadChecksums(data, Advance(Start, 4), services.crc) == Ok((checksums, c2))
    requires ReadBody(data, c2, version, FStringReader(data), '\n', services.dates) == Ok((body, c3))
    requires At(data, c3.pos, EncodeU32(PackageSignature))
    requires ReadChunks(data, c3, services.decompress) == Ok(chunks)
    ensures ReadToEnd(data, services) == Ok(SaveGame(version, checksums, body, chunks))
  {
    U32RoundTrip(data, Start, version);
    U32RoundTrip(data, c3, PackageSignature);
  }

  /** A file whose first word is a version outside 20..22 is rejected
      whatever follows it. */
  lemma UnsupportedVersionRejected(data: seq<byte>, services: Services, version: u32)
    requires At(data, 0, EncodeU32(version)) && !Supported(version)
    ensures ReadToEnd(data, services) == Err(UnsupportedVersion)
  {
    U32RoundTrip(data, Start, version);
  }

  /** A preamble not followed by the package magic is rejected. */
  lemma MissingSignatureRejected(data: seq<byte>, c: Cursor, v: u32)
    requires At(data, c.pos, EncodeU32(v)) && v != PackageSignature
    ensures ExpectSignature(data, c) == Err(MissingPackageSignature)
  {
    U32RoundTrip(data, c, v);
  }
}
