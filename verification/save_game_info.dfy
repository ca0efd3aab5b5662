/** `SaveGameInfo`: the older save-header parser. It reads the same preamble
    as `SaveGameReader` but through the probe's string reader (raw UTF-16
    code units), checks no version, stores the word after the preamble
    without comparing it to the package magic, and reads no chunks. The
    constructor does not catch, so any failed read fails the whole parse. */
module SaveGameInfo {
  import opened Wrappers
  import opened Numeric
  import opened BinaryData
  import opened SaveGames
  import PackageInfo
  import SaveGameReader
  import UnrealPackages

  /** The parsed header: the preamble fields, then `UpkCheck`. */
  datatype Info = Info(
    version: u32,
    checksums: Checksums,
    body: Body<u16>,
    upkCheck: u32)

  /** The BZip2 CRC and the two date parsers, over code units. */
  datatype Services = Services(
    crc: seq<byte> -> u32,
    dates: DateParsers<u16>)

  /** The description separator `'\n'` as a code unit. */
  const Newline: u16 := 10

  /** The constructor: version, checksums, body, then the trailing word. */
  function Read(data: seq<byte>, services: Services): (r: Result<Info>)
    ensures |data| < 4 ==> r == Err(EndOfStream)
    ensures |data| >= 4 ==> r == ReadAfterVersion(data, Advance(Start, 4), U32(data, Start).value.0, services)
  {
    match U32(data, Start)
    case Err(e) => Err(e)
    case Ok((version, c1)) => ReadAfterVersion(data, c1, version, services)
  }

  /** Everything after the version, whatever its value. */
  function ReadAfterVersion(data: seq<byte>, c: Cursor, version: u32, services: Services): (r: Result<Info>)
    ensures r.Ok? ==> r.value.version == version
    ensures r.Ok? ==> ReadChecksums(data, c, services.crc) == Ok((r.value.checksums, Advance(c, 8)))
    ensures r.Ok? && version < MissionVersion ==> r.value.body.mission == NoMission()
    ensures r.Ok? && version >= MissionVersion ==> r.value.body.mission.missionType.Some?
    ensures r.Ok? && version < LadderVersion ==> !r.value.body.ladder
  {
    var checked := ReadChecksums(data, c, services.crc);
    if checked.Err? then Err(checked.error)
    else
      var body := ReadBody(data, checked.value.1, version, PackageInfo.UnitReader(data), Newline, services.dates);
      if body.Err? then Err(body.error)
      else
        var trailer := U32(data, body.value.1);
        if trailer.Err? then Err(trailer.error)
        else Ok(Info(version, checked.value.0, body.value.0, trailer.value.0))
  }

  /** Whatever the version and whatever word follows the preamble, a
      complete header is read with both stored as they are. */
  lemma ReadsAnyVersion(
    data: seq<byte>, services: Services, version: u32, checksums: Checksums, c2: Cursor,
    body: Body<u16>, c3: Cursor, upkCheck: u32)
    requires At(data, 0, EncodeU32(version))
    requires ReadChecksums(data, Advance(Start, 4), services.crc) == Ok((checksums, c2))
    requires ReadBody(data, c2, version, PackageInfo.UnitReader(data), Newline, services.dates) == Ok((body, c3))
    requires At(data, c3.pos, EncodeU32(upkCheck))
    ensures Read(data, services) == Ok(Info(version, checksums, body, upkCheck))
  {
    U32RoundTrip(data, Start, version);
    U32RoundTrip(data, c3, upkCheck);
  }

  /** A header the newer reader rejects for its version is still read here,
      and a trailing word other than the package magic is kept, not
      rejected. */
  lemma AcceptsWhatReaderRejects(
    data: seq<byte>, services: Services, readerServices: SaveGameReader.Services,
    version: u32, checksums: Checksums, c2: Cursor, body: Body<u16>, c3: Cursor, upkCheck: u32)
    requires !SaveGameReader.Supported(version)
    requires At(data, 0, EncodeU32(version))
    requires ReadChecksums(data, Advance(Start, 4), services.crc) == Ok((checksums, c2))
    requires ReadBody(data, c2, version, PackageInfo.UnitReader(data), Newline, services.dates) == Ok((body, c3))
    requires At(data, c3.pos, EncodeU32(upkCheck))
    ensures Read(data, services).Ok? && Read(data, services).value.upkCheck == upkCheck
    ensures SaveGameReader.ReadToEnd(data, readerServices) == Err(UnsupportedVersion)
  {
    ReadsAnyVersion(data, services, version, checksums, c2, body, c3, upkCheck);
    SaveGameReader.UnsupportedVersionRejected(data, readerServices, version);
  }
}
