/** The save-game preamble both save readers parse (`SaveGameReader.ReadToEnd`
    and the older `SaveGameInfo` constructor). The two differ in how they
    read a string, so the text type `T` and the string reader are
    parameters: the newer reader decodes to text, the older keeps UTF-16
    code units. */
module SaveGames {
  import opened Wrappers
  import opened Numeric
  import opened BinaryData
  import Text
  import Encoding

  /** A point in time as the date parser reports it. */
  datatype DateTime = DateTime(ticks: int)

  /** The two `DateTime.TryParseExact` formats ("M/d/yyyy H:mm" and
      "M/d/yyyy h:mm tt"), applied to a date text and a time text joined
      by a space. Locale and calendar handling are outside the model. */
  datatype DateParsers<!T> = DateParsers(
    dateTime24: (seq<T>, seq<T>) -> Option<DateTime>,
    dateTimeUtc12: (seq<T>, seq<T>) -> Option<DateTime>)

  /** The text reader of one of the two save parsers. */
  type StringReader<T> = Cursor -> Result<(seq<T>, Cursor)>

  // ---------------------------------------------------------------------
  // Checksum

  datatype Checksums = Checksums(headerSizeCheck: u32, checksum: u32, checksumCheck: u32)

  /** Offset of the stored checksum inside the header. */
  const ChecksumOffset: nat := 8

  /** The header bytes with the stored checksum (bytes 8..11) zeroed, as
      they were when the checksum was computed. */
  function ZeroChecksumField(header: seq<byte>): (r: seq<byte>)
    requires |header| >= ChecksumOffset + 4
    ensures |r| == |header|
    ensures r[..ChecksumOffset] == header[..ChecksumOffset]
    ensures r[ChecksumOffset + 4..] == header[ChecksumOffset + 4..]
    ensures r[ChecksumOffset..ChecksumOffset + 4] == [0, 0, 0, 0]
  {
    header[..ChecksumOffset] + [0, 0, 0, 0] + header[ChecksumOffset + 4..]
  }

  /** Two headers that differ only in the checksum field give the same
      checksum input: the check never depends on the value it checks. */
  lemma ZeroChecksumFieldIgnoresField(a: seq<byte>, b: seq<byte>)
    requires |a| == |b| >= ChecksumOffset + 4
    requires forall i :: 0 <= i < |a| && !(ChecksumOffset <= i < ChecksumOffset + 4) ==> a[i] == b[i]
    ensures ZeroChecksumField(a) == ZeroChecksumField(b)
  {
    var za, zb := ZeroChecksumField(a), ZeroChecksumField(b);
    forall i | 0 <= i < |za|
      ensures za[i] == zb[i]
    {
      if i < ChecksumOffset {
        assert za[i] == za[..ChecksumOffset][i] == a[i];
        assert zb[i] == zb[..ChecksumOffset][i] == b[i];
      } else if i >= ChecksumOffset + 4 {
        assert za[i] == za[ChecksumOffset + 4..][i - ChecksumOffset - 4] == a[i];
        assert zb[i] == zb[ChecksumOffset + 4..][i - ChecksumOffset - 4] == b[i];
      } else {
        assert za[i] == za[ChecksumOffset..ChecksumOffset + 4][i - ChecksumOffset] == 0;
        assert zb[i] == zb[ChecksumOffset..ChecksumOffset + 4][i - ChecksumOffset] == 0;
      }
    }
  }

  /** The bytes the checksum covers: the first `count` bytes of the file,
      or all of it when the file is shorter. */
  function HeaderWindow(data: seq<byte>, count: nat): (w: seq<byte>)
    ensures |w| == Min(count, |data|)
    ensures Text.StartsWith(data, w)
  {
    data[..Min(count, |data|)]
  }

  /** The header size and the stored checksum, then the checksum computed
      over the header window (read from offset 0 in a detour, so the cursor
      stays after the checksum field). The size is cast to a signed int, so
      a size of 2^31 or more is a negative count; a window shorter than 12
      bytes fails when the checksum field is zeroed. */
  function ReadChecksums(data: seq<byte>, c: Cursor, crc: seq<byte> -> u32): (r: Result<(Checksums, Cursor)>)
    ensures c.pos + 8 > |data| ==> r == Err(EndOfStream)
    ensures c.pos + 8 <= |data| && U32(data, c).value.0 >= 0x8000_0000 ==> r == Err(ArgumentOutOfRange)
    ensures c.pos + 8 <= |data| && U32(data, c).value.0 < 0x8000_0000 && Min(U32(data, c).value.0, |data|) < 12 ==>
      r == Err(IndexOutOfRange)
    ensures r.Ok? ==> r.value.1 == Advance(c, 8)
    ensures r.Ok? ==> r.value.0.headerSizeCheck == U32(data, c).value.0
    ensures r.Ok? ==> r.value.0.checksum == U32(data, Advance(c, 4)).value.0
    ensures r.Ok? ==> r.value.0.headerSizeCheck < 0x8000_0000 && 12 <= Min(r.value.0.headerSizeCheck, |data|)
    ensures r.Ok? ==> r.value.0.checksumCheck == crc(ZeroChecksumField(HeaderWindow(data, r.value.0.headerSizeCheck)))
  {
    var (size, c1) :- U32(data, c);
    var (checksum, c2) :- U32(data, c1);
    var (header, _) :- ReadBytes(data, c2.(pos := 0), ToSigned32(size));
    if |header| < ChecksumOffset + 4 then Err(IndexOutOfRange)
    else
      assert header == HeaderWindow(data, size);
      Ok((Checksums(size, checksum, crc(ZeroChecksumField(header))), c2))
  }

  /** Rewriting the stored checksum leaves the computed one unchanged. */
  lemma ChecksumCheckIgnoresStoredChecksum(data: seq<byte>, other: seq<byte>, c: Cursor, crc: seq<byte> -> u32)
    requires |data| == |other|
    requires forall i :: 0 <= i < |data| && !(ChecksumOffset <= i < ChecksumOffset + 4) ==> data[i] == other[i]
    requires ReadChecksums(data, c, crc).Ok? && ReadChecksums(other, c, crc).Ok?
    requires ReadChecksums(data, c, crc).value.0.headerSizeCheck == ReadChecksums(other, c, crc).value.0.headerSizeCheck
    ensures ReadChecksums(data, c, crc).value.0.checksumCheck == ReadChecksums(other, c, crc).value.0.checksumCheck
  {
    var n := ReadChecksums(data, c, crc).value.0.headerSizeCheck;
    var a, b := HeaderWindow(data, n), HeaderWindow(other, n);
    assert forall i :: 0 <= i < |a| ==> a[i] == data[i] && b[i] == other[i];
    ZeroChecksumFieldIgnoresField(a, b);
  }

  // ---------------------------------------------------------------------
  // Description

  /** `SaveGame.ParsedDescription`; the fields only a tactical save sets
      are `None` otherwise (they stay null in the original). */
  datatype Description<T> = Description(
    saveDateTime: Option<DateTime>,
    saveName: seq<T>,
    missionTypeName: seq<T>,
    operationName: Option<seq<T>>,
    gameDateTime: Option<DateTime>,
    mapName: Option<seq<T>>)

  /** The description fields, from the newline-separated parts of the
      description string and the tactical flag read later. A missing part
      reads as empty text. */
  function Describe<T>(parts: seq<seq<T>>, tactical: bool, dates: DateParsers<T>): (d: Description<T>)
    ensures d.saveName == Text.Part(parts, 2) && d.missionTypeName == Text.Part(parts, 3)
    ensures d.operationName.Some? <==> tactical
    ensures d.mapName.Some? <==> tactical
  {
    var saveDateTime := SaveDate(parts, dates);
    if tactical then
      Description(saveDateTime, Text.Part(parts, 2), Text.Part(parts, 3),
                  Some(Text.Part(parts, 4)), dates.dateTimeUtc12(Text.Part(parts, 5), Text.Part(parts, 6)),
                  Some(Text.Part(parts, 7)))
    else
      Description(saveDateTime, Text.Part(parts, 2), Text.Part(parts, 3),
                  None, dates.dateTimeUtc12(Text.Part(parts, 4), Text.Part(parts, 5)), None)
  }

  /** The save date and time: the 24-hour format applied to the first two
      newline-separated parts, a missing part reading as empty text. */
  function SaveDate<T>(parts: seq<seq<T>>, dates: DateParsers<T>): Option<DateTime> {
    dates.dateTime24(Text.Part(parts, 0), Text.Part(parts, 1))
  }

  /** A description stored as newline-joined fields gives back those
      fields: for a tactical save the fifth and eighth are the operation
      and the map, and the game time comes from the sixth and seventh;
      otherwise the game time comes from the fifth and sixth. */
  lemma DescribeJoined<T>(fields: seq<seq<T>>, newline: T, tactical: bool, dates: DateParsers<T>)
    requires |fields| >= 8
    requires forall i :: 0 <= i < |fields| ==> newline !in fields[i]
    ensures var d := Describe(Text.Split(Text.Join(fields, newline), newline), tactical, dates);
      && d.saveDateTime == dates.dateTime24(fields[0], fields[1])
      && d.saveName == fields[2] && d.missionTypeName == fields[3]
      && (tactical ==> d.operationName == Some(fields[4]) && d.mapName == Some(fields[7]))
      && (tactical ==> d.gameDateTime == dates.dateTimeUtc12(fields[5], fields[6]))
      && (!tactical ==> d.gameDateTime == dates.dateTimeUtc12(fields[4], fields[5]))
  {
    Text.SplitJoin(fields, newline);
  }

  /** A description with no newline is all save date: every other field
      reads as empty text. */
  lemma DescribeSingleLine<T>(text: seq<T>, newline: T, tactical: bool, dates: DateParsers<T>)
    requires newline !in text
    ensures var d := Describe(Text.Split(text, newline), tactical, dates);
      && d.saveDateTime == dates.dateTime24(text, [])
      && d.saveName == [] && d.missionTypeName == []
      && (tactical ==> d.operationName == Some([]) && d.mapName == Some([]))
  {
    Text.SplitNoSeparator(text, newline);
  }

  // ---------------------------------------------------------------------
  // The preamble, field group by field group

  datatype Sizes = Sizes(uncompressedSize: u32, campaignNumber: u32, saveSlotNumber: u32)

  function ReadSizes(data: seq<byte>, c: Cursor): (r: Result<(Sizes, Cursor)>)
    ensures r.Ok? <==> c.pos + 12 <= |data|
    ensures r.Err? ==> r.error == EndOfStream
    ensures r.Ok? ==> r.value.1 == Advance(c, 12)
    ensures r.Ok? ==> r.value.0 == Sizes(U32(data, c).value.0, U32(data, Advance(c, 4)).value.0,
                                          U32(data, Advance(c, 8)).value.0)
  {
    var (uncompressedSize, c1) :- U32(data, c);
    var (campaignNumber, c2) :- U32(data, c1);
    var (saveSlotNumber, c3) :- U32(data, c2);
    Ok((Sizes(uncompressedSize, campaignNumber, saveSlotNumber), c3))
  }

  /** The description, the save date and time, the map command and the
      tactical flag, which decides how the description is mapped. */
  datatype Situation<T> = Situation(
    description: Description<T>,
    saveDateTime: Option<DateTime>,
    mapCommand: seq<T>,
    tactical: bool)

  function ReadSituation<T(==)>(data: seq<byte>, c: Cursor, readString: StringReader<T>, newline: T, dates: DateParsers<T>)
    : (r: Result<(Situation<T>, Cursor)>)
    ensures readString(c).Err? ==> r == Err(readString(c).error)
    ensures r.Ok? ==>
      && readString(c).Ok?
      && r.value.0.description == Describe(Text.Split(readString(c).value.0, newline), r.value.0.tactical, dates)
      && var c1 := readString(c).value.1;
         && readString(c1).Ok?
         && r.value.0.saveDateTime == SaveDate(Text.Split(readString(c1).value.0, newline), dates)
         && var c2 := readString(c1).value.1;
            && readString(c2).Ok?
            && r.value.0.mapCommand == readString(c2).value.0
            && Bool(data, readString(c2).value.1) == Ok((r.value.0.tactical, r.value.1))
  {
    var (description, c1) :- readString(c);
    var (dateTime, c2) :- readString(c1);
    var (mapCommand, c3) :- readString(c2);
    var (tactical, c4) :- Bool(data, c3);
    Ok((Situation(Describe(Text.Split(description, newline), tactical, dates),
                  SaveDate(Text.Split(dateTime, newline), dates), mapCommand, tactical), c4))
  }

  /** Three strings read one after another, then a stored flag word, make
      up the situation: the first string is the description, mapped with
      the flag; the second gives the save date; the third is the map
      command; any non-zero word is a tactical save. */
  lemma SituationInOrder<T>(
    data: seq<byte>, c: Cursor, readString: StringReader<T>, newline: T, dates: DateParsers<T>,
    description: seq<T>, dateTime: seq<T>, mapCommand: seq<T>, c1: Cursor, c2: Cursor, c3: Cursor, flag: u32)
    requires readString(c) == Ok((description, c1)) && readString(c1) == Ok((dateTime, c2))
    requires readString(c2) == Ok((mapCommand, c3)) && At(data, c3.pos, EncodeU32(flag))
    ensures ReadSituation(data, c, readString, newline, dates)
      == Ok((Situation(Describe(Text.Split(description, newline), flag != 0, dates),
                       SaveDate(Text.Split(dateTime, newline), dates), mapCommand, flag != 0), Advance(c3, 4)))
  {
    U32RoundTrip(data, c3, flag);
  }

  /** Ironman, autosave and quicksave flags, the language, two unknown
      words, the archive versions and three more strings. */
  datatype Settings<T> = Settings(
    ironman: bool, autoSave: bool, quickSave: bool,
    language: seq<T>,
    unknown6: u32, unknown7: u32,
    archiveFileVersion: u32, archiveLicenseeVersion: u32,
    campaignStartDateTime: seq<T>, missionImageUri: seq<T>, playerSaveName: seq<T>)

  function ReadFlags(data: seq<byte>, c: Cursor): (r: Result<((bool, bool, bool), Cursor)>)
    ensures r.Ok? <==> c.pos + 12 <= |data|
    ensures r.Ok? ==> r.value.1 == Advance(c, 12)
    ensures r.Ok? ==> r.value.0 == (U32(data, c).value.0 != 0, U32(data, Advance(c, 4)).value.0 != 0,
                                    U32(data, Advance(c, 8)).value.0 != 0)
  {
    var (ironman, c1) :- Bool(data, c);
    var (autoSave, c2) :- Bool(data, c1);
    var (quickSave, c3) :- Bool(data, c2);
    Ok(((ironman, autoSave, quickSave), c3))
  }

  /** Three stored words read back as three flags, each set exactly when
      its word is not zero. */
  lemma FlagsRoundTrip(data: seq<byte>, c: Cursor, a: u32, b: u32, d: u32)
    requires At(data, c.pos, EncodeU32(a) + EncodeU32(b) + EncodeU32(d))
    ensures ReadFlags(data, c) == Ok(((a != 0, b != 0, d != 0), Advance(c, 12)))
  {
    AtSplit(data, c.pos, EncodeU32(a) + EncodeU32(b), EncodeU32(d));
    AtSplit(data, c.pos, EncodeU32(a), EncodeU32(b));
    U32RoundTrip(data, c, a);
    U32RoundTrip(data, Advance(c, 4), b);
    U32RoundTrip(data, Advance(c, 8), d);
  }

  function ReadWords(data: seq<byte>, c: Cursor): (r: Result<((u32, u32, u32, u32), Cursor)>)
    ensures r.Ok? <==> c.pos + 16 <= |data|
    ensures r.Ok? ==> r.value.1 == Advance(c, 16)
    ensures r.Ok? ==> r.value.0 == (U32(data, c).value.0, U32(data, Advance(c, 4)).value.0,
                                    U32(data, Advance(c, 8)).value.0, U32(data, Advance(c, 12)).value.0)
  {
    var (unknown6, c1) :- U32(data, c);
    var (unknown7, c2) :- U32(data, c1);
    var (fileVersion, c3) :- U32(data, c2);
    var (licenseeVersion, c4) :- U32(data, c3);
    Ok(((unknown6, unknown7, fileVersion, licenseeVersion), c4))
  }

  function ReadSettings<T>(data: seq<byte>, c: Cursor, readString: StringReader<T>): (r: Result<(Settings<T>, Cursor)>)
    ensures c.pos + 12 > |data| ==> r == Err(EndOfStream)
    ensures r.Ok? ==>
      ReadFlags(data, c).Ok? &&
      (r.value.0.ironman, r.value.0.autoSave, r.value.0.quickSave) == ReadFlags(data, c).value.0
    ensures r.Ok? ==>
      && readString(Advance(c, 12)).Ok?
      && r.value.0.language == readString(Advance(c, 12)).value.0
      && var c2 := readString(Advance(c, 12)).value.1;
         && ReadWords(data, c2).Ok?
         && ReadWords(data, c2).value.0
            == (r.value.0.unknown6, r.value.0.unknown7, r.value.0.archiveFileVersion, r.value.0.archiveLicenseeVersion)
         && ReadStrings(Advance(c2, 16), 3, readString)
            == Ok(([r.value.0.campaignStartDateTime, r.value.0.missionImageUri, r.value.0.playerSaveName], r.value.1))
  {
    var (flags, c1) :- ReadFlags(data, c);
    var (language, c2) :- readString(c1);
    var (words, c3) :- ReadWords(data, c2);
    var (start, c4) :- readString(c3);
    var (image, c5) :- readString(c4);
    var (player, c6) :- readString(c5);
    ReadStringsInOrder(c3, readString, [start, image, player], [c3, c4, c5, c6]);
    Ok((Settings(flags.0, flags.1, flags.2, language, words.0, words.1, words.2, words.3, start, image, player), c6))
  }

  /** A u32 count, then exactly that many strings in file order. */
  function ReadStringArray<T>(data: seq<byte>, c: Cursor, readString: StringReader<T>): (r: Result<(seq<seq<T>>, Cursor)>)
    ensures c.pos + 4 > |data| ==> r == Err(EndOfStream)
    ensures r.Ok? ==> U32(data, c).Ok? && |r.value.0| == U32(data, c).value.0
  {
    var (count, c1) :- U32(data, c);
    ReadStrings(c1, count, readString)
  }

  /** `count` strings, each read where the previous one stopped. */
  function ReadStrings<T>(c: Cursor, count: nat, readString: StringReader<T>): (r: Result<(seq<seq<T>>, Cursor)>)
    ensures r.Ok? ==> |r.value.0| == count
    ensures count > 0 && readString(c).Err? ==> r == Err(readString(c).error)
    decreases count
  {
    if count == 0 then Ok(([], c))
    else
      var (s, c1) :- readString(c);
      var (ss, c2) :- ReadStrings(c1, count - 1, readString);
      Ok(([s] + ss, c2))
  }

  /** Reads that each give the next string, from where the previous one
      stopped, make up the array: exactly `|ss|` strings, in file order. */
  lemma {:induction false} ReadStringsInOrder<T>(c: Cursor, f: StringReader<T>, ss: seq<seq<T>>, cs: seq<Cursor>)
    requires |cs| == |ss| + 1 && cs[0] == c
    requires forall i :: 0 <= i < |ss| ==> f(cs[i]) == Ok((ss[i], cs[i + 1]))
    ensures ReadStrings(c, |ss|, f) == Ok((ss, cs[|ss|]))
    decreases |ss|
  {
    if |ss| > 0 {
      ReadStringsInOrder(cs[1], f, ss[1..], cs[1..]);
      assert [ss[0]] + ss[1..] == ss;
    }
  }

  /** The same for a counted array: the stored count, then the strings. */
  lemma StringArrayInOrder<T>(data: seq<byte>, c: Cursor, f: StringReader<T>, ss: seq<seq<T>>, cs: seq<Cursor>)
    requires |cs| == |ss| + 1 && U32(data, c) == Ok((|ss|, cs[0]))
    requires forall i :: 0 <= i < |ss| ==> f(cs[i]) == Ok((ss[i], cs[i + 1]))
    ensures ReadStringArray(data, c, f) == Ok((ss, cs[|ss|]))
  {
    ReadStringsInOrder(cs[0], f, ss, cs);
  }

  datatype Dlc<T> = Dlc(packNames: seq<seq<T>>, packFriendlyNames: seq<seq<T>>)

  function ReadDlc<T>(data: seq<byte>, c: Cursor, readString: StringReader<T>): (r: Result<(Dlc<T>, Cursor)>)
    ensures c.pos + 4 > |data| ==> r == Err(EndOfStream)
    ensures r.Ok? ==> ReadStringArray(data, c, readString).Ok?
    ensures r.Ok? ==> r.value.0.packNames == ReadStringArray(data, c, readString).value.0
    ensures r.Ok? ==>
      ReadStringArray(data, ReadStringArray(data, c, readString).value.1, readString)
      == Ok((r.value.0.packFriendlyNames, r.value.1))
  {
    var (names, c1) :- ReadStringArray(data, c, readString);
    var (friendlyNames, c2) :- ReadStringArray(data, c1, readString);
    Ok((Dlc(names, friendlyNames), c2))
  }

  /** The mission block version 21 added. Before that it keeps the
      defaults: zero words, false flags and no mission type. */
  datatype Mission<T> = Mission(
    mission: u32, month: u32, turn: u32, action: u32,
    missionType: Option<seq<T>>,
    debugSave: bool, preMission: bool, postMission: bool)

  function NoMission<T>(): Mission<T> {
    Mission(0, 0, 0, 0, None, false, false, false)
  }

  const MissionVersion: u32 := 21
  const LadderVersion: u32 := 22

  function ReadMission<T>(data: seq<byte>, c: Cursor, version: u32, readString: StringReader<T>): (r: Result<(Mission<T>, Cursor)>)
    ensures version < MissionVersion ==> r == Ok((NoMission(), c))
    ensures version >= MissionVersion && c.pos + 16 > |data| ==> r == Err(EndOfStream)
    ensures version >= MissionVersion && r.Ok? ==>
      && ReadWords(data, c).Ok?
      && (r.value.0.mission, r.value.0.month, r.value.0.turn, r.value.0.action) == ReadWords(data, c).value.0
      && r.value.0.missionType.Some?
    ensures version >= MissionVersion && r.Ok? ==>
      && readString(Advance(c, 16)).Ok?
      && r.value.0.missionType == Some(readString(Advance(c, 16)).value.0)
      && ReadFlags(data, readString(Advance(c, 16)).value.1)
         == Ok(((r.value.0.debugSave, r.value.0.preMission, r.value.0.postMission), r.value.1))
  {
    if version < MissionVersion then Ok((NoMission(), c))
    else
      var (words, c1) :- ReadWords(data, c);
      var (missionType, c2) :- readString(c1);
      var (debugSave, c3) :- Bool(data, c2);
      var (preMission, c4) :- Bool(data, c3);
      var (postMission, c5) :- Bool(data, c4);
      Ok((Mission(words.0, words.1, words.2, words.3, Some(missionType), debugSave, preMission, postMission), c5))
  }

  function ReadLadder(data: seq<byte>, c: Cursor, version: u32): (r: Result<(bool, Cursor)>)
    ensures version < LadderVersion ==> r == Ok((false, c))
    ensures version >= LadderVersion ==> r == Bool(data, c)
  {
    if version < LadderVersion then Ok((false, c)) else Bool(data, c)
  }

  /** Everything between the checksum and the trailing signature. */
  datatype Body<T> = Body(
    sizes: Sizes,
    situation: Situation<T>,
    settings: Settings<T>,
    dlc: Dlc<T>,
    mission: Mission<T>,
    ladder: bool)

  function ReadBody<T(==)>(data: seq<byte>, c: Cursor, version: u32, readString: StringReader<T>, newline: T, dates: DateParsers<T>)
    : (r: Result<(Body<T>, Cursor)>)
    ensures c.pos + 12 > |data| ==> r == Err(EndOfStream)
    ensures r.Ok? ==> ReadSizes(data, c) == Ok((r.value.0.sizes, Advance(c, 12)))
    ensures r.Ok? && version < MissionVersion ==> r.value.0.mission == NoMission()
    ensures r.Ok? && version >= MissionVersion ==> r.value.0.mission.missionType.Some?
    ensures r.Ok? && version < LadderVersion ==> !r.value.0.ladder
    ensures r.Ok? ==>
      var situation := ReadSituation(data, Advance(c, 12), readString, newline, dates);
      && situation.Ok? && situation.value.0 == r.value.0.situation
      && var settings := ReadSettings(data, situation.value.1, readString);
         && settings.Ok? && settings.value.0 == r.value.0.settings
         && var dlc := ReadDlc(data, settings.value.1, readString);
            && dlc.Ok? && dlc.value.0 == r.value.0.dlc
            && var mission := ReadMission(data, dlc.value.1, version, readString);
               && mission.Ok? && mission.value.0 == r.value.0.mission
               && ReadLadder(data, mission.value.1, version) == Ok((r.value.0.ladder, r.value.1))
  {
    var (sizes, c1) :- ReadSizes(data, c);
    var (situation, c2) :- ReadSituation(data, c1, readString, newline, dates);
    var (settings, c3) :- ReadSettings(data, c2, readString);
    var (dlc, c4) :- ReadDlc(data, c3, readString);
    var (mission, c5) :- ReadMission(data, c4, version, readString);
    var (ladder, c6) :- ReadLadder(data, c5, version);
    Ok((Body(sizes, situation, settings, dlc, mission, ladder), c6))
  }
}
