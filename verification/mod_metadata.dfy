/** `ModMetadata`: the `.XComMod` file staged with every mod, an INI-style
    text of four or five lines built from the project. The file is written
    with `WriteLine`, so each line ends in a carriage return and a line
    feed. */
module ModMetadata {
  import opened Wrappers
  import opened Numeric
  import Text

  /** The parts of the mod project and the edition the metadata copies. */
  datatype Project = Project(title: string, description: string, steamPublishId: u64, isExpansion: bool)

  datatype Metadata = Metadata(title: string, description: string, steamPublishId: u64, requiresExpansion: bool)

  /** The constructor: the title, description and publish id of the
      project, and whether its edition is the expansion. */
  function FromProject(project: Project): (m: Metadata)
    ensures m.title == project.title && m.description == project.description
    ensures m.steamPublishId == project.steamPublishId
    ensures m.requiresExpansion <==> project.isExpansion
  {
    Metadata(project.title, project.description, project.steamPublishId, project.isExpansion)
  }

  const Section: string := "[mod]"
  const IdKey: string := "publishedFileId="
  const TitleKey: string := "Title="
  const DescriptionKey: string := "Description="
  const ExpansionLine: string := "RequiresXPACK=true"

  /** `Save`: the lines written, in order. */
  function Lines(m: Metadata): (lines: seq<string>)
    ensures |lines| == if m.requiresExpansion then 5 else 4
  {
    [Section, IdKey + Decimal(m.steamPublishId), TitleKey + m.title, DescriptionKey + m.description]
    + (if m.requiresExpansion then [ExpansionLine] else [])
  }

  const NewLine: string := "\r\n"

  /** A sequence of `WriteLine` calls: every line followed by a line break. */
  function WriteAllLines(lines: seq<string>): (text: string)
    ensures |lines| == 0 <==> |text| == 0
  {
    if |lines| == 0 then "" else lines[0] + NewLine + WriteAllLines(lines[1..])
  }

  /** The text of the `.XComMod` file. */
  function Content(m: Metadata): string {
    WriteAllLines(Lines(m))
  }

  predicate IsLineBreak(c: char) {
    c == '\r' || c == '\n'
  }

  predicate NoLineBreak(s: string) {
    forall i :: 0 <= i < |s| ==> !IsLineBreak(s[i])
  }

  /** The length of the first line of `s`. */
  function LineLength(s: string): (n: nat)
    ensures n <= |s|
    ensures forall i :: 0 <= i < n ==> !IsLineBreak(s[i])
    ensures n < |s| ==> IsLineBreak(s[n])
  {
    if |s| == 0 || IsLineBreak(s[0]) then 0 else 1 + LineLength(s[1..])
  }

  /** Where the next line starts after a line of length `n`: past a
      `"\r\n"`, a lone `'\r'` or a lone `'\n'`. */
  function NextLine(s: string, n: nat): (next: nat)
    requires n <= |s|
    ensures n <= next <= |s|
    ensures n < |s| ==> n < next
  {
    if n == |s| then n
    else if s[n] == '\r' && n + 1 < |s| && s[n + 1] == '\n' then n + 2
    else n + 1
  }

  /** `File.ReadAllLines`: the lines of a text, where a break at the very
      end does not start another line. */
  function ReadAllLines(text: string): (lines: seq<string>)
    ensures forall i :: 0 <= i < |lines| ==> NoLineBreak(lines[i])
    decreases |text|
  {
    if |text| == 0 then []
    else
      var n := LineLength(text);
      [text[..n]] + ReadAllLines(text[NextLine(text, n)..])
  }

  lemma {:induction false} LineLengthOfLine(line: string, rest: string)
    requires NoLineBreak(line)
    ensures LineLength(line + NewLine + rest) == |line|
    decreases |line|
  {
    var s := line + NewLine + rest;
    if |line| == 0 {
      assert s[0] == '\r';
    } else {
      assert s[1..] == line[1..] + NewLine + rest;
      LineLengthOfLine(line[1..], rest);
    }
  }

  /** Lines without breaks read back as written. */
  lemma {:induction false} ReadWriteLines(lines: seq<string>)
    requires forall i :: 0 <= i < |lines| ==> NoLineBreak(lines[i])
    ensures ReadAllLines(WriteAllLines(lines)) == lines
    decreases |lines|
  {
    if |lines| > 0 {
      var rest := WriteAllLines(lines[1..]);
      var text := WriteAllLines(lines);
      assert text == lines[0] + NewLine + rest;
      LineLengthOfLine(lines[0], rest);
      var n := |lines[0]|;
      assert text[n] == '\r' && text[n + 1] == '\n';
      assert NextLine(text, n) == n + 2;
      assert text[..n] == lines[0];
      assert text[n + 2..] == rest;
      ReadWriteLines(lines[1..]);
    }
  }

  lemma NoLineBreakConcat(a: string, b: string)
    requires NoLineBreak(a) && NoLineBreak(b)
    ensures NoLineBreak(a + b)
  {
    forall i | 0 <= i < |a + b|
      ensures !IsLineBreak((a + b)[i])
    {
      if i < |a| {
        assert (a + b)[i] == a[i];
      } else {
        assert (a + b)[i] == b[i - |a|];
      }
    }
  }

  lemma ConstantsHaveNoBreak()
    ensures NoLineBreak(Section) && NoLineBreak(IdKey) && NoLineBreak(TitleKey)
    ensures NoLineBreak(DescriptionKey) && NoLineBreak(ExpansionLine)
  {
  }

  /** A reference reading of the format: the section header, the three
      `key=value` lines in order, and an optional expansion line. */
  function Parse(lines: seq<string>): (r: Option<Metadata>)
    ensures r.Some? ==> |lines| == 4 || |lines| == 5
    ensures r.Some? ==> (r.value.requiresExpansion <==> |lines| == 5)
  {
    if !(|lines| == 4 || |lines| == 5) || lines[0] != Section then None
    else if !Text.StartsWith(lines[1], IdKey) || !Text.StartsWith(lines[2], TitleKey)
      || !Text.StartsWith(lines[3], DescriptionKey) then None
    else if |lines| == 5 && lines[4] != ExpansionLine then None
    else
      var digits := lines[1][|IdKey|..];
      if !AllDigits(digits) || |digits| == 0 then None
      else
        var id := DigitsValue(digits);
        if id >= 0x1_0000_0000_0000_0000 then None
        else Some(Metadata(lines[2][|TitleKey|..], lines[3][|DescriptionKey|..], id, |lines| == 5))
  }

  lemma KeyValue(key: string, value: string)
    ensures Text.StartsWith(key + value, key)
    ensures (key + value)[|key|..] == value
  {
    assert (key + value)[..|key|] == key;
  }

  /** The lines written read back as the metadata they came from. */
  lemma ParseLines(m: Metadata)
    ensures Parse(Lines(m)) == Some(m)
  {
    var lines := Lines(m);
    KeyValue(IdKey, Decimal(m.steamPublishId));
    KeyValue(TitleKey, m.title);
    KeyValue(DescriptionKey, m.description);
    DecimalRoundTrip(m.steamPublishId);
  }

  /** The expansion line is written exactly when the mod requires the
      expansion, and it is always the fifth line. */
  lemma ExpansionLineIff(m: Metadata)
    ensures |Lines(m)| == 5 <==> m.requiresExpansion
    ensures m.requiresExpansion ==> Lines(m)[4] == ExpansionLine
  {
  }

  /** The file read back line by line gives the metadata back, when the title
      and description are single lines. */
  lemma ContentRoundTrip(m: Metadata)
    requires NoLineBreak(m.title) && NoLineBreak(m.description)
    ensures ReadAllLines(Content(m)) == Lines(m)
    ensures Parse(ReadAllLines(Content(m))) == Some(m)
  {
    ConstantsHaveNoBreak();
    var id := Decimal(m.steamPublishId);
    assert NoLineBreak(id);
    NoLineBreakConcat(IdKey, id);
    NoLineBreakConcat(TitleKey, m.title);
    NoLineBreakConcat(DescriptionKey, m.description);
    ReadWriteLines(Lines(m));
    ParseLines(m);
  }

  /** A project's metadata file reads back as the project's title,
      description, publish id and edition. */
  lemma SaveProject(project: Project)
    requires NoLineBreak(project.title) && NoLineBreak(project.description)
    ensures var r := Parse(ReadAllLines(Content(FromProject(project))));
      r.Some? && r.value.title == project.title && r.value.description == project.description
      && r.value.steamPublishId == project.steamPublishId && (r.value.requiresExpansion <==> project.isExpansion)
  {
    ContentRoundTrip(FromProject(project));
  }
}
