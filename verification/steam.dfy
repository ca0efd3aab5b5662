/** `Steam.FindLibraryPaths`: the Steam library folders listed in
    `libraryfolders.vdf`, read line by line. A line contributes when it
    contains the token `"path"`: the text from one character past the token
    is trimmed of white space, then of double quotes, and its doubled
    backslashes are collapsed. Reading the file and the registry is outside
    the model; the file's lines are the input. */
module Steam {
  import opened Wrappers
  import Text

  /** `PathDelimeter`: the key, quotes included. */
  const PathToken: string := "\"path\""

  const Backslash: string := "\\"
  const DoubleBackslash: string := "\\\\"

  predicate IsQuote(c: char) {
    c == '"'
  }

  /** Trimming and unescaping of the text after the token. */
  function CleanValue(text: string): string {
    Text.Replace(Text.Trim(Text.Trim(text, Text.IsWhiteSpace), IsQuote), DoubleBackslash, Backslash)
  }

  /** The first occurrence of the token ends the line, so the value would
      start past the end. */
  predicate EndsAtToken(line: string) {
    var p := Text.IndexOf(line, PathToken);
    p.Some? && p.value + |PathToken| == |line|
  }

  /** One line of the loop: nothing when the token is absent or the value is
      empty, the value otherwise; `Substring` throws when the token ends the
      line. */
  function LibraryPath(line: string): (r: Result<Option<string>>)
    ensures !Text.Contains(line, PathToken) ==> r == Ok(None)
    ensures r.Err? <==> EndsAtToken(line)
    ensures r.Err? ==> r.error == ArgumentOutOfRange
    ensures r.Ok? && r.value.Some? ==> |r.value.value| > 0
  {
    match Text.IndexOf(line, PathToken)
    case None => Ok(None)
    case Some(p) =>
      var start := p + |PathToken| + 1;
      if start > |line| then Err(ArgumentOutOfRange) else Ok(ValueOf(line[start..]))
  }

  /** The value of the text after the token; an empty value is skipped. */
  function ValueOf(text: string): (v: Option<string>)
    ensures v.Some? ==> |v.value| > 0
  {
    var cleaned := CleanValue(text);
    if |cleaned| == 0 then None else Some(cleaned)
  }

  /** The loop over the lines: the values in order; the first line that
      throws ends the whole read. */
  function Collect(lines: seq<string>, read: string -> Result<Option<string>>): (r: Result<seq<string>>)
    ensures r.Ok? ==> |r.value| <= |lines|
  {
    if |lines| == 0 then Ok([])
    else
      var first := read(lines[0]);
      var rest := Collect(lines[1..], read);
      if first.Err? then Err(first.error)
      else if rest.Err? then Err(rest.error)
      else Ok((if first.value.Some? then [first.value.value] else []) + rest.value)
  }

  /** `FindLibraryPaths`. */
  function FindLibraryPaths(lines: seq<string>): (r: Result<seq<string>>)
    ensures r.Ok? ==> |r.value| <= |lines|
  {
    Collect(lines, LibraryPath)
  }

  lemma {:induction false} CollectFailsIff(lines: seq<string>, read: string -> Result<Option<string>>)
    ensures Collect(lines, read).Err? <==> exists i :: 0 <= i < |lines| && read(lines[i]).Err?
    ensures Collect(lines, read).Err? ==>
      exists i :: 0 <= i < |lines| && read(lines[i]) == Err(Collect(lines, read).error)
    decreases |lines|
  {
    if |lines| > 0 {
      CollectFailsIff(lines[1..], read);
      assert forall i :: 0 < i < |lines| ==> lines[1..][i - 1] == lines[i];
    }
  }

  lemma {:induction false} CollectValues(lines: seq<string>, read: string -> Result<Option<string>>, i: nat)
    requires Collect(lines, read).Ok? && i < |Collect(lines, read).value|
    ensures exists j :: 0 <= j < |lines| && read(lines[j]) == Ok(Some(Collect(lines, read).value[i]))
    decreases |lines|
  {
    var first := read(lines[0]);
    var rest := Collect(lines[1..], read);
    if first.value.Some? && i == 0 {
      assert read(lines[0]) == Ok(Some(Collect(lines, read).value[i]));
    } else {
      var k := if first.value.Some? then i - 1 else i;
      assert Collect(lines, read).value[i] == rest.value[k];
      CollectValues(lines[1..], read, k);
      var j :| 0 <= j < |lines| - 1 && read(lines[1..][j]) == Ok(Some(rest.value[k]));
      assert lines[1..][j] == lines[j + 1];
    }
  }

  lemma {:induction false} CollectAppend(a: seq<string>, b: seq<string>, read: string -> Result<Option<string>>)
    requires Collect(a, read).Ok? && Collect(b, read).Ok?
    ensures Collect(a + b, read) == Ok(Collect(a, read).value + Collect(b, read).value)
    decreases |a|
  {
    if |a| == 0 {
      assert a + b == b;
      assert Collect(a, read).value == [];
      assert [] + Collect(b, read).value == Collect(b, read).value;
    } else {
      assert (a + b)[0] == a[0];
      assert (a + b)[1..] == a[1..] + b;
      var first := read(a[0]);
      var head: seq<string> := if first.value.Some? then [first.value.value] else [];
      assert first.Ok?;
      assert Collect(a[1..], read).Ok?;
      CollectAppend(a[1..], b, read);
      assert Collect(a + b, read).Ok?;
      assert Collect(a, read).value == head + Collect(a[1..], read).value;
      assert Collect(a + b, read).value == head + (Collect(a[1..], read).value + Collect(b, read).value);
      assert head + (Collect(a[1..], read).value + Collect(b, read).value)
        == (head + Collect(a[1..], read).value) + Collect(b, read).value;
    }
  }

  /** The read fails exactly when some line ends at its first token, and
      every path found is a non-empty value of some line. */
  lemma FindLibraryPathsFacts(lines: seq<string>)
    ensures FindLibraryPaths(lines).Err? <==> exists i :: 0 <= i < |lines| && EndsAtToken(lines[i])
    ensures FindLibraryPaths(lines).Err? ==> FindLibraryPaths(lines).error == ArgumentOutOfRange
    ensures FindLibraryPaths(lines).Ok? ==> forall i :: 0 <= i < |FindLibraryPaths(lines).value| ==>
      |FindLibraryPaths(lines).value[i]| > 0
  {
    CollectFailsIff(lines, LibraryPath);
    var r := FindLibraryPaths(lines);
    if r.Ok? {
      forall i | 0 <= i < |r.value|
        ensures |r.value[i]| > 0
      {
        CollectValues(lines, LibraryPath, i);
      }
    }
  }

  /** Paths are found line by line: the paths of a concatenation are the
      paths of each part, in order. */
  lemma FindAppend(a: seq<string>, b: seq<string>)
    requires FindLibraryPaths(a).Ok? && FindLibraryPaths(b).Ok?
    ensures FindLibraryPaths(a + b) == Ok(FindLibraryPaths(a).value + FindLibraryPaths(b).value)
  {
    CollectAppend(a, b, LibraryPath);
  }

  /** Lines without the token add nothing. */
  lemma {:induction false} CollectNone(lines: seq<string>, read: string -> Result<Option<string>>)
    requires forall i :: 0 <= i < |lines| ==> read(lines[i]) == Ok(None)
    ensures Collect(lines, read) == Ok([])
    decreases |lines|
  {
    if |lines| > 0 {
      assert forall i :: 0 <= i < |lines| - 1 ==> lines[1..][i] == lines[i + 1];
      CollectNone(lines[1..], read);
    }
  }

  lemma OnlyTokenLinesCount(lines: seq<string>)
    requires forall i :: 0 <= i < |lines| ==> !Text.Contains(lines[i], PathToken)
    ensures FindLibraryPaths(lines) == Ok([])
  {
    CollectNone(lines, LibraryPath);
  }


  /** How the file writes a path: every backslash doubled. */
  function Escaped(path: string): (e: string)
    ensures '"' !in path ==> '"' !in e
    ensures |path| > 0 ==> |e| > 0
  {
    if |path| == 0 then ""
    else (if path[0] == '\\' then DoubleBackslash else [path[0]]) + Escaped(path[1..])
  }

  /** Collapsing doubled backslashes undoes the escaping. */
  lemma {:induction false} UnescapeEscaped(path: string)
    ensures Text.Replace(Escaped(path), DoubleBackslash, Backslash) == path
    decreases |path|
  {
    if |path| > 0 {
      var e := Escaped(path);
      var rest := Escaped(path[1..]);
      UnescapeEscaped(path[1..]);
      if path[0] == '\\' {
        assert e == DoubleBackslash + rest;
        assert e[..2] == DoubleBackslash;
        assert e[2..] == rest;
      } else {
        assert e == [path[0]] + rest;
        assert e[1..] == rest;
        if |e| >= 2 {
          assert e[..2] != DoubleBackslash by {
            assert e[..2][0] == path[0];
          }
        } else {
          assert path == [path[0]];
        }
      }
    }
  }

  lemma {:induction false} TrimStartSkip(w: string, s: string, strip: char -> bool)
    requires forall i :: 0 <= i < |w| ==> strip(w[i])
    ensures Text.TrimStart(w + s, strip) == Text.TrimStart(s, strip)
    decreases |w|
  {
    if |w| == 0 {
      assert w + s == s;
    } else {
      assert (w + s)[0] == w[0];
      assert (w + s)[1..] == w[1..] + s;
      TrimStartSkip(w[1..], s, strip);
    }
  }

  /** Trimming stops at the first and last elements that are kept. */
  lemma TrimBetween(w: string, s: string, strip: char -> bool)
    requires forall i :: 0 <= i < |w| ==> strip(w[i])
    requires |s| > 0 && !strip(s[0]) && !strip(s[|s| - 1])
    ensures Text.Trim(w + s, strip) == s
  {
    TrimStartSkip(w, s, strip);
  }

  /** A trailing stripped element goes, and trimming stops before it. */
  lemma TrimEndLast(e: string, c: char, strip: char -> bool)
    requires strip(c) && |e| > 0 && !strip(e[|e| - 1])
    ensures Text.TrimEnd(e + [c], strip) == e
  {
    assert (e + [c])[..|e|] == e;
  }

  /** The quoted value after the gap trims down to the escaped path. */
  lemma TrimQuoted(gap: string, e: string)
    requires forall i :: 0 <= i < |gap| ==> Text.IsWhiteSpace(gap[i])
    requires |e| > 0 && '"' !in e
    ensures Text.Trim(Text.Trim(gap + "\"" + e + "\"", Text.IsWhiteSpace), IsQuote) == e
  {
    var inner := e + ['"'];
    var quoted := ['"'] + inner;
    assert gap + "\"" + e + "\"" == gap + quoted;
    assert quoted[0] == '"' && quoted[|quoted| - 1] == '"';
    TrimBetween(gap, quoted, Text.IsWhiteSpace);
    TrimStartSkip(['"'], inner, IsQuote);
    assert inner[0] == e[0] && !IsQuote(e[0]) && !IsQuote(e[|e| - 1]);
    TrimEndLast(e, '"', IsQuote);
  }

  /** A `"path"` entry as the file writes it: indentation, the token, white
      space, then the escaped path in quotes. */
  function EntryLine(indent: string, gap: string, path: string): string {
    indent + PathToken + gap + "\"" + Escaped(path) + "\""
  }

  lemma TokenAt(indent: string, tail: string)
    requires '"' !in indent
    ensures Text.IndexOf(indent + PathToken + tail, PathToken) == Some(|indent|)
  {
    var line := indent + PathToken + tail;
    assert Text.OccursAt(line, PathToken, |indent|) by {
      assert line[|indent|..|indent| + |PathToken|] == PathToken;
    }
    forall j | 0 <= j < |indent|
      ensures !Text.OccursAt(line, PathToken, j)
    {
      assert line[j] == indent[j];
      assert PathToken[0] == '"';
    }
  }

  /** An entry reads back as the path it was written from, whatever the
      indentation and the white space after the token. */
  lemma EntryRoundTrip(indent: string, gap: string, path: string)
    requires '"' !in indent && '"' !in path && |path| > 0
    requires |gap| > 0 && forall i :: 0 <= i < |gap| ==> Text.IsWhiteSpace(gap[i])
    ensures LibraryPath(EntryLine(indent, gap, path)) == Ok(Some(path))
  {
    var e := Escaped(path);
    var line := EntryLine(indent, gap, path);
    TokenAt(indent, gap + "\"" + e + "\"");
    ValueAfterToken(indent, gap, e);
    CleanQuoted(gap[1..], path);
    LibraryPathAt(line, |indent|);
  }

  /** The line's value once the token has been found at `p`. */
  lemma LibraryPathAt(line: string, p: nat)
    requires Text.IndexOf(line, PathToken) == Some(p) && p + |PathToken| + 1 <= |line|
    ensures LibraryPath(line) == Ok(ValueOf(line[p + |PathToken| + 1..]))
  {
  }

  /** The text one character past the token: the rest of the gap and the
      quoted value. */
  lemma ValueAfterToken(indent: string, gap: string, e: string)
    requires |gap| > 0
    ensures indent + PathToken + gap + "\"" + e + "\"" == indent + PathToken + (gap + "\"" + e + "\"")
    ensures (indent + PathToken + gap + "\"" + e + "\"")[|indent| + |PathToken| + 1..] == gap[1..] + "\"" + e + "\""
  {
    var before := indent + PathToken + [gap[0]];
    var after := gap[1..] + "\"" + e + "\"";
    assert gap == [gap[0]] + gap[1..];
    assert indent + PathToken + gap + "\"" + e + "\"" == before + after;
  }

  /** The value of a quoted escaped path is the path. */
  lemma CleanQuoted(gap: string, path: string)
    requires forall i :: 0 <= i < |gap| ==> Text.IsWhiteSpace(gap[i])
    requires '"' !in path && |path| > 0
    ensures CleanValue(gap + "\"" + Escaped(path) + "\"") == path
  {
    TrimQuoted(gap, Escaped(path));
    UnescapeEscaped(path);
  }

  /** A line whose first token ends it throws, and the read of the whole file
      fails with it. */
  lemma TokenAtEndThrows(indent: string, lines: seq<string>)
    requires '"' !in indent
    ensures LibraryPath(indent + PathToken) == Err(ArgumentOutOfRange)
    ensures FindLibraryPaths(lines + [indent + PathToken]).Err?
  {
    var line := indent + PathToken;
    TokenAt(indent, "");
    assert indent + PathToken + "" == line;
    assert EndsAtToken(line);
    var all := lines + [line];
    assert all[|lines|] == line;
    FindLibraryPathsFacts(all);
  }

}
