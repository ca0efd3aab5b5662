/** `PathHelper`: the guards of the path conversions and the quoting of
    command-line arguments. The file system's own notions (whether a path
    is rooted, the full path, combining, URI relativisation and
    unescaping) are parameters. */
module PathHelper {
  import opened Wrappers
  import Text

  /** The platform path operations `PathHelper` delegates to. */
  datatype PathSystem = PathSystem(
    rooted: string -> bool,
    fullPath: string -> string,
    combine: (string, string) -> string,
    relativeUri: (string, string) -> string,
    unescape: string -> string)

  /** `Path.DirectorySeparatorChar` on Windows. */
  const Separator: char := '\\'

  /** `MakeAbsolute(path, parent)`: an absolute path is returned as it is;
      a relative one is resolved against the parent folder. */
  function MakeAbsolute(fs: PathSystem, path: string, parentFolderPath: string): (r: string)
    ensures fs.rooted(path) ==> r == path
    ensures !fs.rooted(path) ==> r == fs.fullPath(fs.combine(parentFolderPath, path))
  {
    if fs.rooted(path) then path else fs.fullPath(fs.combine(parentFolderPath, path))
  }

  /** The parent folder with a trailing separator. */
  function AsFolder(parentFolderPath: string): (r: string)
    ensures Text.EndsWith(r, [Separator])
    ensures Text.EndsWith(parentFolderPath, [Separator]) ==> r == parentFolderPath
    ensures !Text.EndsWith(parentFolderPath, [Separator]) ==> r == parentFolderPath + [Separator]
  {
    if Text.EndsWith(parentFolderPath, [Separator]) then parentFolderPath
    else parentFolderPath + [Separator]
  }

  /** `string.Replace(char, char)`: every `from` becomes `to`. */
  function ReplaceChar(s: string, from: char, to: char): (r: string)
    ensures |r| == |s|
    ensures forall i :: 0 <= i < |s| ==> r[i] == (if s[i] == from then to else s[i])
  {
    seq(|s|, i requires 0 <= i < |s| => if s[i] == from then to else s[i])
  }

  /** `MakeRelative`: both arguments must be absolute, the path first; the
      URI of the path is then taken relative to the folder's. */
  function MakeRelative(fs: PathSystem, path: string, parentFolderPath: string): (r: Result<string>)
    ensures r.Ok? <==> fs.rooted(path) && fs.rooted(parentFolderPath)
    ensures r.Err? ==> r.error == RelativePath
    ensures r.Ok? ==> r.value == fs.unescape(ReplaceChar(fs.relativeUri(AsFolder(parentFolderPath), path), '/', Separator))
  {
    if !fs.rooted(path) then Err(RelativePath)
    else if !fs.rooted(parentFolderPath) then Err(RelativePath)
    else Ok(fs.unescape(ReplaceChar(fs.relativeUri(AsFolder(parentFolderPath), path), '/', Separator)))
  }

  /** A folder that already ends with the separator is not given a second. */
  lemma AsFolderIdempotent(parentFolderPath: string)
    ensures AsFolder(AsFolder(parentFolderPath)) == AsFolder(parentFolderPath)
  {
  }

  // ---------------------------------------------------------------------
  // Argument quoting

  /** `arg.IndexOf(c) > 0`: the FIRST occurrence of `c` exists and is not at
      the start. */
  predicate FoundAfterStart(arg: string, c: char) {
    var k := Text.IndexOf(arg, [c]);
    k.Some? && k.value > 0
  }

  /** The test succeeds exactly when `c` occurs and the string does not
      start with it: one occurrence at the start hides all later ones. */
  lemma FoundAfterStartIff(arg: string, c: char)
    ensures FoundAfterStart(arg, c) <==> c in arg && arg[0] != c
  {
    var k := Text.IndexOf(arg, [c]);
    if k.Some? {
      var j := k.value;
      assert arg[j..j + 1] == [c];
      assert arg[j] == c;
      if arg[0] == c {
        assert arg[0..1] == [c];
        assert Text.OccursAt(arg, [c], 0);
      }
    } else {
      forall i | 0 <= i < |arg|
        ensures arg[i] != c
      {
        assert !Text.OccursAt(arg, [c], i);
        assert arg[i..i + 1] == [arg[i]];
      }
    }
  }

  /** `string.Replace("\"", "\"\"")`. */
  function DoubleQuotes(s: string): string {
    Text.Replace(s, "\"", "\"\"")
  }

  /** One argument as `EscapeAndJoinArguments` writes it: a quote after
      the start doubles every quote and wraps the argument; otherwise a
      space after the start only wraps it. */
  function Escape(arg: string): string {
    var quotes := FoundAfterStart(arg, '"');
    var spaces := FoundAfterStart(arg, ' ');
    var doubled := if quotes then DoubleQuotes(arg) else arg;
    if quotes || spaces then "\"" + doubled + "\"" else arg
  }

  /** `EscapeAndJoinArguments`: each argument escaped, then joined by
      single spaces; no arguments give the empty line. */
  function EscapeAndJoinArguments(args: seq<string>): (r: string)
    ensures |args| == 0 ==> r == ""
    ensures |args| >= 1 ==> r == Text.Join(EscapeEach(args, Escape), ' ')
  {
    if |args| == 0 then "" else Text.Join(EscapeEach(args, Escape), ' ')
  }

  function EscapeEach(args: seq<string>, escape: string -> string): (r: seq<string>)
    ensures |r| == |args|
    ensures forall i :: 0 <= i < |args| ==> r[i] == escape(args[i])
  {
    seq(|args|, i requires 0 <= i < |args| => escape(args[i]))
  }

  /** The escaping with the test the code evidently intends: any quote, any
      space, and also the empty argument, which would otherwise vanish
      from the line. */
  function EscapeFixed(arg: string): string {
    var quotes := '"' in arg;
    var spaces := ' ' in arg;
    var doubled := if quotes then DoubleQuotes(arg) else arg;
    if quotes || spaces || |arg| == 0 then "\"" + doubled + "\"" else arg
  }

  function EscapeAndJoinArgumentsFixed(args: seq<string>): (r: string)
    ensures |args| == 0 ==> r == ""
    ensures |args| >= 1 ==> ParseCommandLine(r) == args
  {
    if |args| == 0 then ""
    else
      CommandLineRoundTrip(args);
      Text.Join(EscapeEach(args, EscapeFixed), ' ')
  }

  // ---------------------------------------------------------------------
  // The quoting convention the escaping targets: a space outside quotes
  // separates arguments, every quote opens or closes quoting, and inside
  // a quoted argument a doubled quote stands for one quote.

  /** The pieces of a line between spaces outside quotes; `quoted` says
      whether the scan starts inside quotes. */
  function Pieces(s: string, quoted: bool): (r: seq<string>)
    ensures |r| >= 1
  {
    if |s| == 0 then [[]]
    else if s[0] == ' ' && !quoted then [[]] + Pieces(s[1..], false)
    else
      var rest := Pieces(s[1..], if s[0] == '"' then !quoted else quoted);
      [[s[0]] + rest[0]] + rest[1..]
  }

  /** Every doubled quote becomes one quote. */
  function Undouble(s: string): (r: string)
    ensures |r| <= |s|
  {
    if |s| == 0 then []
    else if |s| >= 2 && s[0] == '"' && s[1] == '"' then "\"" + Undouble(s[2..])
    else [s[0]] + Undouble(s[1..])
  }

  /** A piece wrapped in quotes loses them and has its doubled quotes
      undone; any other piece is the argument itself. */
  function Unquote(piece: string): (r: string)
    ensures |r| <= |piece|
  {
    if |piece| >= 2 && piece[0] == '"' && piece[|piece| - 1] == '"' then Undouble(piece[1..|piece| - 1])
    else piece
  }

  function ParseCommandLine(line: string): (r: seq<string>)
    ensures |r| >= 1
  {
    var pieces := Pieces(line, false);
    seq(|pieces|, i requires 0 <= i < |pieces| => Unquote(pieces[i]))
  }

  /** Whether quoting is open after scanning `t` from state `quoted`. */
  function QuotedAfter(t: string, quoted: bool): bool {
    if |t| == 0 then quoted else QuotedAfter(t[1..], if t[0] == '"' then !quoted else quoted)
  }

  /** `t` holds no space outside quotes when scanned from `quoted`. */
  predicate NoBareSpace(t: string, quoted: bool) {
    |t| == 0 || (!(t[0] == ' ' && !quoted) && NoBareSpace(t[1..], if t[0] == '"' then !quoted else quoted))
  }

  lemma {:induction false} ScanConcat(x: string, y: string, quoted: bool)
    ensures QuotedAfter(x + y, quoted) == QuotedAfter(y, QuotedAfter(x, quoted))
    ensures NoBareSpace(x + y, quoted) <==> NoBareSpace(x, quoted) && NoBareSpace(y, QuotedAfter(x, quoted))
    decreases |x|
  {
    if |x| == 0 {
      assert x + y == y;
    } else {
      assert (x + y)[1..] == x[1..] + y;
      assert (x + y)[0] == x[0];
      ScanConcat(x[1..], y, if x[0] == '"' then !quoted else quoted);
    }
  }

  /** An argument with every quote doubled, scanned inside quotes, keeps
      quoting open and shows no space outside quotes. */
  lemma {:induction false} DoubledStaysQuoted(a: string)
    ensures NoBareSpace(DoubleQuotes(a), true) && QuotedAfter(DoubleQuotes(a), true)
    decreases |a|
  {
    if |a| > 0 {
      DoubledStaysQuoted(a[1..]);
      assert a[..1] == [a[0]];
      if a[0] == '"' {
        assert DoubleQuotes(a) == "\"\"" + DoubleQuotes(a[1..]);
        ScanConcat("\"\"", DoubleQuotes(a[1..]), true);
      } else {
        assert DoubleQuotes(a) == [a[0]] + DoubleQuotes(a[1..]);
        ScanConcat([a[0]], DoubleQuotes(a[1..]), true);
      }
    }
  }

  lemma {:induction false} UndoubleDouble(a: string)
    ensures Undouble(DoubleQuotes(a)) == a
    decreases |a|
  {
    if |a| > 0 {
      UndoubleDouble(a[1..]);
      assert a[..1] == [a[0]];
      if a[0] == '"' {
        var d := "\"\"" + DoubleQuotes(a[1..]);
        assert DoubleQuotes(a) == d;
        assert d[2..] == DoubleQuotes(a[1..]);
      } else {
        var d := [a[0]] + DoubleQuotes(a[1..]);
        assert DoubleQuotes(a) == d;
        assert d[1..] == DoubleQuotes(a[1..]);
      }
    }
  }

  lemma {:induction false} UndoubleNoQuotes(a: string)
    requires '"' !in a
    ensures Undouble(a) == a
    decreases |a|
  {
    if |a| > 0 {
      UndoubleNoQuotes(a[1..]);
    }
  }

  /** A quoted piece is a single piece that closes its quotes. */
  lemma Wrapped(d: string)
    requires NoBareSpace(d, true) && QuotedAfter(d, true)
    ensures NoBareSpace("\"" + d + "\"", false) && !QuotedAfter("\"" + d + "\"", false)
  {
    ScanConcat("\"", d, false);
    ScanConcat("\"" + d, "\"", false);
  }

  /** With the intended test, an escaped argument is one piece that leaves
      quoting closed, and unquoting it gives the argument back. */
  lemma EscapedPiece(a: string)
    ensures NoBareSpace(EscapeFixed(a), false) && !QuotedAfter(EscapeFixed(a), false)
    ensures Unquote(EscapeFixed(a)) == a
  {
    var t := EscapeFixed(a);
    if '"' in a {
      DoubledStaysQuoted(a);
      Wrapped(DoubleQuotes(a));
      UndoubleDouble(a);
      assert t[1..|t| - 1] == DoubleQuotes(a);
    } else if ' ' in a || |a| == 0 {
      DoubledStaysQuoted(a);
      UndoubleNoQuotes(a);
      PlainIsDoubled(a);
      Wrapped(a);
      assert t[1..|t| - 1] == a;
    } else {
      PlainScan(a, false);
    }
  }

  /** Without quotes, doubling changes nothing. */
  lemma {:induction false} PlainIsDoubled(a: string)
    requires '"' !in a
    ensures DoubleQuotes(a) == a
    decreases |a|
  {
    if |a| > 0 {
      PlainIsDoubled(a[1..]);
      assert a[..1] == [a[0]];
      assert a == [a[0]] + a[1..];
    }
  }

  /** Text with neither quotes nor spaces keeps the quoting state. */
  lemma {:induction false} PlainScan(a: string, quoted: bool)
    requires '"' !in a && ' ' !in a
    ensures NoBareSpace(a, quoted) && QuotedAfter(a, quoted) == quoted
    decreases |a|
  {
    if |a| > 0 {
      PlainScan(a[1..], quoted);
    }
  }

  lemma {:induction false} PiecesAlone(t: string, quoted: bool)
    requires NoBareSpace(t, quoted)
    ensures Pieces(t, quoted) == [t]
    decreases |t|
  {
    if |t| > 0 {
      PiecesAlone(t[1..], if t[0] == '"' then !quoted else quoted);
      assert !(t[0] == ' ' && !quoted);
      assert [t[0]] + t[1..] == t;
    }
  }

  lemma {:induction false} PiecesFirst(t: string, rest: string, quoted: bool)
    requires NoBareSpace(t, quoted) && !QuotedAfter(t, quoted)
    ensures Pieces(t + " " + rest, quoted) == [t] + Pieces(rest, false)
    decreases |t|
  {
    if |t| == 0 {
      assert t + " " + rest == " " + rest;
      assert (" " + rest)[1..] == rest;
    } else {
      var q := if t[0] == '"' then !quoted else quoted;
      PiecesFirst(t[1..], rest, q);
      assert (t + " " + rest)[1..] == t[1..] + " " + rest;
      assert (t + " " + rest)[0] == t[0];
      assert [t[0]] + t[1..] == t;
    }
  }

  lemma {:induction false} PiecesOfJoin(args: seq<string>)
    requires |args| >= 1
    ensures Pieces(Text.Join(EscapeEach(args, EscapeFixed), ' '), false) == EscapeEach(args, EscapeFixed)
    decreases |args|
  {
    var parts := EscapeEach(args, EscapeFixed);
    EscapedPiece(args[0]);
    if |args| == 1 {
      PiecesAlone(parts[0], false);
    } else {
      assert parts[1..] == EscapeEach(args[1..], EscapeFixed);
      PiecesOfJoin(args[1..]);
      PiecesFirst(parts[0], Text.Join(parts[1..], ' '), false);
    }
  }

  /** With the intended test, the joined line parses back to exactly the
      arguments, whatever they contain. */
  lemma CommandLineRoundTrip(args: seq<string>)
    requires |args| >= 1
    ensures ParseCommandLine(Text.Join(EscapeEach(args, EscapeFixed), ' ')) == args
  {
    PiecesOfJoin(args);
    forall i | 0 <= i < |args|
      ensures Unquote(EscapeFixed(args[i])) == args[i]
    {
      EscapedPiece(args[i]);
    }
  }

  /** The code as written agrees with the intended escaping on every
      non-empty argument that starts with neither a quote nor a space. */
  lemma EscapeAgrees(arg: string)
    requires |arg| > 0 && arg[0] != '"' && arg[0] != ' '
    ensures Escape(arg) == EscapeFixed(arg)
  {
    FoundAfterStartIff(arg, '"');
    FoundAfterStartIff(arg, ' ');
  }

  /** Hence the line as written parses back for such arguments. */
  lemma CommandLineRoundTripAsWritten(args: seq<string>)
    requires |args| >= 1
    requires forall i :: 0 <= i < |args| ==> |args[i]| > 0 && args[i][0] != '"' && args[i][0] != ' '
    ensures ParseCommandLine(EscapeAndJoinArguments(args)) == args
  {
    forall i | 0 <= i < |args|
      ensures Escape(args[i]) == EscapeFixed(args[i])
    {
      EscapeAgrees(args[i]);
    }
    assert EscapeEach(args, Escape) == EscapeEach(args, EscapeFixed);
    CommandLineRoundTrip(args);
  }

  /** Doubling works a character at a time. */
  lemma DoubleQuotesCons(c: char, s: string)
    ensures DoubleQuotes([c] + s) == (if c == '"' then "\"\"" else [c]) + DoubleQuotes(s)
  {
    var t := [c] + s;
    assert t[..1] == [c];
    assert t[1..] == s;
  }

  /** The scan of a line a character at a time. */
  lemma PiecesCons(c: char, s: string, quoted: bool)
    ensures c == ' ' && !quoted ==> Pieces([c] + s, quoted) == [[]] + Pieces(s, false)
    ensures !(c == ' ' && !quoted) ==>
      var rest := Pieces(s, if c == '"' then !quoted else quoted);
      Pieces([c] + s, quoted) == [[c] + rest[0]] + rest[1..]
  {
    assert ([c] + s)[1..] == s;
  }

  lemma DoubledExample(x: char, y: char)
    requires x != '"' && y != '"'
    ensures DoubleQuotes([x, '"', y]) == [x, '"', '"', y]
  {
    assert DoubleQuotes("") == "";
    DoubleQuotesCons(y, "");
    assert [y] + "" == [y];
    DoubleQuotesCons('"', [y]);
    assert ['"'] + [y] == ['"', y];
    DoubleQuotesCons(x, ['"', y]);
    assert [x] + ['"', y] == [x, '"', y];
    assert [x] + ['"', '"', y] == [x, '"', '"', y];
  }

  /** As written, a quote at the start hides the others: `x"y` and
      `"x""y"` are escaped to the same text, for any ordinary characters
      `x` and `y`. */
  lemma EscapeCollision(x: char, y: char)
    requires x != '"' && x != ' ' && y != '"' && y != ' '
    ensures [x, '"', y] != ['"', x, '"', '"', y, '"']
    ensures Escape([x, '"', y]) == Escape(['"', x, '"', '"', y, '"']) == ['"', x, '"', '"', y, '"']
  {
    var a, b := [x, '"', y], ['"', x, '"', '"', y, '"'];
    assert FoundAfterStart(a, '"') by {
      assert a[1] == '"';
      FoundAfterStartIff(a, '"');
    }
    assert !FoundAfterStart(b, '"') by {
      FoundAfterStartIff(b, '"');
    }
    assert !FoundAfterStart(b, ' ') by {
      assert ' ' !in b;
      FoundAfterStartIff(b, ' ');
    }
    DoubledExample(x, y);
    assert "\"" + [x, '"', '"', y] + "\"" == b;
  }

  lemma PiecesExample(x: char, y: char)
    requires x != '"' && x != ' ' && y != '"' && y != ' '
    ensures Pieces([' ', x, ' ', y], false) == [[], [x], [y]]
  {
    assert Pieces("", false) == [[]];
    PiecesCons(y, "", false);
    assert [y] + "" == [y] && [y] + [] == [y];
    assert Pieces([y], false) == [[y]];
    PiecesCons(' ', [y], false);
    assert [' '] + [y] == [' ', y];
    assert Pieces([' ', y], false) == [[], [y]];
    PiecesCons(x, [' ', y], false);
    assert [x] + [' ', y] == [x, ' ', y];
    assert [x] + [] == [x];
    assert Pieces([x, ' ', y], false) == [[x], [y]];
    PiecesCons(' ', [x, ' ', y], false);
    assert [' '] + [x, ' ', y] == [' ', x, ' ', y];
  }

  /** As written, a space at the start hides the others: ` a b` is left
      unquoted and the line reads back as three arguments. */
  lemma LeadingSpaceSplits(x: char, y: char)
    requires x != '"' && x != ' ' && y != '"' && y != ' '
    ensures EscapeAndJoinArguments([[' ', x, ' ', y]]) == [' ', x, ' ', y]
    ensures ParseCommandLine(EscapeAndJoinArguments([[' ', x, ' ', y]])) == ["", [x], [y]]
  {
    var line := [' ', x, ' ', y];
    assert !FoundAfterStart(line, '"') by {
      assert '"' !in line;
      FoundAfterStartIff(line, '"');
    }
    assert !FoundAfterStart(line, ' ') by {
      FoundAfterStartIff(line, ' ');
    }
    assert EscapeEach([line], Escape) == [line];
    PiecesExample(x, y);
  }
}
