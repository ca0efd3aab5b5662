/** `Compiler`: the arguments handed to the SDK compiler and the filter its
    output lines go through. Starting and polling the process are not
    modelled; each output line arrives here as an optional string (the
    process reports `null` at the end of a stream). */
module Compiler {
  import opened Wrappers
  import opened Numeric
  import Text
  import PathHelper

  // ---------------------------------------------------------------------
  // Arguments

  const DebugSwitch: string := "-debug"

  /** No element occurs twice. */
  predicate Distinct(xs: seq<string>) {
    forall i, j :: 0 <= i < j < |xs| ==> xs[i] != xs[j]
  }

  /** `xs` is `ys` with some elements left out, the rest in order. */
  predicate Subsequence(xs: seq<string>, ys: seq<string>)
    decreases |ys|
  {
    |xs| == 0 || (|ys| > 0 && (if xs[0] == ys[0] then Subsequence(xs[1..], ys[1..]) else Subsequence(xs, ys[1..])))
  }

  /** LINQ `Except`: the first occurrence of every element not in
      `excluded`, in order; `excluded` grows with every element taken. */
  function Except(xs: seq<string>, excluded: set<string>): (r: seq<string>)
    ensures |r| <= |xs|
    decreases |xs|
  {
    if |xs| == 0 then []
    else if xs[0] in excluded then Except(xs[1..], excluded)
    else [xs[0]] + Except(xs[1..], excluded + {xs[0]})
  }

  /** What `Except` keeps: exactly the elements outside `excluded`, each
      once, in their order in the input. */
  lemma {:induction false} ExceptFacts(xs: seq<string>, excluded: set<string>)
    ensures forall x :: x in Except(xs, excluded) <==> x in xs && x !in excluded
    ensures Distinct(Except(xs, excluded))
    ensures Subsequence(Except(xs, excluded), xs)
    decreases |xs|
  {
    if |xs| > 0 {
      var r := Except(xs, excluded);
      if xs[0] in excluded {
        ExceptFacts(xs[1..], excluded);
        SubsequenceSkip(r, xs);
      } else {
        var tail := Except(xs[1..], excluded + {xs[0]});
        ExceptFacts(xs[1..], excluded + {xs[0]});
        assert r[1..] == tail;
      }
    }
  }

  /** Dropping the head of the longer list keeps a subsequence relation
      with any list that avoided it. */
  lemma SubsequenceSkip(xs: seq<string>, ys: seq<string>)
    requires |ys| > 0 && Subsequence(xs, ys[1..])
    requires |xs| > 0 ==> xs[0] != ys[0] || Subsequence(xs[1..], ys[1..])
    ensures Subsequence(xs, ys)
  {
  }

  /** `Compile`: without the debug option, `-debug` is dropped and, since
      `Except` is a set difference, so is every repeated argument. */
  function CompileArguments(args: seq<string>, debug: bool): (r: seq<string>)
    ensures debug ==> r == args
    ensures !debug ==> DebugSwitch !in r && Distinct(r) && Subsequence(r, args)
    ensures !debug ==> forall x :: x in r <==> x in args && x != DebugSwitch
  {
    if debug then args
    else
      ExceptFacts(args, {DebugSwitch});
      Except(args, {DebugSwitch})
  }

  /** The command line of one compiler run. */
  function CommandLine(args: seq<string>, debug: bool): string {
    PathHelper.EscapeAndJoinArguments(CompileArguments(args, debug))
  }

  /** The argument lists of `CompileGame`, `CompileMod` and `CompileShaders`. */
  const GameArguments: seq<string> := [Make, DebugSwitch, NoPause, "-unattended"]

  function ModArguments(modName: string, stagingPath: string): seq<string> {
    [Make, DebugSwitch, NoPause, Mods, modName, stagingPath]
  }

  function ShaderArguments(modName: string): seq<string> {
    ["precompileshaders", "-nopause", "platform=pc_sm4", "DLC=" + modName]
  }

  /** A list that is already free of repeats and of `-debug` is kept as it
      is. */
  lemma {:induction false} ExceptOfDistinct(xs: seq<string>, excluded: set<string>)
    requires Distinct(xs)
    requires forall i :: 0 <= i < |xs| ==> xs[i] !in excluded
    ensures Except(xs, excluded) == xs
    decreases |xs|
  {
    if |xs| > 0 {
      forall i | 0 <= i < |xs[1..]|
        ensures xs[1..][i] !in excluded + {xs[0]}
      {
        assert xs[1..][i] == xs[i + 1];
      }
      ExceptOfDistinct(xs[1..], excluded + {xs[0]});
      assert [xs[0]] + xs[1..] == xs;
    }
  }

  /** The first steps of `Except`: an excluded head is skipped, any other
      is kept and excluded from then on. */
  lemma ExceptCons(x: string, xs: seq<string>, excluded: set<string>)
    ensures x in excluded ==> Except([x] + xs, excluded) == Except(xs, excluded)
    ensures x !in excluded ==> Except([x] + xs, excluded) == [x] + Except(xs, excluded + {x})
  {
    assert ([x] + xs)[1..] == xs;
  }

  const Make: string := "make"
  const NoPause: string := "-nopause"
  const Mods: string := "-mods"

  /** The fixed arguments of a mod build; they differ in length, hence
      from each other. */
  predicate IsModSwitch(s: string) {
    s == Make || s == DebugSwitch || s == NoPause || s == Mods
  }

  lemma SwitchLengths()
    ensures |Make| == 4 && |DebugSwitch| == 6 && |NoPause| == 8 && |Mods| == 5
  {
  }

  lemma DistinctFour(a: string, b: string, c: string, d: string)
    requires a != b && a != c && a != d && b != c && b != d && c != d
    ensures Distinct([a, b, c, d])
  {
  }

  /** `Except` over a list whose second element is the only excluded one:
      the head is kept, the excluded element dropped, and the rest kept
      minus repeats. */
  lemma ExceptSecond(a: string, d: string, rest: seq<string>)
    requires a != d
    ensures Except([a, d] + rest, {d}) == [a] + Except(rest, {d, a})
  {
    assert [a, d] + rest == [a] + ([d] + rest);
    ExceptCons(a, [d] + rest, {d});
    assert {d} + {a} == {d, a};
    ExceptCons(d, rest, {d, a});
  }

  /** A mod build without the debug option passes exactly the other five
      arguments when the mod name and staging path are distinct from each
      other and from the fixed switches. */
  lemma ModArgumentsWithoutDebug(modName: string, stagingPath: string)
    requires modName != stagingPath && !IsModSwitch(modName) && !IsModSwitch(stagingPath)
    ensures CompileArguments(ModArguments(modName, stagingPath), false) ==
      [Make, NoPause, Mods, modName, stagingPath]
  {
    SwitchLengths();
    var rest := [NoPause, Mods, modName, stagingPath];
    assert ModArguments(modName, stagingPath) == [Make, DebugSwitch] + rest;
    ExceptSecond(Make, DebugSwitch, rest);
    DistinctFour(NoPause, Mods, modName, stagingPath);
    ExceptOfDistinct(rest, {DebugSwitch, Make});
  }

  /** When the staging path equals the mod name, a build without the debug
      option passes it only once. */
  lemma RepeatedArgumentDropped(name: string)
    requires !IsModSwitch(name)
    ensures CompileArguments(ModArguments(name, name), false) == [Make, NoPause, Mods, name]
  {
    SwitchLengths();
    var rest := [NoPause, Mods, name, name];
    assert ModArguments(name, name) == [Make, DebugSwitch] + rest;
    ExceptSecond(Make, DebugSwitch, rest);
    RepeatedLast(NoPause, Mods, name, {DebugSwitch, Make});
  }

  lemma RepeatedLast(a: string, b: string, c: string, excluded: set<string>)
    requires a != b && a != c && b != c
    requires a !in excluded && b !in excluded && c !in excluded
    ensures Except([a, b, c, c], excluded) == [a, b, c]
  {
    assert [a, b, c, c] == [a] + ([b] + ([c] + [c]));
    ExceptCons(a, [b] + ([c] + [c]), excluded);
    ExceptCons(b, [c] + [c], excluded + {a});
    ExceptCons(c, [c], excluded + {a} + {b});
    ExceptCons(c, [], excluded + {a} + {b} + {c});
    assert [c] + [] == [c];
    assert Except([], excluded + {a} + {b} + {c}) == [];
  }

  /** The compiler reads back the arguments it was given, as long as the
      two caller-supplied ones are non-empty and start with neither a
      quote nor a space. */
  lemma ModCommandLineReadsBack(modName: string, stagingPath: string, debug: bool)
    requires |modName| > 0 && modName[0] != '"' && modName[0] != ' '
    requires |stagingPath| > 0 && stagingPath[0] != '"' && stagingPath[0] != ' '
    ensures PathHelper.ParseCommandLine(CommandLine(ModArguments(modName, stagingPath), debug)) ==
      CompileArguments(ModArguments(modName, stagingPath), debug)
  {
    var args := ModArguments(modName, stagingPath);
    var passed := CompileArguments(args, debug);
    forall i | 0 <= i < |passed|
      ensures |passed[i]| > 0 && passed[i][0] != '"' && passed[i][0] != ' '
    {
      assert passed[i] in args;
    }
    assert Make in passed;
    PathHelper.CommandLineRoundTripAsWritten(passed);
  }

  // ---------------------------------------------------------------------
  // Output filter

  /** What becomes of one output line. */
  datatype Outcome =
    | Dropped               // not shown at all
    | Verbose(line: string) // reported only in verbose mode
    | Written(line: string) // written to the stream it came from

  /** The collaborators the filter calls: `Path.GetFileName` and the
      `ReplacePaths` substitutions, applied in order. */
  datatype Environment = Environment(fileName: string -> string, rewritePaths: string -> string)

  predicate IsDash(c: char) {
    c == '-'
  }

  /** `string.IsNullOrWhiteSpace(text.Trim('-'))`. */
  predicate BlankOnceUndashed(text: string) {
    Text.IsBlank(Text.Trim(text, IsDash))
  }

  /** A dashed Release or Debug banner. */
  predicate Banner(text: string) {
    Text.StartsWith(text, "-----") && Text.EndsWith(text, "-----")
    && (Text.Contains(text, " - Release") || Text.Contains(text, " - Debug"))
  }

  /** The substrings that mark a line as uninteresting. */
  const NoiseMarkers: seq<string> := [
    "Executing Class UnrealEd.MakeCommandlet",
    "Executing Class UnrealEd.PrecompileShadersCommandlet",
    "invalid uniform expression set",
    "Execution of commandlet took",
    "No scripts need recompiling",
    "Analyzing...",
    "Compile aborted due to errors",
    "Warning/Error Summary",
    "Compiling shaders for",
    "Starting package",
    "Package processing complete",
    "NumFullyLoadedPackages",
    "NumFastPackages"]

  predicate HasNoiseMarker(text: string) {
    exists i :: 0 <= i < |NoiseMarkers| && Text.Contains(text, NoiseMarkers[i])
  }

  /** The first condition of `FilterOutput`, on a line that is not null. */
  predicate IsNoise(text: string) {
    || BlankOnceUndashed(text)
    || Banner(text)
    || HasNoiseMarker(text)
    || (Text.Contains(text, " = ") && Text.Contains(text, " min"))
  }

  /** The literal text before the package name of a success message. */
  const SavingPrefix: string := "Scripts successfully compiled - saving package '"

  /** The last index of `c` in `s`. */
  function LastIndexOf(s: string, c: char): (r: Option<nat>)
    ensures r.Some? ==> r.value < |s| && s[r.value] == c
    ensures r.Some? ==> forall j :: r.value < j < |s| ==> s[j] != c
    ensures r.None? ==> c !in s
  {
    if |s| == 0 then None
    else if s[|s| - 1] == c then Some(|s| - 1)
    else LastIndexOf(s[..|s| - 1], c)
  }

  /** Where a `.*` starting at `from` must stop: at the first line feed. */
  function LineEnd(text: string, from: nat): (e: nat)
    requires from <= |text|
    ensures from <= e <= |text|
    ensures forall j :: from <= j < e ==> text[j] != '\n'
    ensures e < |text| ==> text[e] == '\n'
    decreases |text| - from
  {
    if from == |text| || text[from] == '\n' then from else LineEnd(text, from + 1)
  }

  /** The regular expression `Scripts successfully compiled - saving
      package '(.*)'` searched from `from`: the group of the leftmost
      match, with the greedy `.*` reaching the last quote before the end of
      the line. */
  function SavedPackage(text: string, from: nat): (r: Option<string>)
    ensures r.Some? ==> '\n' !in r.value
    ensures r.Some? ==> exists i :: from <= i && Text.OccursAt(text, SavingPrefix + r.value + "'", i)
    decreases |text| - from
  {
    var k := Text.IndexOfFrom(text, SavingPrefix, from);
    if k.None? then None
    else
      var start := k.value + |SavingPrefix|;
      var window := text[start..LineEnd(text, start)];
      match LastIndexOf(window, '\'')
      case Some(j) =>
        MatchSpans(text, k.value, SavingPrefix, window, j);
        Some(window[..j])
      case None => SavedPackage(text, k.value + 1)
  }

  /** A prefix at `i`, then a window of text whose `j`th character is a
      quote: the prefix, the window's first `j` characters and the quote
      occur together at `i`. */
  lemma MatchSpans(text: string, i: nat, prefix: string, window: string, j: nat)
    requires Text.OccursAt(text, prefix, i)
    requires i + |prefix| + |window| <= |text| && text[i + |prefix|..i + |prefix| + |window|] == window
    requires j < |window| && window[j] == '\''
    ensures Text.OccursAt(text, prefix + window[..j] + "'", i)
  {
    var start := i + |prefix|;
    assert text[start..start + j + 1] == window[..j + 1];
    assert window[..j + 1] == window[..j] + "'";
    assert text[i..start + j + 1] == text[i..start] + text[start..start + j + 1];
  }

  /** The length of the run of decimal digits starting at `from`. */
  function DigitRun(text: string, from: nat): (n: nat)
    requires from <= |text|
    ensures from + n <= |text|
    ensures forall j :: from <= j < from + n ==> IsDigit(text[j])
    ensures from + n < |text| ==> !IsDigit(text[from + n])
    decreases |text| - from
  {
    if from == |text| || !IsDigit(text[from]) then 0 else 1 + DigitRun(text, from + 1)
  }

  const SuccessText: string := "Success - "
  const FailureText: string := "Failure - "
  const ErrorsText: string := " error(s), "
  const WarningsText: string := " warning(s)"

  /** A run of `n >= 1` digits at `k` followed by `t`. */
  predicate DigitsThen(text: string, k: nat, n: nat, t: string) {
    k + n <= |text| && n > 0 && (forall j :: k <= j < k + n ==> IsDigit(text[j])) && Text.OccursAt(text, t, k + n)
  }

  /** A maximal, non-empty run of digits at `k` followed by `t`: the digits. */
  function DigitsBefore(text: string, k: nat, t: string): (r: Option<string>)
    requires k <= |text|
    ensures r.Some? ==> AllDigits(r.value) && DigitsThen(text, k, |r.value|, t) && Text.OccursAt(text, r.value, k)
  {
    var n := DigitRun(text, k);
    if n == 0 || !Text.OccursAt(text, t, k + n) then None else Some(text[k..k + n])
  }

  /** `(Success|Failure) - ([0-9]+) error\(s\), ([0-9]+) warning\(s\)`
      anchored at `i`: the two digit strings. A digit group is always
      maximal, since what follows it starts with a space. */
  function CountsAt(text: string, i: nat): (r: Option<(string, string)>)
    ensures r.Some? ==> AllDigits(r.value.0) && AllDigits(r.value.1)
    ensures r.Some? ==> Text.OccursAt(text, SuccessText, i) || Text.OccursAt(text, FailureText, i)
    ensures r.Some? ==> var k2 := i + 10 + |r.value.0|;
      DigitsThen(text, i + 10, |r.value.0|, ErrorsText) && Text.OccursAt(text, r.value.0, i + 10)
      && DigitsThen(text, k2 + |ErrorsText|, |r.value.1|, WarningsText)
      && Text.OccursAt(text, r.value.1, k2 + |ErrorsText|)
  {
    if !Text.OccursAt(text, SuccessText, i) && !Text.OccursAt(text, FailureText, i) then None
    else
      match DigitsBefore(text, i + 10, ErrorsText)
      case None => None
      case Some(errors) =>
        match DigitsBefore(text, i + 10 + |errors| + |ErrorsText|, WarningsText)
        case None => None
        case Some(warnings) => Some((errors, warnings))
  }

  /** The leftmost match at or after `from`. */
  function Counts(text: string, from: nat): (r: Option<(string, string)>)
    ensures r.Some? ==> AllDigits(r.value.0) && AllDigits(r.value.1)
    ensures r.Some? ==> exists i :: from <= i && CountsAt(text, i) == r
    ensures r.None? ==> forall i :: from <= i ==> CountsAt(text, i).None?
    decreases |text| - from
  {
    if from > |text| then None
    else if CountsAt(text, from).Some? then CountsAt(text, from)
    else Counts(text, from + 1)
  }

  /** ` : (Error|Warning), `. */
  predicate IsDiagnostic(text: string) {
    Text.Contains(text, " : Error, ") || Text.Contains(text, " : Warning, ")
  }

  /** The branches of `FilterOutput`, in the order the code tries them. */
  datatype Kind =
    | Noise
    | Saved(package: string)
    | Tally(errors: nat, warnings: nat)
    | Diagnostic
    | Other

  function Classify(text: Option<string>): (k: Kind)
    ensures text.None? ==> k == Noise
    ensures text.Some? ==> (k == Noise <==> IsNoise(text.value))
    ensures k.Saved? ==> SavedPackage(text.value, 0) == Some(k.package)
    ensures k.Tally? ==>
      SavedPackage(text.value, 0).None? && Counts(text.value, 0).Some?
      && k.errors == DigitsValue(Counts(text.value, 0).value.0) && k.warnings == DigitsValue(Counts(text.value, 0).value.1)
    ensures k == Diagnostic ==> SavedPackage(text.value, 0).None? && Counts(text.value, 0).None? && IsDiagnostic(text.value)
    ensures k == Other ==>
      text.Some? && !IsNoise(text.value) && SavedPackage(text.value, 0).None?
      && Counts(text.value, 0).None? && !IsDiagnostic(text.value)
  {
    match text
    case None => Noise
    case Some(t) =>
      if IsNoise(t) then Noise
      else match SavedPackage(t, 0)
        case Some(p) => Saved(p)
        case None =>
          match Counts(t, 0)
          case Some((e, w)) => Tally(DigitsValue(e), DigitsValue(w))
          case None => if IsDiagnostic(t) then Diagnostic else Other
  }

  /** The rewritten count message. */
  function TallyText(errors: nat, warnings: nat): string {
    Decimal(errors) + " errors and " + Decimal(warnings) + " warnings"
  }

  /** The count branch: both zero is dropped, anything else rewritten; a
      count above `int.MaxValue` makes `int.Parse` throw. */
  function Tallied(errors: nat, warnings: nat): (r: Result<Outcome>)
    ensures r.Err? <==> errors > IntMax || warnings > IntMax
    ensures r.Ok? ==> (r.value == Dropped <==> errors == 0 && warnings == 0)
    ensures r.Ok? && r.value != Dropped ==> r.value == Written(TallyText(errors, warnings))
  {
    if errors > IntMax || warnings > IntMax then Err(Overflow)
    else if errors == 0 && warnings == 0 then Ok(Dropped)
    else Ok(Written(TallyText(errors, warnings)))
  }

  /** The diagnostic branch: a line already seen is dropped; a new one is
      remembered and written with its paths rewritten. */
  function Deduplicated(line: string, duplicates: set<string>, env: Environment): (r: (Outcome, set<string>))
    ensures r.1 == duplicates + {line}
    ensures r.0 == Dropped <==> line in duplicates
    ensures line !in duplicates ==> r.0 == Written(env.rewritePaths(line))
  {
    if line in duplicates then (Dropped, duplicates)
    else (Written(env.rewritePaths(line)), duplicates + {line})
  }

  /** What `FilterOutput` does with a line of the given kind. */
  function Apply(kind: Kind, line: string, duplicates: set<string>, env: Environment)
    : (r: Result<(Outcome, set<string>)>)
    ensures kind == Noise ==> r == Ok((Dropped, duplicates))
    ensures kind.Saved? ==> r == Ok((Verbose(env.fileName(kind.package) + " ok"), duplicates))
    ensures kind.Tally? ==>
      var t := Tallied(kind.errors, kind.warnings);
      (r.Err? <==> t.Err?) && (r.Ok? ==> r.value == (t.value, duplicates))
    ensures kind == Diagnostic ==> r == Ok(Deduplicated(line, duplicates, env))
    ensures kind == Other ==> r == Ok((Written(line), duplicates))
    ensures r.Ok? ==> duplicates <= r.value.1
    ensures r.Ok? && kind != Diagnostic ==> r.value.1 == duplicates
  {
    match kind
    case Noise => Ok((Dropped, duplicates))
    case Saved(p) => Ok((Verbose(env.fileName(p) + " ok"), duplicates))
    case Tally(e, w) =>
      (match Tallied(e, w)
       case Err(error) => Err(error)
       case Ok(outcome) => Ok((outcome, duplicates)))
    case Diagnostic => Ok(Deduplicated(line, duplicates, env))
    case Other => Ok((Written(line), duplicates))
  }

  /** `FilterOutput` for one line: the outcome and the duplicate set after
      it. A null line is dropped. */
  function FilterOutput(text: Option<string>, duplicates: set<string>, env: Environment)
    : (r: Result<(Outcome, set<string>)>)
    ensures text.None? ==> r == Ok((Dropped, duplicates))
    ensures text.Some? ==> r == Apply(Classify(text), text.value, duplicates, env)
  {
    match text
    case None => Ok((Dropped, duplicates))
    case Some(line) => Apply(Classify(text), line, duplicates, env)
  }

  /** The filter of one line, as a function of the line and the duplicate
      set so far. */
  type LineFilter = (Option<string>, set<string>) -> Result<(Outcome, set<string>)>

  /** A filter that only ever adds to the duplicate set. */
  ghost predicate Growing(filter: LineFilter) {
    forall line, duplicates :: filter(line, duplicates).Ok? ==> duplicates <= filter(line, duplicates).value.1
  }

  /** A run of lines through a filter, threading the duplicate set; the
      first failure ends the run. */
  function Run(lines: seq<Option<string>>, duplicates: set<string>, filter: LineFilter)
    : (r: Result<(seq<Outcome>, set<string>)>)
    ensures r.Ok? ==> |r.value.0| == |lines|
    ensures r.Ok? && Growing(filter) ==> duplicates <= r.value.1
    decreases |lines|
  {
    if |lines| == 0 then Ok(([], duplicates))
    else
      match filter(lines[0], duplicates)
      case Err(e) => Err(e)
      case Ok((outcome, seen)) =>
        match Run(lines[1..], seen, filter)
        case Err(e) => Err(e)
        case Ok((outcomes, final)) => Ok(([outcome] + outcomes, final))
  }

  function OutputFilter(env: Environment): LineFilter {
    (line, duplicates) => FilterOutput(line, duplicates, env)
  }

  lemma OutputFilterGrowing(env: Environment)
    ensures Growing(OutputFilter(env))
  {
  }

  /** One compiler run's lines through `FilterOutput`, sharing one duplicate
      set. */
  function FilterLines(lines: seq<Option<string>>, duplicates: set<string>, env: Environment)
    : (r: Result<(seq<Outcome>, set<string>)>)
    ensures r.Ok? ==> |r.value.0| == |lines| && duplicates <= r.value.1
  {
    OutputFilterGrowing(env);
    Run(lines, duplicates, OutputFilter(env))
  }

  lemma RunStep(lines: seq<Option<string>>, duplicates: set<string>, filter: LineFilter)
    requires |lines| > 0 && Run(lines, duplicates, filter).Ok?
    ensures filter(lines[0], duplicates).Ok?
    ensures var seen := filter(lines[0], duplicates).value.1;
      && Run(lines[1..], seen, filter).Ok?
      && Run(lines, duplicates, filter).value.0[1..] == Run(lines[1..], seen, filter).value.0
  {
  }

  /** A line whose key is already known is dropped wherever it comes. */
  lemma {:induction false} RunKnownDropped(
    lines: seq<Option<string>>, duplicates: set<string>, filter: LineFilter, j: nat, key: string)
    requires Growing(filter)
    requires forall known :: key in known && filter(Some(key), known).Ok? ==> filter(Some(key), known).value.0 == Dropped
    requires j < |lines| && lines[j] == Some(key) && key in duplicates
    requires Run(lines, duplicates, filter).Ok?
    ensures Run(lines, duplicates, filter).value.0[j] == Dropped
    decreases |lines|
  {
    RunStep(lines, duplicates, filter);
    var seen := filter(lines[0], duplicates).value.1;
    if j > 0 {
      assert lines[1..][j - 1] == lines[j];
      RunKnownDropped(lines[1..], seen, filter, j - 1, key);
    }
  }

  /** A line the filter remembers is dropped at every later occurrence. */
  lemma {:induction false} RunOnce(
    lines: seq<Option<string>>, duplicates: set<string>, filter: LineFilter, i: nat, j: nat, key: string)
    requires Growing(filter)
    requires forall known :: key in known && filter(Some(key), known).Ok? ==> filter(Some(key), known).value.0 == Dropped
    requires forall known :: filter(Some(key), known).Ok? ==> key in filter(Some(key), known).value.1
    requires i < j < |lines| && lines[i] == Some(key) && lines[j] == Some(key)
    requires Run(lines, duplicates, filter).Ok?
    ensures Run(lines, duplicates, filter).value.0[j] == Dropped
    decreases |lines|
  {
    RunStep(lines, duplicates, filter);
    var seen := filter(lines[0], duplicates).value.1;
    assert lines[1..][j - 1] == lines[j];
    if i == 0 {
      RunKnownDropped(lines[1..], seen, filter, j - 1, key);
    } else {
      assert lines[1..][i - 1] == lines[i];
      RunOnce(lines[1..], seen, filter, i - 1, j - 1, key);
    }
  }

  /** The same error or warning line is written at most once per run:
      every later copy is dropped. */
  lemma DiagnosticWrittenOnce(
    lines: seq<Option<string>>, duplicates: set<string>, env: Environment, i: nat, j: nat)
    requires i < j < |lines| && lines[i] == lines[j] && Classify(lines[i]) == Diagnostic
    requires FilterLines(lines, duplicates, env).Ok?
    ensures FilterLines(lines, duplicates, env).value.0[j] == Dropped
  {
    var line := lines[i];
    assert line.Some?;
    var key := line.value;
    var filter := OutputFilter(env);
    OutputFilterGrowing(env);
    forall known
      ensures filter(Some(key), known).Ok?
      ensures filter(Some(key), known) == Ok(Deduplicated(key, known, env))
    {
      assert filter(Some(key), known) == FilterOutput(line, known, env);
    }
    RunOnce(lines, duplicates, filter, i, j, key);
  }

  /** The rewritten count message reads back as the two counts: five
      space-separated words whose first and fourth are the numbers. */
  lemma TallyTextReadsBack(errors: nat, warnings: nat)
    ensures Text.Split(TallyText(errors, warnings), ' ') ==
      [Decimal(errors), "errors", "and", Decimal(warnings), "warnings"]
    ensures DigitsValue(Decimal(errors)) == errors && DigitsValue(Decimal(warnings)) == warnings
  {
    var e, w := Decimal(errors), Decimal(warnings);
    var parts := [e, "errors", "and", w, "warnings"];
    TallyTextJoins(e, w);
    assert forall i :: 0 <= i < |parts| ==> ' ' !in parts[i] by {
      assert ' ' !in e && ' ' !in w;
    }
    Text.SplitJoin(parts, ' ');
    DecimalRoundTrip(errors);
    DecimalRoundTrip(warnings);
  }

  lemma TallyTextJoins(e: string, w: string)
    ensures Text.Join([e, "errors", "and", w, "warnings"], ' ') == e + " errors and " + w + " warnings"
  {
    var parts := [e, "errors", "and", w, "warnings"];
    assert Text.Join(parts[4..], ' ') == "warnings";
    assert Text.Join(parts[3..], ' ') == w + " warnings";
    assert Text.Join(parts[2..], ' ') == "and " + w + " warnings";
    assert Text.Join(parts[1..], ' ') == "errors and " + w + " warnings";
  }
}
