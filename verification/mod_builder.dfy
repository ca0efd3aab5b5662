/** `ModBuilder`: the order in which a build stages, cleans, compiles and
    deploys a mod, and the "smart" cleaning that keeps only the game's
    standard sources, compiled scripts and manifest lines in the SDK. The
    file system and the compiler are outside the model: a build is the
    sequence of steps it performs, and a compile step's outcome is a
    parameter. */
module ModBuilder {
  import Text

  /** `StandardSourceCodeFolderNames`: the source folders the SDK ships. */
  const StandardSourceCodeFolderNames: seq<string> := [
    "AkAudio", "Core", "DLC_1", "DLC_2", "DLC_3", "Engine", "GameFramework", "GFxUI",
    "GFxUIEditor", "IpDrv", "OnlineSubsystemSteamworks", "TLE", "UnrealEd", "XComEditor", "XComGame"]

  const ScriptExtension: string := ".u"
  const DoNotDeleteName: string := "DO_NOT_DELETE.TXT"
  const ManifestName: string := "Manifest.txt"
  const WinDrv: string := "WinDrv"
  const XAudio2: string := "XAudio2"

  /** `Enumerable.Union`: the elements of `a` then of `b`, each value once,
      in order of first appearance. */
  function Union(a: seq<string>, b: seq<string>): (r: seq<string>)
    ensures forall x :: x in r <==> x in a || x in b
    ensures forall i, j :: 0 <= i < j < |r| ==> r[i] != r[j]
  {
    UnionInto([], a + b)
  }

  function UnionInto(seen: seq<string>, rest: seq<string>): (r: seq<string>)
    requires forall i, j :: 0 <= i < j < |seen| ==> seen[i] != seen[j]
    ensures forall x :: x in r <==> x in seen || x in rest
    ensures forall i, j :: 0 <= i < j < |r| ==> r[i] != r[j]
    decreases |rest|
  {
    if |rest| == 0 then seen
    else if rest[0] in seen then UnionInto(seen, rest[1..])
    else UnionInto(seen + [rest[0]], rest[1..])
  }

  function WithExtension(names: seq<string>, extension: string): (r: seq<string>)
    ensures |r| == |names|
    ensures forall i :: 0 <= i < |names| ==> r[i] == names[i] + extension
  {
    if |names| == 0 then [] else [names[0] + extension] + WithExtension(names[1..], extension)
  }

  /** `StandardCompiledScripts`: a `.u` file per standard folder, the
      do-not-delete marker and the manifest. */
  const StandardCompiledScripts: seq<string> :=
    Union(WithExtension(StandardSourceCodeFolderNames, ScriptExtension), [DoNotDeleteName, ManifestName])

  /** `StandardManifestModules`: the standard folders plus two engine modules
      that have no source folder. */
  const StandardManifestModules: seq<string> :=
    Union(StandardSourceCodeFolderNames, [WinDrv, XAudio2])

  /** `names.Any(x => string.Equals(x, name, OrdinalIgnoreCase))`. */
  predicate AnyIgnoreCase(names: seq<string>, name: string) {
    exists i :: 0 <= i < |names| && Text.EqualsIgnoreCase(names[i], name)
  }

  predicate IsStandardFolder(name: string) {
    AnyIgnoreCase(StandardSourceCodeFolderNames, name)
  }

  predicate IsStandardScript(fileName: string) {
    AnyIgnoreCase(StandardCompiledScripts, fileName)
  }

  predicate IsStandardModule(name: string) {
    AnyIgnoreCase(StandardManifestModules, name)
  }

  /** Case-insensitive membership in a union is membership in either part. */
  lemma AnyIgnoreCaseUnion(a: seq<string>, b: seq<string>, name: string)
    ensures AnyIgnoreCase(Union(a, b), name) <==> AnyIgnoreCase(a, name) || AnyIgnoreCase(b, name)
  {
    var u := Union(a, b);
    if AnyIgnoreCase(u, name) {
      var i :| 0 <= i < |u| && Text.EqualsIgnoreCase(u[i], name);
      assert u[i] in a || u[i] in b;
      if u[i] in a {
        var j :| 0 <= j < |a| && a[j] == u[i];
      } else {
        var j :| 0 <= j < |b| && b[j] == u[i];
      }
    }
    if AnyIgnoreCase(a, name) {
      var j :| 0 <= j < |a| && Text.EqualsIgnoreCase(a[j], name);
      assert a[j] in u;
      var i :| 0 <= i < |u| && u[i] == a[j];
    }
    if AnyIgnoreCase(b, name) {
      var j :| 0 <= j < |b| && Text.EqualsIgnoreCase(b[j], name);
      assert b[j] in u;
      var i :| 0 <= i < |u| && u[i] == b[j];
    }
  }

  lemma AnyIgnoreCasePair(x: string, y: string, name: string)
    ensures AnyIgnoreCase([x, y], name) <==> Text.EqualsIgnoreCase(x, name) || Text.EqualsIgnoreCase(y, name)
  {
    if Text.EqualsIgnoreCase(x, name) {
      assert [x, y][0] == x;
    }
    if Text.EqualsIgnoreCase(y, name) {
      assert [x, y][1] == y;
    }
  }

  /** Case-insensitive membership among names with an extension appended. */
  lemma AnyIgnoreCaseExtension(names: seq<string>, extension: string, name: string)
    ensures AnyIgnoreCase(WithExtension(names, extension), name) <==>
      exists i :: 0 <= i < |names| && Text.EqualsIgnoreCase(names[i] + extension, name)
  {
    var r := WithExtension(names, extension);
    if AnyIgnoreCase(r, name) {
      var i :| 0 <= i < |r| && Text.EqualsIgnoreCase(r[i], name);
      assert Text.EqualsIgnoreCase(names[i] + extension, name);
    }
  }

  /** A manifest module is standard exactly when it names a standard source
      folder or one of the two engine modules, ignoring case. */
  lemma StandardModuleIff(name: string)
    ensures IsStandardModule(name) <==>
      IsStandardFolder(name) || Text.EqualsIgnoreCase(WinDrv, name) || Text.EqualsIgnoreCase(XAudio2, name)
  {
    AnyIgnoreCaseUnion(StandardSourceCodeFolderNames, [WinDrv, XAudio2], name);
    AnyIgnoreCasePair(WinDrv, XAudio2, name);
  }

  /** A compiled script is standard exactly when it is a standard folder's
      name with `.u` appended, or the marker or the manifest, ignoring case. */
  lemma StandardScriptIff(fileName: string)
    ensures IsStandardScript(fileName) <==>
      (exists i :: 0 <= i < |StandardSourceCodeFolderNames| &&
        Text.EqualsIgnoreCase(StandardSourceCodeFolderNames[i] + ScriptExtension, fileName))
      || Text.EqualsIgnoreCase(DoNotDeleteName, fileName) || Text.EqualsIgnoreCase(ManifestName, fileName)
  {
    var scripts := WithExtension(StandardSourceCodeFolderNames, ScriptExtension);
    AnyIgnoreCaseUnion(scripts, [DoNotDeleteName, ManifestName], fileName);
    AnyIgnoreCasePair(DoNotDeleteName, ManifestName, fileName);
    AnyIgnoreCaseExtension(StandardSourceCodeFolderNames, ScriptExtension, fileName);
  }

  /** `xs.Where(keep)`, in order. */
  function Where(xs: seq<string>, keep: string -> bool): (r: seq<string>)
    ensures |r| <= |xs|
    ensures forall x :: x in r <==> x in xs && keep(x)
  {
    if |xs| == 0 then []
    else (if keep(xs[0]) then [xs[0]] else []) + Where(xs[1..], keep)
  }

  /** Filtering is done line by line: what is kept of a concatenation is
      what is kept of each part, in the same order. */
  lemma {:induction false} WhereAppend(a: seq<string>, b: seq<string>, keep: string -> bool)
    ensures Where(a + b, keep) == Where(a, keep) + Where(b, keep)
    decreases |a|
  {
    if |a| == 0 {
      assert a + b == b;
    } else {
      assert (a + b)[1..] == a[1..] + b;
      WhereAppend(a[1..], b, keep);
    }
  }

  /** Filtering twice keeps what filtering once keeps. */
  lemma {:induction false} WhereIdempotent(xs: seq<string>, keep: string -> bool)
    ensures Where(Where(xs, keep), keep) == Where(xs, keep)
    decreases |xs|
  {
    if |xs| > 0 {
      var rest := Where(xs[1..], keep);
      WhereIdempotent(xs[1..], keep);
      if keep(xs[0]) {
        assert Where(xs, keep) == [xs[0]] + rest;
        assert ([xs[0]] + rest)[1..] == rest;
      } else {
        assert Where(xs, keep) == rest;
      }
    }
  }

  /** What `SmartCleanSdkSourceCode` deletes. */
  datatype Deletions = Deletions(folders: seq<string>, files: seq<string>)

  /** `SmartCleanSdkSourceCode`: every folder whose name is not a standard
      folder is deleted, and every loose file. */
  function SmartCleanSource(folderNames: seq<string>, fileNames: seq<string>): (d: Deletions)
    ensures forall f :: f in d.folders <==> f in folderNames && !IsStandardFolder(f)
    ensures d.files == fileNames
  {
    Deletions(Where(folderNames, f => !IsStandardFolder(f)), fileNames)
  }

  /** The first loop of `SmartCleanSdkCompiledScripts`: the compiled-script
      files deleted are those that are not standard. */
  function SmartCleanScripts(fileNames: seq<string>): (deleted: seq<string>)
    ensures forall f :: f in deleted <==> f in fileNames && !IsStandardScript(f)
  {
    Where(fileNames, f => !IsStandardScript(f))
  }

  function RemoveEmpty(parts: seq<string>): (r: seq<string>)
    ensures |r| <= |parts|
    ensures forall i :: 0 <= i < |r| ==> |r[i]| > 0
  {
    if |parts| == 0 then []
    else (if |parts[0]| > 0 then [parts[0]] else []) + RemoveEmpty(parts[1..])
  }

  /** `line.Split(' ', RemoveEmptyEntries)`: the space-separated words. */
  function Words(line: string): (words: seq<string>)
    ensures forall i :: 0 <= i < |words| ==> |words[i]| > 0 && ' ' !in words[i]
  {
    var parts := Text.Split(line, ' ');
    var r := RemoveEmpty(parts);
    assert forall i :: 0 <= i < |r| ==> r[i] in parts by {
      RemoveEmptySubset(parts);
    }
    r
  }

  lemma {:induction false} RemoveEmptySubset(parts: seq<string>)
    ensures forall x :: x in RemoveEmpty(parts) ==> x in parts
    decreases |parts|
  {
    if |parts| > 0 {
      RemoveEmptySubset(parts[1..]);
    }
  }

  lemma {:induction false} RemoveEmptyNone(parts: seq<string>)
    requires forall i :: 0 <= i < |parts| ==> |parts[i]| > 0
    ensures RemoveEmpty(parts) == parts
    decreases |parts|
  {
    if |parts| > 0 {
      RemoveEmptyNone(parts[1..]);
      assert [parts[0]] + parts[1..] == parts;
    }
  }

  /** A manifest line survives when it has fewer than three words or its
      third word names a standard module. */
  predicate KeepManifestLine(line: string) {
    var words := Words(line);
    |words| < 3 || IsStandardModule(words[2])
  }

  /** The manifest loop of `SmartCleanSdkCompiledScripts`: a list edited in
      place, where removing line `i` steps `i` back so that the line moved
      into its place is examined next. */
  method SmartCleanManifest(lines: seq<string>) returns (kept: seq<string>)
    ensures kept == Where(lines, KeepManifestLine)
  {
    kept := lines;
    ghost var k := 0;
    var i := 0;
    while i < |kept|
      invariant 0 <= i <= |kept| && 0 <= k <= |lines|
      invariant kept[..i] == Where(lines[..k], KeepManifestLine)
      invariant kept[i..] == lines[k..]
      decreases |kept| - i
    {
      var parts := Words(kept[i]);
      if |parts| >= 3 && !IsStandardModule(parts[2]) {
        DropStep(lines, k, kept, i, KeepManifestLine);
        kept := kept[..i] + kept[i + 1..];
        i := i - 1;
      } else {
        KeepStep(lines, k, kept, i, KeepManifestLine);
      }
      i := i + 1;
      k := k + 1;
    }
    assert lines[..k] == lines;
  }

  lemma WhereSnoc(xs: seq<string>, x: string, keep: string -> bool)
    ensures Where(xs + [x], keep) == Where(xs, keep) + (if keep(x) then [x] else [])
  {
    WhereAppend(xs, [x], keep);
    assert Where([x], keep) == (if keep(x) then [x] else []) + Where([], keep);
  }

  /** `List.RemoveAt(i)`: the part before `i` stays, the rest moves down. */
  lemma RemoveAtParts(s: seq<string>, i: nat)
    requires i < |s|
    ensures (s[..i] + s[i + 1..])[..i] == s[..i]
    ensures (s[..i] + s[i + 1..])[i..] == s[i + 1..]
  {
  }

  /** The loop's step when line `i` stays: it joins the kept prefix. */
  lemma KeepStep(lines: seq<string>, k: nat, kept: seq<string>, i: nat, keep: string -> bool)
    requires i < |kept| && k <= |lines|
    requires kept[..i] == Where(lines[..k], keep)
    requires kept[i..] == lines[k..]
    requires keep(kept[i])
    ensures k < |lines|
    ensures kept[..i + 1] == Where(lines[..k + 1], keep)
    ensures kept[i + 1..] == lines[k + 1..]
  {
    assert kept[i..][0] == kept[i];
    assert kept[i..][1..] == kept[i + 1..];
    assert lines[..k + 1] == lines[..k] + [kept[i]];
    WhereSnoc(lines[..k], kept[i], keep);
    assert kept[..i + 1] == kept[..i] + [kept[i]];
  }

  /** The loop's step when line `i` is removed: the kept prefix is unchanged
      and the next line moves into position `i`. */
  lemma DropStep(lines: seq<string>, k: nat, kept: seq<string>, i: nat, keep: string -> bool)
    requires i < |kept| && k <= |lines|
    requires kept[..i] == Where(lines[..k], keep)
    requires kept[i..] == lines[k..]
    requires !keep(kept[i])
    ensures k < |lines|
    ensures (kept[..i] + kept[i + 1..])[..i] == Where(lines[..k + 1], keep)
    ensures (kept[..i] + kept[i + 1..])[i..] == lines[k + 1..]
  {
    assert kept[i..][0] == kept[i];
    assert kept[i..][1..] == kept[i + 1..];
    assert lines[..k + 1] == lines[..k] + [kept[i]];
    WhereSnoc(lines[..k], kept[i], keep);
    RemoveAtParts(kept, i);
  }

  /** A line with fewer than three words is never removed. */
  lemma ShortLineKept(lines: seq<string>, j: nat)
    requires j < |lines| && |Words(lines[j])| < 3
    ensures lines[j] in Where(lines, KeepManifestLine)
  {
  }

  /** A line with at least three words is kept exactly when its third word
      is a standard module, ignoring case. */
  lemma ModuleLineKeptIff(lines: seq<string>, j: nat)
    requires j < |lines| && |Words(lines[j])| >= 3
    ensures lines[j] in Where(lines, KeepManifestLine) <==> IsStandardModule(Words(lines[j])[2])
  {
  }

  /** A manifest line written as words joined by single spaces is judged by
      its third word. */
  lemma {:induction false} JoinedLineKeptIff(words: seq<string>)
    requires |words| >= 3
    requires forall i :: 0 <= i < |words| ==> |words[i]| > 0 && ' ' !in words[i]
    ensures KeepManifestLine(Text.Join(words, ' ')) <==> IsStandardModule(words[2])
  {
    Text.SplitJoin(words, ' ');
    RemoveEmptyNone(words);
  }

  /** The kinds of build. */
  datatype BuildType = Full | Fast | Smart

  /** The steps `Build` takes, in the order it takes them. */
  datatype Step =
    | LoadProject
    | WarnTitleMismatch
    | CleanStaging
    | CreateStaging
    | StageFolder(folder: string)
    | StageMetadata
    | CleanSdkSource
    | RestoreSdkSource
    | SmartCleanSdkSource
    | CopyModSource
    | CleanSdkScripts
    | CleanModSdkScript
    | SmartCleanSdkScripts
    | CompileGame
    | CompileMod
    | StageCompiledScripts
    | Deploy

  predicate IsCompile(s: Step) {
    s.CompileGame? || s.CompileMod?
  }

  const StagedFolders: seq<string> := ["Config", "Content", "Localization", "Src"]

  /** Loading, the title check, and staging of the folders and metadata. */
  function Preamble(titleMatchesName: bool): (steps: seq<Step>)
    ensures forall i :: 0 <= i < |steps| ==> !IsCompile(steps[i]) && !steps[i].Deploy?
  {
    [LoadProject] + (if titleMatchesName then [] else [WarnTitleMismatch])
    + [CleanStaging, CreateStaging]
    + [StageFolder(StagedFolders[0]), StageFolder(StagedFolders[1]), StageFolder(StagedFolders[2]), StageFolder(StagedFolders[3])]
    + [StageMetadata]
  }

  /** The SDK preparation each build type does before compiling the mod. */
  function Prepare(buildType: BuildType): seq<Step> {
    match buildType
    case Full => [CleanSdkSource, RestoreSdkSource, CopyModSource, CleanSdkScripts, CompileGame]
    case Fast => [CleanSdkSource, RestoreSdkSource, CopyModSource, CleanModSdkScript, CompileGame]
    case Smart => [SmartCleanSdkSource, CopyModSource, SmartCleanSdkScripts]
  }

  /** `Build`: the whole step sequence for a build type, given whether the
      project's title equals the mod name and whether the mod has source. */
  function BuildPlan(buildType: BuildType, titleMatchesName: bool, hasSource: bool): (plan: seq<Step>)
    ensures |plan| > 0 && plan[0] == LoadProject && plan[|plan| - 1] == Deploy
    ensures forall i :: 0 <= i < |plan| - 1 ==> !plan[i].Deploy?
  {
    Preamble(titleMatchesName)
    + (if hasSource then Prepare(buildType) + [CompileMod, StageCompiledScripts] else [])
    + [Deploy]
  }

  /** Without source code nothing is compiled, yet the four folders and the
      metadata are staged and the mod is deployed. */
  lemma NoSourceNoCompile(buildType: BuildType, titleMatchesName: bool)
    ensures forall s :: s in BuildPlan(buildType, titleMatchesName, false) ==> !IsCompile(s)
    ensures forall f :: f in StagedFolders ==> StageFolder(f) in BuildPlan(buildType, titleMatchesName, false)
    ensures StageMetadata in BuildPlan(buildType, titleMatchesName, false)
    ensures Deploy in BuildPlan(buildType, titleMatchesName, false)
  {
    var plan := BuildPlan(buildType, titleMatchesName, false);
    assert plan == Preamble(titleMatchesName) + [Deploy];
  }

  /** The mod is compiled exactly when it has source; the game is compiled
      exactly when it has source and the build is not smart. */
  lemma CompilesIff(buildType: BuildType, titleMatchesName: bool, hasSource: bool)
    ensures CompileMod in BuildPlan(buildType, titleMatchesName, hasSource) <==> hasSource
    ensures CompileGame in BuildPlan(buildType, titleMatchesName, hasSource) <==> hasSource && buildType != Smart
  {
    var plan := BuildPlan(buildType, titleMatchesName, hasSource);
    var pre := Preamble(titleMatchesName);
    assert CompileMod !in pre && CompileGame !in pre;
    if hasSource {
      assert plan == pre + Prepare(buildType) + [CompileMod, StageCompiledScripts] + [Deploy];
      assert plan[|pre| + |Prepare(buildType)|] == CompileMod;
      if buildType != Smart {
        assert plan[|pre| + 4] == CompileGame;
      }
    } else {
      assert plan == pre + [Deploy];
    }
  }

  /** With source, a full or fast build compiles the game before the mod, and
      the two differ only in how the SDK's compiled scripts are cleaned. */
  lemma GameBeforeMod(buildType: BuildType, titleMatchesName: bool)
    requires buildType != Smart
    ensures var plan := BuildPlan(buildType, titleMatchesName, true);
      exists i, j :: 0 <= i < j < |plan| && plan[i] == CompileGame && plan[j] == CompileMod
  {
    var plan := BuildPlan(buildType, titleMatchesName, true);
    var n := |Preamble(titleMatchesName)|;
    assert plan[n + 4] == CompileGame;
    assert plan[n + 5] == CompileMod;
  }

  lemma FullFastDiffer(titleMatchesName: bool, hasSource: bool)
    ensures var full := BuildPlan(Full, titleMatchesName, hasSource);
      var fast := BuildPlan(Fast, titleMatchesName, hasSource);
      |full| == |fast| &&
      forall i :: 0 <= i < |full| && full[i] != fast[i] ==>
        full[i] == CleanSdkScripts && fast[i] == CleanModSdkScript
  {
  }

  /** Only a compile step can fail; it throws, which ends the build. */
  predicate Fails(s: Step, succeeds: Step -> bool) {
    IsCompile(s) && !succeeds(s)
  }

  /** The steps that ran, and whether the build reached its end. */
  datatype Run = Run(steps: seq<Step>, completed: bool)

  /** Running a plan: every step up to and including the first that fails. */
  function Execute(plan: seq<Step>, succeeds: Step -> bool): (run: Run)
    ensures Text.StartsWith(plan, run.steps)
    ensures run.completed <==> forall i :: 0 <= i < |plan| ==> !Fails(plan[i], succeeds)
    ensures run.completed ==> run.steps == plan
    ensures !run.completed ==> |run.steps| > 0 && Fails(run.steps[|run.steps| - 1], succeeds)
    ensures forall i :: 0 <= i < |run.steps| - 1 ==> !Fails(run.steps[i], succeeds)
  {
    if |plan| == 0 then Run([], true)
    else if Fails(plan[0], succeeds) then Run([plan[0]], false)
    else
      var rest := Execute(plan[1..], succeeds);
      Run([plan[0]] + rest.steps, rest.completed)
  }

  /** A build deploys exactly when no compile step in it fails. */
  lemma DeploysIff(buildType: BuildType, titleMatchesName: bool, hasSource: bool, succeeds: Step -> bool)
    ensures var plan := BuildPlan(buildType, titleMatchesName, hasSource);
      Deploy in Execute(plan, succeeds).steps <==> forall i :: 0 <= i < |plan| ==> !Fails(plan[i], succeeds)
  {
    var plan := BuildPlan(buildType, titleMatchesName, hasSource);
    var run := Execute(plan, succeeds);
    if run.completed {
      assert run.steps[|plan| - 1] == Deploy;
    } else {
      var n := |run.steps|;
      forall k | 0 <= k < n
        ensures run.steps[k] != Deploy
      {
        assert run.steps[k] == plan[k];
        if k == n - 1 {
          assert Fails(run.steps[k], succeeds);
        } else {
          assert k < |plan| - 1;
        }
      }
    }
  }

  /** A build of a mod without source always runs to the end. */
  lemma NoSourceAlwaysDeploys(buildType: BuildType, titleMatchesName: bool, succeeds: Step -> bool)
    ensures Execute(BuildPlan(buildType, titleMatchesName, false), succeeds) == Run(BuildPlan(buildType, titleMatchesName, false), true)
  {
    NoSourceNoCompile(buildType, titleMatchesName);
  }
}
