/** The MSTest console runner wrapper: where `MSTest.exe` is looked for, how
    the found folder is remembered, the command line it is started with, and
    how its exit code is read. The environment (special folders, `PATH`) and
    `File.Exists` are parameters. */
module MSTestRunner {
  import opened Wrappers
  import opened Strings
  import opened Paths

  const ExecutableName := "MSTest.exe"
  const VisualStudio11Tools := "Microsoft Visual Studio 11.0\\Common7\\IDE"
  const VisualStudio10Tools := "Microsoft Visual Studio 10.0\\Common7\\IDE"

  /** What the runner reads from the process environment: the two program-files
      special folders, the `PATH` variable (`None` when it is not set) and the
      platform's search-path separator. */
  datatype Environment = Environment(
    programFiles: string,
    programFilesX86: string,
    pathVariable: Option<string>,
    pathSeparator: char)

  /** The `PATH` entries, split on the separator with empty entries removed;
      an unset variable reads as the empty string. */
  function PathEntries(env: Environment): (entries: seq<string>)
    ensures forall k :: 0 <= k < |entries| ==> entries[k] != [] && Free(entries[k], env.pathSeparator)
  {
    var raw := match env.pathVariable case None => "" case Some(p) => p;
    SplitRemoveEmpty(raw, env.pathSeparator)
  }

  /** The folders searched, in order: the Visual Studio 11.0 and 10.0 tool
      folders under Program Files, the same two under Program Files (x86)
      when that folder is known, then the `PATH` entries. */
  function SearchPath(env: Environment): (folders: seq<string>)
    ensures forall k :: 0 <= k < |folders| ==> folders[k] != []
    ensures |folders| >= 2
    ensures folders[0] == Combine(env.programFiles, VisualStudio11Tools)
    ensures folders[1] == Combine(env.programFiles, VisualStudio10Tools)
    ensures env.programFilesX86 != [] ==>
      |folders| >= 4
      && folders[2] == Combine(env.programFilesX86, VisualStudio11Tools)
      && folders[3] == Combine(env.programFilesX86, VisualStudio10Tools)
    ensures folders[(if env.programFilesX86 == [] then 2 else 4)..] == PathEntries(env)
  {
    var installed := [Combine(env.programFiles, VisualStudio11Tools), Combine(env.programFiles, VisualStudio10Tools)];
    var installedX86 :=
      if env.programFilesX86 == [] then []
      else [Combine(env.programFilesX86, VisualStudio11Tools), Combine(env.programFilesX86, VisualStudio10Tools)];
    installed + installedX86 + PathEntries(env)
  }

  /** Whether `folder` holds the runner, by the injected `File.Exists`. */
  predicate HoldsRunner(fileExists: string -> bool, folder: string) {
    fileExists(Combine(folder, ExecutableName))
  }

  /** The position of the first folder that holds the runner, if any. */
  function FirstHit(folders: seq<string>, fileExists: string -> bool): (k: Option<nat>)
    ensures k.None? <==> forall j :: 0 <= j < |folders| ==> !HoldsRunner(fileExists, folders[j])
    ensures k.Some? ==>
      && k.value < |folders|
      && HoldsRunner(fileExists, folders[k.value])
      && forall j :: 0 <= j < k.value ==> !HoldsRunner(fileExists, folders[j])
    decreases |folders|
  {
    if folders == [] then None
    else if HoldsRunner(fileExists, folders[0]) then Some(0)
    else
      match FirstHit(folders[1..], fileExists)
      case None => None
      case Some(k) => Some(k + 1)
  }

  /** `FindConsoleRunner`: the first folder of the search path that holds
      `MSTest.exe`, or the empty string when none does. Every searched folder
      is non-empty, so the empty string means exactly "not found". */
  function FindConsoleRunner(env: Environment, fileExists: string -> bool): (folder: string)
    ensures folder == [] <==> forall k :: 0 <= k < |SearchPath(env)| ==> !HoldsRunner(fileExists, SearchPath(env)[k])
    ensures folder != [] ==> exists k ::
      && 0 <= k < |SearchPath(env)|
      && SearchPath(env)[k] == folder
      && HoldsRunner(fileExists, folder)
      && forall j :: 0 <= j < k ==> !HoldsRunner(fileExists, SearchPath(env)[j])
  {
    match FirstHit(SearchPath(env), fileExists)
    case None => ""
    case Some(k) => SearchPath(env)[k]
  }

  /** The `PATH` part of the search (the tail of `SearchPath`) is the
      separator-free segments the variable was built from, in order, with the
      empty ones dropped: exactly those segments when none is empty. */
  lemma PathEntriesOfJoined(env: Environment, entries: seq<string>)
    requires forall k :: 0 <= k < |entries| ==> Free(entries[k], env.pathSeparator)
    requires env.pathVariable == Some(Join(entries, [env.pathSeparator]))
    ensures PathEntries(env) == WithoutEmpty(entries)
    ensures (forall k :: 0 <= k < |entries| ==> entries[k] != []) ==> PathEntries(env) == entries
  {
    SplitRemoveEmptyJoin(entries, env.pathSeparator);
  }

  /** A trailing separator, as in `C:\tools;`, adds no entry: the folder is
      still searched, and nothing else is. */
  lemma PathTrailingSeparator(env: Environment, folder: string)
    requires folder != [] && Free(folder, env.pathSeparator)
    requires env.pathVariable == Some(folder + [env.pathSeparator])
    ensures PathEntries(env) == [folder]
  {
    var sep := env.pathSeparator;
    assert [folder, ""][1..] == [""];
    assert Join([folder, ""], [sep]) == folder + [sep];
    PathEntriesOfJoined(env, [folder, ""]);
    WithoutEmptyAppend([folder], [""]);
    assert [folder] + [""] == [folder, ""];
  }

  lemma PathEntriesOfUnset(env: Environment)
    requires env.pathVariable.None?
    ensures PathEntries(env) == []
    ensures |SearchPath(env)| == if env.programFilesX86 == [] then 2 else 4
  {
    assert SplitOn("", env.pathSeparator) == [""];
  }

  /** `Char.IsWhiteSpace`: the Unicode space, line and paragraph separators
      and the control characters U+0009 to U+000D, U+0085. */
  predicate IsWhiteSpace(c: char) {
    || ('\t' <= c <= '\r')
    || c == ' '
    || c == '\U{0085}'
    || c == '\U{00A0}'
    || c == '\U{1680}'
    || ('\U{2000}' <= c <= '\U{200A}')
    || c == '\U{2028}'
    || c == '\U{2029}'
    || c == '\U{202F}'
    || c == '\U{205F}'
    || c == '\U{3000}'
  }

  /** `string.IsNullOrWhiteSpace`; `None` is `null`. */
  predicate IsNullOrWhiteSpace(s: Option<string>) {
    s.None? || forall i :: 0 <= i < |s.value| ==> IsWhiteSpace(s.value[i])
  }

  /** The runner's one piece of state: the `_runnerPath` field, `None` while null. */
  datatype Runner = Runner(runnerPath: Option<string>)

  /** A read of a memoised property: the value and the runner's state after it. */
  datatype Lookup = Lookup(value: string, after: Runner)

  /** The `RunnerPath` getter: a stored value that is not blank is returned
      as is; otherwise the search runs and its result, found or empty, is
      stored and returned. (On a hit the search also stores the folder
      through the setter; the getter then stores the same value again.) */
  function RunnerPath(runner: Runner, env: Environment, fileExists: string -> bool): (r: Lookup)
    ensures !IsNullOrWhiteSpace(runner.runnerPath) ==> r == Lookup(runner.runnerPath.value, runner)
    ensures IsNullOrWhiteSpace(runner.runnerPath) ==>
      r.value == FindConsoleRunner(env, fileExists) && r.after.runnerPath == Some(r.value)
  {
    if IsNullOrWhiteSpace(runner.runnerPath) then
      var found := FindConsoleRunner(env, fileExists);
      Lookup(found, Runner(Some(found)))
    else
      Lookup(runner.runnerPath.value, runner)
  }

  /** Memoisation: once a search has produced a folder that is not blank,
      every later read returns that folder and leaves the state alone, in
      whatever environment and file system it happens. */
  lemma {:induction false} RunnerPathMemoised(runner: Runner, env: Environment, fileExists: string -> bool,
                                              laterEnv: Environment, laterExists: string -> bool)
    requires !IsNullOrWhiteSpace(Some(RunnerPath(runner, env, fileExists).value))
    ensures var first := RunnerPath(runner, env, fileExists);
      RunnerPath(first.after, laterEnv, laterExists) == first
  {
    var first := RunnerPath(runner, env, fileExists);
    assert first.after.runnerPath == Some(first.value);
  }

  /** The other half: while the value read is blank (nothing found, or a
      folder made only of white space, which a `PATH` entry can be), the
      next read searches again from scratch. */
  lemma RunnerPathRetriesWhileBlank(runner: Runner, env: Environment, fileExists: string -> bool,
                                    laterEnv: Environment, laterExists: string -> bool)
    requires IsNullOrWhiteSpace(Some(RunnerPath(runner, env, fileExists).value))
    ensures var first := RunnerPath(runner, env, fileExists);
      RunnerPath(first.after, laterEnv, laterExists).value == FindConsoleRunner(laterEnv, laterExists)
  {
  }

  /** `GetCommandLineFileName`: the runner folder combined with `MSTest.exe`;
      when no folder was found that is the bare executable name, and a folder
      that already ends in a separator or colon gets no second separator. */
  function CommandLineFileName(runner: Runner, env: Environment, fileExists: string -> bool): (r: Lookup)
    ensures EndsWith(r.value, ExecutableName)
    ensures var folder := RunnerPath(runner, env, fileExists);
      && r.after == folder.after
      && (folder.value == [] ==> r.value == ExecutableName)
      && StartsWith(r.value, folder.value)
    ensures var folder := RunnerPath(runner, env, fileExists).value;
      && (EndsInSeparator(folder) ==> r.value == folder + ExecutableName)
      && (folder != [] && !EndsInSeparator(folder) ==> r.value == folder + [DirectorySeparator] + ExecutableName)
  {
    var folder := RunnerPath(runner, env, fileExists);
    CombineParts(folder.value, ExecutableName);
    Lookup(Combine(folder.value, ExecutableName), folder.after)
  }

  /** The executable's directory is the runner folder again, for a folder
      given without a trailing separator. */
  lemma CommandLineFileNameDirectory(runner: Runner, env: Environment, fileExists: string -> bool)
    requires var folder := RunnerPath(runner, env, fileExists).value;
      folder != [] && !EndsInSeparator(folder)
    ensures DirectoryName(CommandLineFileName(runner, env, fileExists).value)
         == RunnerPath(runner, env, fileExists).value
  {
    ExecutableDirectory(RunnerPath(runner, env, fileExists).value);
  }

  lemma ExecutableDirectory(folder: string)
    requires folder != [] && !EndsInSeparator(folder)
    ensures DirectoryName(Combine(folder, ExecutableName)) == folder
  {
    assert IsSegment(ExecutableName);
    DirectoryNameCombine(folder, ExecutableName);
  }

  /** `InterpretExitCode`: the suite passed exactly when the runner exited with 0. */
  function InterpretExitCode(exitCode: int): (passed: bool)
    ensures passed <==> exitCode == 0
  {
    exitCode == 0
  }

  const Quote: char := '"'
  const ContainerSwitch := "/testcontainer:"
  const TestSwitch := "/test:"

  /** One test rendered as `/test:"<name>"`. */
  function TestArgument(test: string): string {
    TestSwitch + [Quote] + test + [Quote]
  }

  function TestArguments(tests: seq<string>): (args: seq<string>)
    ensures |args| == |tests|
    ensures forall k :: 0 <= k < |tests| ==> args[k] == TestArgument(tests[k])
  {
    seq(|tests|, k requires 0 <= k < |tests| => TestArgument(tests[k]))
  }

  /** The fixed head: `/testcontainer:"<path>" `, trailing space included. */
  function ContainerArgument(testLibraryPath: string): string {
    ContainerSwitch + [Quote] + testLibraryPath + [Quote] + " "
  }

  /** `GetCommandLineArguments`: the container switch, then the tests'
      switches in input order, separated by single spaces. */
  function CommandLineArguments(testLibraryPath: string, tests: seq<string>): (args: string)
    ensures StartsWith(args, ContainerArgument(testLibraryPath))
    ensures tests == [] ==> args == ContainerArgument(testLibraryPath)
  {
    ContainerArgument(testLibraryPath) + Join(TestArguments(tests), " ")
  }

  /** What the runner is asked to do: the container and the tests, in order. */
  datatype Invocation = Invocation(testLibraryPath: string, tests: seq<string>)

  /** The quote-delimited pieces of an argument string with at least one test:
      the container switch, the path, then `" /test:"` and the name per test. */
  function Pieces(testLibraryPath: string, tests: seq<string>): seq<string>
    decreases |tests|
  {
    if tests == [] then [ContainerSwitch, testLibraryPath]
    else Pieces(testLibraryPath, tests[..|tests| - 1]) + [" " + TestSwitch, tests[|tests| - 1]]
  }

  /** The tests read back from the pieces after the path. */
  function ReadTests(pieces: seq<string>): Option<seq<string>>
    decreases |pieces|
  {
    if pieces == [""] then Some([])
    else if |pieces| >= 3 && pieces[0] == " " + TestSwitch then
      match ReadTests(pieces[2..])
      case None => None
      case Some(rest) => Some([pieces[1]] + rest)
    else None
  }

  /** The runner's view of the command line: split on the quote character,
      the container switch and the path, then either the lone trailing space
      of an empty test list or a `/test:` switch and name per test. */
  function ParseArguments(args: string): (r: Option<Invocation>)
  {
    var pieces := SplitOn(args, Quote);
    if |pieces| < 3 || pieces[0] != ContainerSwitch then None
    else if pieces[2..] == [" "] then Some(Invocation(pieces[1], []))
    else
      match ReadTests(pieces[2..])
      case Some(tests) => if tests == [] then None else Some(Invocation(pieces[1], tests))
      case None => None
  }

  lemma {:induction false} PiecesShape(testLibraryPath: string, tests: seq<string>)
    ensures |Pieces(testLibraryPath, tests)| == 2 + 2 * |tests|
    ensures Pieces(testLibraryPath, tests)[..2] == [ContainerSwitch, testLibraryPath]
    ensures Pieces(testLibraryPath, tests)[2..] + [""] == TestPieces(tests)
    decreases |tests|
  {
    if tests != [] {
      var init := tests[..|tests| - 1];
      PiecesShape(testLibraryPath, init);
      TestPiecesSnoc(init, tests[|tests| - 1]);
      assert init + [tests[|tests| - 1]] == tests;
    }
  }

  /** The pieces after the path, as a list built from the front. */
  function TestPieces(tests: seq<string>): (pieces: seq<string>)
    ensures |pieces| == 1 + 2 * |tests|
    decreases |tests|
  {
    if tests == [] then [""] else [" " + TestSwitch, tests[0]] + TestPieces(tests[1..])
  }

  lemma {:induction false} TestPiecesSnoc(tests: seq<string>, last: string)
    ensures TestPieces(tests + [last]) == TestPieces(tests)[..2 * |tests|] + [" " + TestSwitch, last, ""]
    decreases |tests|
  {
    if tests == [] {
      assert [last][1..] == [];
    } else {
      assert (tests + [last])[1..] == tests[1..] + [last];
      TestPiecesSnoc(tests[1..], last);
    }
  }

  /** Reading the tests back from their pieces. */
  lemma {:induction false} ReadTestPieces(tests: seq<string>)
    ensures ReadTests(TestPieces(tests)) == Some(tests)
    decreases |tests|
  {
    if tests != [] {
      var pieces := TestPieces(tests);
      ReadTestPieces(tests[1..]);
      assert pieces == [" " + TestSwitch, tests[0]] + TestPieces(tests[1..]);
      assert |pieces| >= 3 && pieces != [""];
      assert pieces[0] == " " + TestSwitch && pieces[1] == tests[0];
      assert pieces[2..] == TestPieces(tests[1..]);
      assert ReadTests(pieces) == Some([tests[0]] + tests[1..]);
      assert [tests[0]] + tests[1..] == tests;
    }
  }

  /** And only test pieces read back as tests. */
  lemma {:induction false} ReadTestsShape(pieces: seq<string>)
    requires ReadTests(pieces).Some?
    ensures pieces == TestPieces(ReadTests(pieces).value)
    decreases |pieces|
  {
    if pieces != [""] {
      ReadTestsShape(pieces[2..]);
      var rest := ReadTests(pieces[2..]).value;
      assert ([pieces[1]] + rest)[1..] == rest;
      assert pieces == pieces[..2] + pieces[2..];
    }
  }

  /** The argument string is the join of its pieces with the quote character. */
  lemma {:induction false} ArgumentsArePieces(testLibraryPath: string, tests: seq<string>)
    requires tests != []
    ensures Join(Pieces(testLibraryPath, tests), [Quote]) + [Quote]
         == CommandLineArguments(testLibraryPath, tests)
    decreases |tests|
  {
    var init, last := tests[..|tests| - 1], tests[|tests| - 1];
    assert init + [last] == tests;
    if init == [] {
      ArgumentsOneTest(testLibraryPath, last);
    } else {
      ArgumentsArePieces(testLibraryPath, init);
      ArgumentsStep(testLibraryPath, init, last);
    }
  }

  /** Two more pieces, `" /test:"` and a name, joined onto a list of pieces. */
  lemma JoinTestPieces(p: seq<string>, name: string)
    requires |p| >= 2
    ensures Join(p + [" " + TestSwitch, name], [Quote])
         == Join(p, [Quote]) + [Quote] + (" " + TestSwitch) + [Quote] + name
  {
    var sw := " " + TestSwitch;
    assert p + [sw, name] == (p + [sw]) + [name];
    JoinSnoc(p + [sw], name, [Quote]);
    JoinSnoc(p, sw, [Quote]);
  }

  lemma TestArgumentsSnoc(tests: seq<string>, last: string)
    ensures TestArguments(tests + [last]) == TestArguments(tests) + [TestArgument(last)]
  {
  }

  lemma ArgumentsOneTest(testLibraryPath: string, name: string)
    ensures Join(Pieces(testLibraryPath, [name]), [Quote]) + [Quote]
         == CommandLineArguments(testLibraryPath, [name])
  {
    var q := [Quote];
    var p := [ContainerSwitch, testLibraryPath];
    assert Pieces(testLibraryPath, [name]) == p + [" " + TestSwitch, name] by {
      assert [name][..0] == [];
    }
    JoinTestPieces(p, name);
    assert p[1..] == [testLibraryPath];
    assert Join(p, q) == ContainerSwitch + q + testLibraryPath;
    assert TestArguments([name]) == [TestArgument(name)];
  }

  lemma ArgumentsStep(testLibraryPath: string, init: seq<string>, last: string)
    requires init != []
    requires Join(Pieces(testLibraryPath, init), [Quote]) + [Quote] == CommandLineArguments(testLibraryPath, init)
    ensures Join(Pieces(testLibraryPath, init + [last]), [Quote]) + [Quote]
         == CommandLineArguments(testLibraryPath, init + [last])
  {
    var q, sw := [Quote], " " + TestSwitch;
    var p := Pieces(testLibraryPath, init);
    assert (init + [last])[..|init|] == init;
    assert Pieces(testLibraryPath, init + [last]) == p + [sw, last];
    PiecesShape(testLibraryPath, init);
    JoinTestPieces(p, last);
    TestArgumentsSnoc(init, last);
    JoinSnoc(TestArguments(init), TestArgument(last), " ");
    Regroup(Join(p, q), q, sw, last, ContainerArgument(testLibraryPath), Join(TestArguments(init), " "), " ", TestSwitch);
  }

  /** The concatenation step of `ArgumentsStep`, over plain sequences. */
  lemma Regroup(head: string, q: string, sw: string, last: string, container: string, before: string, space: string, switch: string)
    requires head + q == container + before
    requires sw == space + switch
    ensures head + q + sw + q + last + q == container + (before + space + (switch + q + last + q))
  {
    calc {
      head + q + sw + q + last + q;
      (head + q) + (sw + q + last + q);
      (container + before) + (space + switch + q + last + q);
      container + (before + space + (switch + q + last + q));
    }
  }

  /** Every piece of a command line is free of quotes when the path and the
      names are. */
  lemma PiecesFree(testLibraryPath: string, tests: seq<string>)
    requires Free(testLibraryPath, Quote)
    requires forall k :: 0 <= k < |tests| ==> Free(tests[k], Quote)
    ensures forall k :: 0 <= k < |Pieces(testLibraryPath, tests) + [""]| ==>
      Free((Pieces(testLibraryPath, tests) + [""])[k], Quote)
  {
    var p := Pieces(testLibraryPath, tests);
    PiecesShape(testLibraryPath, tests);
    forall k | 0 <= k < |p + [""]|
      ensures Free((p + [""])[k], Quote)
    {
      if k < 2 {
        assert (p + [""])[k] == p[..2][k];
      } else {
        assert (p + [""])[k] == TestPieces(tests)[k - 2];
        TestPieceFree(tests, k - 2);
      }
    }
  }

  /** Splitting the command line on quotes gives back its pieces, for a path
      and test names without quote characters. */
  lemma ArgumentsSplit(testLibraryPath: string, tests: seq<string>)
    requires Free(testLibraryPath, Quote)
    requires forall k :: 0 <= k < |tests| ==> Free(tests[k], Quote)
    ensures tests != [] ==>
      SplitOn(CommandLineArguments(testLibraryPath, tests), Quote) == Pieces(testLibraryPath, tests) + [""]
    ensures tests == [] ==>
      SplitOn(CommandLineArguments(testLibraryPath, tests), Quote) == [ContainerSwitch, testLibraryPath, " "]
  {
    var q := [Quote];
    if tests == [] {
      EmptyArgumentsSplit(testLibraryPath);
    } else {
      var p := Pieces(testLibraryPath, tests);
      ArgumentsArePieces(testLibraryPath, tests);
      JoinSnoc(p, "", q);
      assert Join(p + [""], q) == CommandLineArguments(testLibraryPath, tests);
      PiecesFree(testLibraryPath, tests);
      SplitOnJoin(p + [""], Quote);
    }
  }

  /** With no tests the command line is three pieces: the container switch,
      the path and the trailing space. */
  lemma EmptyArgumentsSplit(testLibraryPath: string)
    requires Free(testLibraryPath, Quote)
    ensures SplitOn(CommandLineArguments(testLibraryPath, []), Quote) == [ContainerSwitch, testLibraryPath, " "]
  {
    EmptyArgumentsJoin(testLibraryPath);
    SplitOnJoin([ContainerSwitch, testLibraryPath, " "], Quote);
  }

  lemma EmptyArgumentsJoin(testLibraryPath: string)
    ensures Join([ContainerSwitch, testLibraryPath, " "], [Quote]) == CommandLineArguments(testLibraryPath, [])
  {
    var q := [Quote];
    var pieces := [ContainerSwitch, testLibraryPath, " "];
    assert pieces[1..] == [testLibraryPath, " "] && pieces[1..][1..] == [" "];
    assert Join(pieces[1..], q) == testLibraryPath + q + " ";
    assert Join(pieces, q) == ContainerSwitch + q + (testLibraryPath + q + " ");
    assert TestArguments([]) == [];
    assert CommandLineArguments(testLibraryPath, []) == ContainerArgument(testLibraryPath) + "";
  }

  lemma {:induction false} TestPieceFree(tests: seq<string>, j: int)
    requires forall k :: 0 <= k < |tests| ==> Free(tests[k], Quote)
    requires 0 <= j < |TestPieces(tests)|
    ensures Free(TestPieces(tests)[j], Quote)
    decreases |tests|
  {
    if tests != [] && j >= 2 {
      assert TestPieces(tests)[j] == TestPieces(tests[1..])[j - 2];
      TestPieceFree(tests[1..], j - 2);
    }
  }

  /** Round trip: the runner reads back exactly the container and the tests,
      in order, whenever neither the path nor a test name contains a quote. */
  lemma CommandLineRoundTrip(testLibraryPath: string, tests: seq<string>)
    requires Free(testLibraryPath, Quote)
    requires forall k :: 0 <= k < |tests| ==> Free(tests[k], Quote)
    ensures ParseArguments(CommandLineArguments(testLibraryPath, tests)) == Some(Invocation(testLibraryPath, tests))
  {
    ArgumentsSplit(testLibraryPath, tests);
    if tests != [] {
      ReadBackTests(testLibraryPath, tests, CommandLineArguments(testLibraryPath, tests));
    } else {
      var pieces := [ContainerSwitch, testLibraryPath, " "];
      assert pieces[2..] == [" "];
    }
  }

  /** The non-empty case of the round trip, from the split pieces. */
  lemma ReadBackTests(testLibraryPath: string, tests: seq<string>, args: string)
    requires tests != []
    requires SplitOn(args, Quote) == Pieces(testLibraryPath, tests) + [""]
    ensures ParseArguments(args) == Some(Invocation(testLibraryPath, tests))
  {
    var pieces := Pieces(testLibraryPath, tests) + [""];
    PiecesShape(testLibraryPath, tests);
    assert pieces[..2] == [ContainerSwitch, testLibraryPath];
    assert pieces[2..] == TestPieces(tests);
    assert pieces[0] == ContainerSwitch && pieces[1] == testLibraryPath;
    assert |pieces[2]| != 1;
    assert pieces[2..] != [" "];
    ReadTestPieces(tests);
    assert ReadTests(pieces[2..]) == Some(tests);
  }

  /** Conversely, every string the runner accepts is the command line of
      what it reads from it. */
  lemma ParsedArgumentsAreCommandLine(args: string)
    requires ParseArguments(args).Some?
    ensures var inv := ParseArguments(args).value;
      CommandLineArguments(inv.testLibraryPath, inv.tests) == args
  {
    var pieces := SplitOn(args, Quote);
    var inv := ParseArguments(args).value;
    JoinSplitOn(args, Quote);
    var q := [Quote];
    if pieces[2..] == [" "] {
      assert pieces == [ContainerSwitch, inv.testLibraryPath, " "] by {
        assert pieces == pieces[..2] + pieces[2..];
      }
      assert inv.tests == [];
      EmptyArgumentsJoin(inv.testLibraryPath);
    } else {
      ReadTestsShape(pieces[2..]);
      var p := Pieces(inv.testLibraryPath, inv.tests);
      PiecesShape(inv.testLibraryPath, inv.tests);
      assert pieces == p + [""] by {
        assert pieces == pieces[..2] + pieces[2..];
        assert p == p[..2] + p[2..];
      }
      ArgumentsArePieces(inv.testLibraryPath, inv.tests);
      JoinSnoc(p, "", q);
    }
  }
}
