/**
 * RanorexTest: one configured Ranorex test run. The constructor checks that the working
 * directory, the executable and the test suite exist; setters and adders then complete the
 * configuration, and toExecutionArguments assembles the command line in a fixed order.
 */
module Rx {
  import opened Wrappers
  import opened StringUtil
  import opened FileUtil
  import opened Parameter
  import Report
  import TestRail

  /** The files and directories present on the agent when a check is made. */
  datatype FileSystem = FileSystem(files: set<string>, directories: set<string>) {
    predicate Exists(path: string) {
      path in files || path in directories
    }

    predicate IsDirectory(path: string) {
      path in directories
    }
  }

  /** A command-line argument passed through to the runner; only its text is used here. */
  datatype CmdArgument = CmdArgument(text: string)

  /** One entry of the argument list; masked entries are hidden in the build log. */
  datatype Token = Token(text: string, masked: bool)

  function Plain(text: string): Token {
    Token(text, false)
  }

  /** new File(parent, child): the child under the parent, joined with one separator. */
  function JoinPath(parent: string, child: string): (p: string)
    ensures child == [] ==> p == parent
    ensures child != [] ==> StartsWith(p, parent) && EndsWith(p, child)
    ensures child != [] ==>
      |p| == |parent| + |child| + (if parent != [] && parent[|parent| - 1] == Separator then 0 else 1)
    ensures child != [] && (parent == [] || parent[|parent| - 1] != Separator) ==> p[|parent|] == Separator
  {
    if child == [] then parent
    else if parent != [] && parent[|parent| - 1] == Separator then parent + child
    else parent + [Separator] + child
  }

  /** File.getParent: the path before its last separator, or null when it has none. */
  function ParentPath(path: string): (r: Option<string>)
    ensures r.None? <==> Separator !in path
    ensures r.Some? ==> |r.value| < |path| && path[..|r.value|] == r.value && path[|r.value|] == Separator
    ensures r.Some? ==> Separator !in path[|r.value| + 1..]
  {
    var k := LastIndexOf(path, Separator);
    if k < 0 then None else Some(path[..k])
  }

  /** The test suite is looked up in the executable's directory. */
  function SuitePath(executable: string, testSuite: string): (p: string)
    ensures ParentPath(executable).None? ==> p == testSuite
    ensures ParentPath(executable).Some? && testSuite != [] ==>
      StartsWith(p, ParentPath(executable).value) && EndsWith(p, testSuite) && |p| > |ParentPath(executable).value|
  {
    match ParentPath(executable)
    case Some(directory) => JoinPath(directory, testSuite)
    case None => testSuite
  }

  /** A suite named next to an executable in the working directory sits in the working directory. */
  lemma SuiteNextToExecutable(workingDirectory: string, testExecutable: string, testSuite: string)
    requires workingDirectory != [] && workingDirectory[|workingDirectory| - 1] != Separator
    requires testExecutable != [] && Separator !in testExecutable
    ensures SuitePath(JoinPath(workingDirectory, testExecutable), testSuite) == JoinPath(workingDirectory, testSuite)
  {
    var executable := JoinPath(workingDirectory, testExecutable);
    assert executable[|workingDirectory|] == Separator;
    assert executable[|workingDirectory| + 1..] == testExecutable;
    LastIndexOfIs(executable, Separator, |workingDirectory|);
    assert executable[..|workingDirectory|] == workingDirectory;
  }

  /** Where the executable and the suite were found. */
  datatype Setup = Setup(testExecutable: string, testSuiteFile: Option<string>)

  function NotFound(path: string): Error {
    FileNotFound("File or directory '" + path + "' does not exist")
  }

  /**
   * The constructor's checks, in order: the working directory exists, it is a directory, the
   * executable name is not blank, the executable exists, and a given suite exists next to it.
   */
  function Locate(fs: FileSystem, workingDirectory: string, testExecutable: string, testSuite: string): (r: Result<Setup>)
    ensures var executable := JoinPath(workingDirectory, testExecutable);
      r.Ok? <==>
        && fs.IsDirectory(workingDirectory) && !IsBlank(testExecutable) && fs.Exists(executable)
        && (IsBlank(testSuite) || fs.Exists(SuitePath(executable, testSuite)))
    ensures !fs.Exists(workingDirectory) ==> r == Err(NotFound(workingDirectory))
    ensures fs.Exists(workingDirectory) && !fs.IsDirectory(workingDirectory) ==>
      r == Err(InvalidParameter("'" + workingDirectory + "' is not a valid directory path"))
    ensures fs.IsDirectory(workingDirectory) && IsBlank(testExecutable) ==>
      r == Err(InvalidParameter("Test executable must not be empty"))
    ensures var executable := JoinPath(workingDirectory, testExecutable);
      fs.IsDirectory(workingDirectory) && !IsBlank(testExecutable) && !fs.Exists(executable) ==>
      r == Err(NotFound(executable))
    ensures var executable := JoinPath(workingDirectory, testExecutable);
      fs.IsDirectory(workingDirectory) && !IsBlank(testExecutable) && fs.Exists(executable)
      && !IsBlank(testSuite) && !fs.Exists(SuitePath(executable, testSuite)) ==>
      r == Err(NotFound(SuitePath(executable, testSuite)))
    ensures r.Ok? ==>
      && r.value.testExecutable == JoinPath(workingDirectory, testExecutable)
      && (r.value.testSuiteFile.Some? <==> !IsBlank(testSuite))
      && (r.value.testSuiteFile.Some? ==> r.value.testSuiteFile.value == SuitePath(r.value.testExecutable, testSuite))
  {
    if !fs.Exists(workingDirectory) then Err(NotFound(workingDirectory))
    else if !fs.IsDirectory(workingDirectory) then
      Err(InvalidParameter("'" + workingDirectory + "' is not a valid directory path"))
    else if IsBlank(testExecutable) then Err(InvalidParameter("Test executable must not be empty"))
    else
      var executable := JoinPath(workingDirectory, testExecutable);
      if !fs.Exists(executable) then Err(NotFound(executable))
      else if IsBlank(testSuite) then Ok(Setup(executable, None))
      else
        var suite := SuitePath(executable, testSuite);
        if !fs.Exists(suite) then Err(NotFound(suite))
        else Ok(Setup(executable, Some(suite)))
  }

  /** The whole configuration of a test run, as a value. */
  datatype TestState = TestState(
    workingDirectory: string,
    testExecutable: string,
    testSuiteFile: Option<string>,
    runConfiguration: string,
    report: Option<Report.RanorexReport>,
    useTestRail: bool,
    testRail: Option<TestRail.TestRailIntegration>,
    parameters: seq<RanorexParameter>,
    commandLineArguments: seq<CmdArgument>)

  /** Test-rail is only on with credentials present, and any report is a constructed one. */
  predicate Consistent(s: TestState) {
    && (s.useTestRail ==> s.testRail.Some?)
    && (s.report.Some? ==> Report.Valid(s.report.value))
  }

  /** A freshly constructed test: no run configuration, report or test-rail, both lists empty. */
  function Initial(workingDirectory: string, setup: Setup): (s: TestState)
    ensures Consistent(s)
    ensures s.workingDirectory == workingDirectory && s.testExecutable == setup.testExecutable
    ensures s.testSuiteFile == setup.testSuiteFile
    ensures s.runConfiguration == [] && s.report.None? && !s.useTestRail && s.testRail.None?
    ensures s.parameters == [] && s.commandLineArguments == []
  {
    TestState(workingDirectory, setup.testExecutable, setup.testSuiteFile, "", None, false, None, [], [])
  }

  function ExecutableTokens(s: TestState, fs: FileSystem): seq<Token> {
    if fs.Exists(s.testExecutable) then [Plain(s.testExecutable)] else []
  }

  function SuiteTokens(s: TestState, fs: FileSystem): seq<Token> {
    match s.testSuiteFile
    case Some(suite) => if fs.Exists(suite) then [Plain("/ts:" + suite)] else []
    case None => []
  }

  function RunConfigurationTokens(s: TestState): seq<Token> {
    if !IsBlank(s.runConfiguration) then [Plain("/runconfig:" + s.runConfiguration)] else []
  }

  /** The report arguments: the report file, then the compressed report, then JUnit. */
  function ReportTokens(report: Report.RanorexReport): (ts: seq<Token>)
    requires Report.Valid(report)
    ensures |ts| == 1 + (if report.compressed then 2 else 0) + (if report.junit then 1 else 0)
    ensures ts[0] == Plain("/reportfile:" + Report.FullReportArgument(report))
    ensures report.compressed ==>
      (ts[1] == Plain("/zipreport")
       && ts[2] == Plain("/zipreportfile:" + Report.FullCompressedReportArgument(report).value))
    ensures report.junit <==> Plain("/junit") in ts
    ensures report.junit ==> ts[|ts| - 1] == Plain("/junit")
    ensures forall i | 0 <= i < |ts| :: !ts[i].masked
  {
    [Plain("/reportfile:" + Report.FullReportArgument(report))]
    + (if report.compressed
       then [Plain("/zipreport"), Plain("/zipreportfile:" + Report.FullCompressedReportArgument(report).value)]
       else [])
    + (if report.junit then [Plain("/junit")] else [])
  }

  /** The test-rail arguments: the switch, the masked credentials, then run id and run name when given. */
  function TestRailTokens(t: TestRail.TestRailIntegration): (ts: seq<Token>)
    ensures |ts| >= 3 && ts[..3] == [Plain("/testrail"), Token("/truser=" + t.userName, true), Token("/trpass=" + t.password, true)]
    ensures forall i | 3 <= i < |ts| :: !ts[i].masked
    ensures |ts| == 3 + (if IsBlank(t.runId) then 0 else 1) + (if IsBlank(t.runName) then 0 else 1)
    ensures !IsBlank(t.runId) ==> ts[3] == Plain("/trrunid=" + t.runId)
    ensures !IsBlank(t.runName) ==> ts[|ts| - 1] == Plain("/trrunaname=" + t.runName)
  {
    var head := [Plain("/testrail"), Token("/truser=" + t.userName, true), Token("/trpass=" + t.password, true)];
    var runId := if !IsBlank(t.runId) then [Plain("/trrunid=" + t.runId)] else [];
    var runName := if !IsBlank(t.runName) then [Plain("/trrunaname=" + t.runName)] else [];
    head + runId + runName
  }

  /** Everything before the global parameters. */
  function HeadTokens(s: TestState, fs: FileSystem): seq<Token>
    requires Consistent(s)
  {
    [Plain("cmd.exe"), Plain("/C")]
    + ExecutableTokens(s, fs) + SuiteTokens(s, fs) + RunConfigurationTokens(s)
    + (if s.report.Some? then ReportTokens(s.report.value) else [])
    + (if s.useTestRail then TestRailTokens(s.testRail.value) else [])
  }

  /** One token per global parameter, in order. */
  function ParameterTokens(parameters: seq<RanorexParameter>): (ts: seq<Token>)
    ensures |ts| == |parameters|
    ensures forall i | 0 <= i < |parameters| :: ts[i] == Plain(ToArgumentString(parameters[i]))
  {
    if parameters == [] then []
    else ParameterTokens(parameters[..|parameters| - 1]) + [Plain(ToArgumentString(parameters[|parameters| - 1]))]
  }

  /** One token per command-line argument, in order. */
  function ArgumentTokens(arguments: seq<CmdArgument>): (ts: seq<Token>)
    ensures |ts| == |arguments|
    ensures forall i | 0 <= i < |arguments| :: ts[i] == Plain(arguments[i].text)
  {
    if arguments == [] then []
    else ArgumentTokens(arguments[..|arguments| - 1]) + [Plain(arguments[|arguments| - 1].text)]
  }

  /** toExecutionArguments, as a value. */
  function ExecutionArguments(s: TestState, fs: FileSystem): (args: seq<Token>)
    requires Consistent(s)
    ensures |args| >= 2 && args[0] == Plain("cmd.exe") && args[1] == Plain("/C")
    ensures |args| == |HeadTokens(s, fs)| + |s.parameters| + |s.commandLineArguments|
  {
    HeadTokens(s, fs) + ParameterTokens(s.parameters) + ArgumentTokens(s.commandLineArguments)
  }

  function ParameterLines(parameters: seq<RanorexParameter>): string {
    if parameters == [] then []
    else ParameterLines(parameters[..|parameters| - 1]) + "\t" + ToArgumentString(parameters[|parameters| - 1]) + "\n"
  }

  function ArgumentLines(arguments: seq<CmdArgument>): string {
    if arguments == [] then []
    else ArgumentLines(arguments[..|arguments| - 1]) + "\t" + arguments[|arguments| - 1].text + "\n"
  }

  const NoSuiteLine: string := "No Test Suite File selected!\n"
  const NoRunConfigurationLine: string := "No Runconfiguration entered\n"
  const NoParametersLine: string := "\tNo Parameters entered\n"
  const NoArgumentsLine: string := "\tNo Command Line Arguments entered\n"

  function WorkingDirectoryLine(s: TestState): string {
    "Working Directory:\t" + s.workingDirectory + "\n"
  }

  /** The executable and the suite are shown by file name only. */
  function ExecutableLine(s: TestState): string {
    "Test Executable File:\t" + LastPathSegment(s.testExecutable) + "\n"
  }

  function SuiteLine(s: TestState): string {
    match s.testSuiteFile
    case Some(suite) => "Test Suite File:\t" + LastPathSegment(suite) + "\n"
    case None => "Test Suite File:\t" + NoSuiteLine
  }

  function RunConfigurationLine(s: TestState): string {
    if !IsBlank(s.runConfiguration) then "RunConfiguration:\t" + s.runConfiguration + "\n"
    else "RunConfiguration:\t" + NoRunConfigurationLine
  }

  function ReportSection(s: TestState): string {
    if s.report.Some? then Report.Summary(s.report.value) else ""
  }

  function TestRailLine(s: TestState): string {
    "Sync with TestRail:\t" + BoolText(s.useTestRail) + "\n"
  }

  /** The credentials are listed only while test-rail is switched on. */
  function TestRailSection(s: TestState): string {
    if s.useTestRail && s.testRail.Some? then TestRail.Summary(s.testRail.value) else ""
  }

  function ParametersSection(s: TestState): string {
    "\nGlobal Parameters:\n" + (if s.parameters != [] then ParameterLines(s.parameters) else NoParametersLine)
  }

  function ArgumentsSection(s: TestState): string {
    "\nCommand Line Arguments:\n" + (if s.commandLineArguments != [] then ArgumentLines(s.commandLineArguments) else NoArgumentsLine)
  }

  /** toString, as a value. */
  function Summary(s: TestState): string {
    Header(s) + Configuration(s) + ParametersSection(s) + ArgumentsSection(s)
  }

  function Header(s: TestState): string {
    WorkingDirectoryLine(s) + ExecutableLine(s) + SuiteLine(s) + RunConfigurationLine(s)
  }

  function Configuration(s: TestState): string {
    ReportSection(s) + TestRailLine(s) + TestRailSection(s)
  }

  class RanorexTest {
    const workingDirectory: string
    const testExecutable: string
    const testSuiteFile: Option<string>
    var runConfiguration: string
    var report: Option<Report.RanorexReport>
    var useTestRail: bool
    var testRail: Option<TestRail.TestRailIntegration>
    var parameters: seq<RanorexParameter>
    var commandLineArguments: seq<CmdArgument>

    function State(): TestState
      reads this
    {
      TestState(workingDirectory, testExecutable, testSuiteFile, runConfiguration, report,
                useTestRail, testRail, parameters, commandLineArguments)
    }

    ghost predicate Valid()
      reads this
    {
      Consistent(State())
    }

    /** The field initialisation once every check has passed. */
    constructor (workingDirectory: string, setup: Setup)
      ensures Valid() && State() == Initial(workingDirectory, setup)
    {
      this.workingDirectory := workingDirectory;
      this.testExecutable := setup.testExecutable;
      this.testSuiteFile := setup.testSuiteFile;
      this.runConfiguration := "";
      this.report := None;
      this.useTestRail := false;
      this.testRail := None;
      this.parameters := [];
      this.commandLineArguments := [];
    }

    /** The constructor: run the checks; on success a fresh test with nothing configured yet. */
    static method Create(fs: FileSystem, workingDirectory: string, testExecutable: string, testSuite: string)
      returns (r: Result<RanorexTest>)
      ensures r.Err? <==> Locate(fs, workingDirectory, testExecutable, testSuite).Err?
      ensures r.Err? ==> r.error == Locate(fs, workingDirectory, testExecutable, testSuite).error
      ensures r.Ok? ==>
        && fresh(r.value) && r.value.Valid()
        && r.value.State() == Initial(workingDirectory, Locate(fs, workingDirectory, testExecutable, testSuite).value)
    {
      var located := Locate(fs, workingDirectory, testExecutable, testSuite);
      if located.Err? {
        return Err(located.error);
      }
      var test := new RanorexTest(workingDirectory, located.value);
      return Ok(test);
    }

    method AddGlobalParameter(parameter: RanorexParameter)
      requires Valid()
      modifies this`parameters
      ensures Valid()
      ensures State() == old(State()).(parameters := old(parameters) + [parameter])
    {
      parameters := parameters + [parameter];
    }

    method AddCommandLineArgument(argument: CmdArgument)
      requires Valid()
      modifies this`commandLineArguments
      ensures Valid()
      ensures State() == old(State()).(commandLineArguments := old(commandLineArguments) + [argument])
    {
      commandLineArguments := commandLineArguments + [argument];
    }

    method SetRunConfiguration(configuration: string)
      requires Valid()
      modifies this`runConfiguration
      ensures Valid()
      ensures State() == old(State()).(runConfiguration := configuration)
    {
      runConfiguration := configuration;
    }

    method SetReport(rxReport: Report.RanorexReport)
      requires Valid() && Report.Valid(rxReport)
      modifies this`report
      ensures Valid()
      ensures State() == old(State()).(report := Some(rxReport))
    {
      report := Some(rxReport);
    }

    /** setTestRail: switches test-rail on together with its credentials. */
    method SetTestRail(integration: TestRail.TestRailIntegration)
      requires Valid()
      modifies this`useTestRail, this`testRail
      ensures Valid()
      ensures State() == old(State()).(useTestRail := true, testRail := Some(integration))
    {
      useTestRail := true;
      testRail := Some(integration);
    }

    /** toExecutionArguments: the argument list, built front to back. */
    method ToExecutionArguments(fs: FileSystem) returns (args: seq<Token>)
      requires Valid()
      ensures args == ExecutionArguments(State(), fs)
    {
      ghost var s := State();
      args := [Plain("cmd.exe"), Plain("/C")];
      if fs.Exists(testExecutable) {
        args := args + [Plain(testExecutable)];
      }
      assert args == [Plain("cmd.exe"), Plain("/C")] + ExecutableTokens(s, fs);
      if testSuiteFile.Some? && fs.Exists(testSuiteFile.value) {
        args := args + [Plain("/ts:" + testSuiteFile.value)];
      }
      assert args == [Plain("cmd.exe"), Plain("/C")] + ExecutableTokens(s, fs) + SuiteTokens(s, fs);
      if !IsBlank(runConfiguration) {
        args := args + [Plain("/runconfig:" + runConfiguration)];
      }
      assert args == [Plain("cmd.exe"), Plain("/C")] + ExecutableTokens(s, fs) + SuiteTokens(s, fs)
        + RunConfigurationTokens(s);
      if report.Some? {
        args := AppendReport(args, report.value);
      }
      if useTestRail {
        args := AppendTestRail(args, testRail.value);
      }
      assert args == HeadTokens(s, fs);
      args := AppendParameters(args, parameters);
      args := AppendArguments(args, commandLineArguments);
    }

    static method AppendReport(args: seq<Token>, rxReport: Report.RanorexReport) returns (r: seq<Token>)
      requires Report.Valid(rxReport)
      ensures r == args + ReportTokens(rxReport)
    {
      r := args + [Plain("/reportfile:" + Report.FullReportArgument(rxReport))];
      if rxReport.compressed {
        r := r + [Plain("/zipreport")];
        r := r + [Plain("/zipreportfile:" + Report.FullCompressedReportArgument(rxReport).value)];
      }
      if rxReport.junit {
        r := r + [Plain("/junit")];
      }
    }

    static method AppendTestRail(args: seq<Token>, integration: TestRail.TestRailIntegration) returns (r: seq<Token>)
      ensures r == args + TestRailTokens(integration)
    {
      r := args + [Plain("/testrail")];
      r := r + [Token("/truser=" + integration.userName, true)];
      r := r + [Token("/trpass=" + integration.password, true)];
      if !IsBlank(integration.runId) {
        r := r + [Plain("/trrunid=" + integration.runId)];
      }
      if !IsBlank(integration.runName) {
        r := r + [Plain("/trrunaname=" + integration.runName)];
      }
    }

    static method AppendParameters(args: seq<Token>, ps: seq<RanorexParameter>) returns (r: seq<Token>)
      ensures r == args + ParameterTokens(ps)
    {
      r := args;
      for i := 0 to |ps|
        invariant r == args + ParameterTokens(ps[..i])
      {
        assert ps[..i + 1][..i] == ps[..i];
        r := r + [Plain(ToArgumentString(ps[i]))];
      }
      assert ps[..|ps|] == ps;
    }

    static method AppendArguments(args: seq<Token>, arguments: seq<CmdArgument>) returns (r: seq<Token>)
      ensures r == args + ArgumentTokens(arguments)
    {
      r := args;
      for i := 0 to |arguments|
        invariant r == args + ArgumentTokens(arguments[..i])
      {
        assert arguments[..i + 1][..i] == arguments[..i];
        r := r + [Plain(arguments[i].text)];
      }
      assert arguments[..|arguments|] == arguments;
    }

    /** toString: the configuration as text, with a placeholder for everything not set. */
    method ToString() returns (text: string)
      ensures text == Summary(State())
    {
      text := HeaderText();
      var configuration := ConfigurationText();
      text := text + configuration;
      var section := "\nGlobal Parameters:\n";
      if parameters != [] {
        section := AppendParameterLines(section, parameters);
      } else {
        section := section + NoParametersLine;
      }
      assert section == ParametersSection(State());
      text := text + section;
      section := "\nCommand Line Arguments:\n";
      if commandLineArguments != [] {
        section := AppendArgumentLines(section, commandLineArguments);
      } else {
        section := section + NoArgumentsLine;
      }
      assert section == ArgumentsSection(State());
      text := text + section;
    }

    method HeaderText() returns (text: string)
      ensures text == Header(State())
    {
      ghost var s := State();
      text := "Working Directory:\t" + workingDirectory + "\n";
      assert text == WorkingDirectoryLine(s);
      var line := "Test Executable File:\t" + LastPathSegment(testExecutable) + "\n";
      assert line == ExecutableLine(s);
      text := text + line;
      if testSuiteFile.Some? {
        line := "Test Suite File:\t" + LastPathSegment(testSuiteFile.value) + "\n";
      } else {
        line := "Test Suite File:\t" + NoSuiteLine;
      }
      assert line == SuiteLine(s);
      text := text + line;
      if !IsBlank(runConfiguration) {
        line := "RunConfiguration:\t" + runConfiguration + "\n";
      } else {
        line := "RunConfiguration:\t" + NoRunConfigurationLine;
      }
      assert line == RunConfigurationLine(s);
      text := text + line;
    }

    method ConfigurationText() returns (text: string)
      ensures text == Configuration(State())
    {
      ghost var s := State();
      text := if report.Some? then Report.Summary(report.value) else "";
      assert text == ReportSection(s);
      var line := "Sync with TestRail:\t" + BoolText(useTestRail) + "\n";
      assert line == TestRailLine(s);
      text := text + line;
      line := if useTestRail && testRail.Some? then TestRail.Summary(testRail.value) else "";
      assert line == TestRailSection(s);
      text := text + line;
    }

    static method AppendParameterLines(text: string, ps: seq<RanorexParameter>) returns (r: string)
      ensures r == text + ParameterLines(ps)
    {
      r := text;
      for i := 0 to |ps|
        invariant r == text + ParameterLines(ps[..i])
      {
        assert ps[..i + 1][..i] == ps[..i];
        r := r + "\t" + ToArgumentString(ps[i]) + "\n";
      }
      assert ps[..|ps|] == ps;
    }

    static method AppendArgumentLines(text: string, arguments: seq<CmdArgument>) returns (r: string)
      ensures r == text + ArgumentLines(arguments)
    {
      r := text;
      for i := 0 to |arguments|
        invariant r == text + ArgumentLines(arguments[..i])
      {
        assert arguments[..i + 1][..i] == arguments[..i];
        r := r + "\t" + arguments[i].text + "\n";
      }
      assert arguments[..|arguments|] == arguments;
    }
  }

  /** The entries the build log hides, in order. */
  function MaskedTokens(ts: seq<Token>): (r: seq<Token>)
    ensures |r| <= |ts|
    ensures forall i | 0 <= i < |r| :: r[i].masked
  {
    if ts == [] then []
    else MaskedTokens(ts[..|ts| - 1]) + (if ts[|ts| - 1].masked then [ts[|ts| - 1]] else [])
  }

  /** The masked entries are exactly the entries of the list that are masked. */
  lemma {:induction false} MaskedTokensMembers(ts: seq<Token>)
    ensures forall t :: t in MaskedTokens(ts) <==> t in ts && t.masked
  {
    if ts != [] {
      var front := ts[..|ts| - 1];
      MaskedTokensMembers(front);
      assert ts == front + [ts[|ts| - 1]];
    }
  }

  lemma {:induction false} MaskedTokensConcat(a: seq<Token>, b: seq<Token>)
    ensures MaskedTokens(a + b) == MaskedTokens(a) + MaskedTokens(b)
  {
    if b == [] {
      assert a + b == a;
    } else {
      var front := b[..|b| - 1];
      var last := b[|b| - 1];
      MaskedTokensConcat(a, front);
      var ab := a + b;
      assert ab[..|ab| - 1] == a + front;
      assert ab[|ab| - 1] == last;
      var extra := if last.masked then [last] else [];
      assert MaskedTokens(ab) == MaskedTokens(a + front) + extra;
      assert MaskedTokens(b) == MaskedTokens(front) + extra;
    }
  }

  lemma {:induction false} NoMaskedTokens(ts: seq<Token>)
    requires forall i | 0 <= i < |ts| :: !ts[i].masked
    ensures MaskedTokens(ts) == []
  {
    if ts != [] {
      NoMaskedTokens(ts[..|ts| - 1]);
    }
  }

  lemma TestRailMaskedTokens(t: TestRail.TestRailIntegration)
    ensures MaskedTokens(TestRailTokens(t)) == [Token("/truser=" + t.userName, true), Token("/trpass=" + t.password, true)]
  {
    var ts := TestRailTokens(t);
    var switch := Plain("/testrail");
    var user := Token("/truser=" + t.userName, true);
    var password := Token("/trpass=" + t.password, true);
    var head := [switch, user, password];
    assert ts == head + ts[3..];
    MaskedTokensConcat(head, ts[3..]);
    NoMaskedTokens(ts[3..]);
    assert head[..2] == [switch, user];
    assert [switch, user][..1] == [switch];
    assert [switch][..0] == [];
    assert MaskedTokens([switch]) == [];
    assert MaskedTokens([switch, user]) == [user];
    assert MaskedTokens(head) == [user, password];
  }

  /** The masked part of the head is exactly the test-rail credentials, when test-rail is on. */
  lemma HeadMaskedTokens(s: TestState, fs: FileSystem)
    requires Consistent(s)
    ensures MaskedTokens(HeadTokens(s, fs)) ==
      if s.useTestRail then [Token("/truser=" + s.testRail.value.userName, true), Token("/trpass=" + s.testRail.value.password, true)]
      else []
  {
    var reportTokens := if s.report.Some? then ReportTokens(s.report.value) else [];
    var plain := [Plain("cmd.exe"), Plain("/C")] + ExecutableTokens(s, fs) + SuiteTokens(s, fs)
      + RunConfigurationTokens(s) + reportTokens;
    var railTokens := if s.useTestRail then TestRailTokens(s.testRail.value) else [];
    assert HeadTokens(s, fs) == plain + railTokens;
    assert forall i | 0 <= i < |plain| :: !plain[i].masked;
    NoMaskedTokens(plain);
    MaskedTokensConcat(plain, railTokens);
    if s.useTestRail {
      TestRailMaskedTokens(s.testRail.value);
    }
  }

  /**
   * Of the whole argument list, only the test-rail user and password are marked for masking,
   * and only while test-rail is switched on.
   */
  lemma MaskedArguments(s: TestState, fs: FileSystem)
    requires Consistent(s)
    ensures MaskedTokens(ExecutionArguments(s, fs)) ==
      if s.useTestRail then [Token("/truser=" + s.testRail.value.userName, true), Token("/trpass=" + s.testRail.value.password, true)]
      else []
  {
    var tail := ParameterTokens(s.parameters) + ArgumentTokens(s.commandLineArguments);
    assert ExecutionArguments(s, fs) == HeadTokens(s, fs) + tail;
    HeadMaskedTokens(s, fs);
    UserEntriesUnmasked(s.parameters, s.commandLineArguments);
    MaskedTokensConcat(HeadTokens(s, fs), tail);
  }

  lemma UserEntriesUnmasked(parameters: seq<RanorexParameter>, arguments: seq<CmdArgument>)
    ensures MaskedTokens(ParameterTokens(parameters) + ArgumentTokens(arguments)) == []
  {
    var tail := ParameterTokens(parameters) + ArgumentTokens(arguments);
    assert forall i | 0 <= i < |tail| :: !tail[i].masked;
    NoMaskedTokens(tail);
  }

  /** The global parameters and then the command-line arguments close the list, each in insertion order. */
  lemma ArgumentsEndWithUserEntries(s: TestState, fs: FileSystem)
    requires Consistent(s)
    ensures var args := ExecutionArguments(s, fs);
      var k := |args| - |s.parameters| - |s.commandLineArguments|;
      && k >= 2
      && (forall i | 0 <= i < |s.parameters| :: args[k + i] == Plain(ToArgumentString(s.parameters[i])))
      && (forall i | 0 <= i < |s.commandLineArguments| ::
            args[k + |s.parameters| + i] == Plain(s.commandLineArguments[i].text))
  {
    var head := HeadTokens(s, fs);
    var ps := ParameterTokens(s.parameters);
    var cs := ArgumentTokens(s.commandLineArguments);
    assert ExecutionArguments(s, fs) == head + ps + cs;
    assert forall i | 0 <= i < |ps| :: (head + ps + cs)[|head| + i] == ps[i];
    assert forall i | 0 <= i < |cs| :: (head + ps + cs)[|head| + |ps| + i] == cs[i];
  }

  /** addGlobalParameter puts exactly one entry into the list, just before the command-line arguments. */
  lemma AddGlobalParameterArguments(s: TestState, fs: FileSystem, parameter: RanorexParameter)
    requires Consistent(s)
    ensures Consistent(s.(parameters := s.parameters + [parameter]))
    ensures var before := ExecutionArguments(s, fs);
      var after := ExecutionArguments(s.(parameters := s.parameters + [parameter]), fs);
      var k := |before| - |s.commandLineArguments|;
      && 0 <= k <= |before| && |after| == |before| + 1
      && after == before[..k] + [Plain(ToArgumentString(parameter))] + before[k..]
  {
    var ps := s.parameters + [parameter];
    assert ps[..|ps| - 1] == s.parameters;
    var t := s.(parameters := ps);
    assert HeadTokens(t, fs) == HeadTokens(s, fs);
    var before := ExecutionArguments(s, fs);
    var k := |before| - |s.commandLineArguments|;
    var head := HeadTokens(s, fs) + ParameterTokens(s.parameters);
    assert before == head + ArgumentTokens(s.commandLineArguments);
    assert before[..k] == head && before[k..] == ArgumentTokens(s.commandLineArguments);
  }

  /** addCommandLineArgument appends exactly one entry at the end of the list. */
  lemma AddCommandLineArgumentArguments(s: TestState, fs: FileSystem, argument: CmdArgument)
    requires Consistent(s)
    ensures Consistent(s.(commandLineArguments := s.commandLineArguments + [argument]))
    ensures ExecutionArguments(s.(commandLineArguments := s.commandLineArguments + [argument]), fs)
      == ExecutionArguments(s, fs) + [Plain(argument.text)]
  {
    var cs := s.commandLineArguments + [argument];
    assert cs[..|cs| - 1] == s.commandLineArguments;
    var t := s.(commandLineArguments := cs);
    assert HeadTokens(t, fs) == HeadTokens(s, fs);
  }

  /**
   * A freshly constructed test, run against the file system it was checked on, passes the
   * executable and then the suite, if one was given, and nothing else after the shell.
   */
  lemma CreatedTestArguments(fs: FileSystem, workingDirectory: string, testExecutable: string, testSuite: string)
    requires Locate(fs, workingDirectory, testExecutable, testSuite).Ok?
    ensures var setup := Locate(fs, workingDirectory, testExecutable, testSuite).value;
      ExecutionArguments(Initial(workingDirectory, setup), fs) ==
        [Plain("cmd.exe"), Plain("/C"), Plain(setup.testExecutable)]
        + (if IsBlank(testSuite) then [] else [Plain("/ts:" + setup.testSuiteFile.value)])
  {
  }

  /** setTestRail: the masked credentials appear in the list from then on. */
  lemma SetTestRailArguments(s: TestState, fs: FileSystem, t: TestRail.TestRailIntegration)
    requires Consistent(s)
    ensures Consistent(s.(useTestRail := true, testRail := Some(t)))
    ensures Token("/truser=" + t.userName, true) in ExecutionArguments(s.(useTestRail := true, testRail := Some(t)), fs)
    ensures Token("/trpass=" + t.password, true) in ExecutionArguments(s.(useTestRail := true, testRail := Some(t)), fs)
  {
    var u := s.(useTestRail := true, testRail := Some(t));
    MaskedArguments(u, fs);
  }

  /** The summary never depends on the test-rail password. */
  lemma SummaryHidesPassword(s: TestState, password: string)
    requires s.testRail.Some?
    ensures Summary(s) == Summary(s.(testRail := Some(s.testRail.value.(password := password))))
  {
    var u := s.(testRail := Some(s.testRail.value.(password := password)));
    ConfigurationHidesPassword(s, password);
    assert Header(s) == Header(u);
    assert ParametersSection(s) == ParametersSection(u) && ArgumentsSection(s) == ArgumentsSection(u);
  }

  lemma ConfigurationHidesPassword(s: TestState, password: string)
    requires s.testRail.Some?
    ensures Configuration(s) == Configuration(s.(testRail := Some(s.testRail.value.(password := password))))
  {
    TestRail.SummaryHidesPassword(s.testRail.value, password);
  }

  /** The summary opens with the working directory. */
  lemma SummaryOpensWithWorkingDirectory(s: TestState)
    ensures StartsWith(Summary(s), WorkingDirectoryLine(s))
  {
    FirstOfSevenParts(WorkingDirectoryLine(s), ExecutableLine(s), SuiteLine(s), RunConfigurationLine(s),
      Configuration(s), ParametersSection(s), ArgumentsSection(s));
  }

  lemma FirstOfSevenParts(a: string, b: string, c: string, d: string, e: string, f: string, g: string)
    ensures StartsWith(a + b + c + d + e + f + g, a)
  {
    var t := a + b + c + d + e + f;
    StartsWithExtends(a, b, a);
    StartsWithExtends(a + b, c, a);
    StartsWithExtends(a + b + c, d, a);
    StartsWithExtends(a + b + c + d, e, a);
    StartsWithExtends(a + b + c + d + e, f, a);
    StartsWithExtends(t, g, a);
  }

  /** Every global parameter is listed on a tab-indented line of its own. */
  lemma SummaryListsParameter(s: TestState, i: nat)
    requires i < |s.parameters|
    ensures Contains(Summary(s), "\t" + ToArgumentString(s.parameters[i]) + "\n")
  {
    var line := "\t" + ToArgumentString(s.parameters[i]) + "\n";
    var head := Header(s) + Configuration(s);
    ParameterLinesList(s.parameters, i);
    ContainsAfter("\nGlobal Parameters:\n", ParameterLines(s.parameters), line);
    assert ParametersSection(s) == "\nGlobal Parameters:\n" + ParameterLines(s.parameters);
    ContainsAfter(head, ParametersSection(s), line);
    ContainsExtends(head + ParametersSection(s), ArgumentsSection(s), line);
  }

  /** Every command-line argument is listed on a tab-indented line of its own. */
  lemma SummaryListsArgument(s: TestState, i: nat)
    requires i < |s.commandLineArguments|
    ensures Contains(Summary(s), "\t" + s.commandLineArguments[i].text + "\n")
  {
    var line := "\t" + s.commandLineArguments[i].text + "\n";
    ArgumentLinesList(s.commandLineArguments, i);
    ContainsAfter("\nCommand Line Arguments:\n", ArgumentLines(s.commandLineArguments), line);
    assert ArgumentsSection(s) == "\nCommand Line Arguments:\n" + ArgumentLines(s.commandLineArguments);
    ContainsAfter(Header(s) + Configuration(s) + ParametersSection(s), ArgumentsSection(s), line);
  }

  lemma {:induction false} ParameterLinesList(ps: seq<RanorexParameter>, i: nat)
    requires i < |ps|
    ensures Contains(ParameterLines(ps), "\t" + ToArgumentString(ps[i]) + "\n")
  {
    var front := ps[..|ps| - 1];
    var last := "\t" + ToArgumentString(ps[|ps| - 1]) + "\n";
    assert ParameterLines(ps) == ParameterLines(front) + last;
    if i == |ps| - 1 {
      ContainsAtEnd(ParameterLines(front), last);
    } else {
      assert ps[i] == front[i];
      ParameterLinesList(front, i);
      ContainsExtends(ParameterLines(front), last, "\t" + ToArgumentString(ps[i]) + "\n");
    }
  }

  lemma {:induction false} ArgumentLinesList(arguments: seq<CmdArgument>, i: nat)
    requires i < |arguments|
    ensures Contains(ArgumentLines(arguments), "\t" + arguments[i].text + "\n")
  {
    var front := arguments[..|arguments| - 1];
    var last := "\t" + arguments[|arguments| - 1].text + "\n";
    assert ArgumentLines(arguments) == ArgumentLines(front) + last;
    if i == |arguments| - 1 {
      ContainsAtEnd(ArgumentLines(front), last);
    } else {
      assert arguments[i] == front[i];
      ArgumentLinesList(front, i);
      ContainsExtends(ArgumentLines(front), last, "\t" + arguments[i].text + "\n");
    }
  }

  /** A test with nothing configured shows the placeholder for every optional part after the suite. */
  lemma PlaceholderSummary(s: TestState)
    requires IsBlank(s.runConfiguration) && s.report.None? && !s.useTestRail
    requires s.parameters == [] && s.commandLineArguments == []
    ensures Summary(s)
      == WorkingDirectoryLine(s) + ExecutableLine(s) + SuiteLine(s)
       + ("RunConfiguration:\t" + NoRunConfigurationLine)
       + ("Sync with TestRail:\t" + "false" + "\n")
       + ("\nGlobal Parameters:\n" + NoParametersLine)
       + ("\nCommand Line Arguments:\n" + NoArgumentsLine)
  {
    assert ReportSection(s) == [] && TestRailSection(s) == [];
    assert Configuration(s) == "Sync with TestRail:\t" + "false" + "\n";
  }

  /**
   * toString of a freshly constructed test: the working directory as given, the executable and
   * the suite by name, and the placeholder for everything not yet configured.
   */
  lemma FreshSummary(fs: FileSystem, workingDirectory: string, testExecutable: string, testSuite: string)
    requires Locate(fs, workingDirectory, testExecutable, testSuite).Ok?
    requires workingDirectory != [] && workingDirectory[|workingDirectory| - 1] != Separator
    requires forall c | c in testExecutable :: !IsPathSeparator(c)
    requires forall c | c in testSuite :: !IsPathSeparator(c)
    ensures Summary(Initial(workingDirectory, Locate(fs, workingDirectory, testExecutable, testSuite).value))
      == ("Working Directory:\t" + workingDirectory + "\n")
       + ("Test Executable File:\t" + testExecutable + "\n")
       + ("Test Suite File:\t" + (if IsBlank(testSuite) then NoSuiteLine else testSuite + "\n"))
       + ("RunConfiguration:\t" + NoRunConfigurationLine)
       + ("Sync with TestRail:\t" + "false" + "\n")
       + ("\nGlobal Parameters:\n" + NoParametersLine)
       + ("\nCommand Line Arguments:\n" + NoArgumentsLine)
  {
    var s := Initial(workingDirectory, Locate(fs, workingDirectory, testExecutable, testSuite).value);
    FreshNames(fs, workingDirectory, testExecutable, testSuite);
    PlaceholderSummary(s);
  }

  /** The executable and the suite of a fresh test are shown by the names they were given. */
  lemma FreshNames(fs: FileSystem, workingDirectory: string, testExecutable: string, testSuite: string)
    requires Locate(fs, workingDirectory, testExecutable, testSuite).Ok?
    requires workingDirectory != [] && workingDirectory[|workingDirectory| - 1] != Separator
    requires forall c | c in testExecutable :: !IsPathSeparator(c)
    requires forall c | c in testSuite :: !IsPathSeparator(c)
    ensures var s := Initial(workingDirectory, Locate(fs, workingDirectory, testExecutable, testSuite).value);
      && ExecutableLine(s) == "Test Executable File:\t" + testExecutable + "\n"
      && SuiteLine(s) == "Test Suite File:\t" + (if IsBlank(testSuite) then NoSuiteLine else testSuite + "\n")
  {
    var setup := Locate(fs, workingDirectory, testExecutable, testSuite).value;
    FreshExecutableName(fs, workingDirectory, testExecutable, testSuite);
    assert ExecutableLine(Initial(workingDirectory, setup)) == "Test Executable File:\t" + testExecutable + "\n";
    FreshSuiteLine(fs, workingDirectory, testExecutable, testSuite);
  }

  lemma FreshSuiteLine(fs: FileSystem, workingDirectory: string, testExecutable: string, testSuite: string)
    requires Locate(fs, workingDirectory, testExecutable, testSuite).Ok?
    requires workingDirectory != [] && workingDirectory[|workingDirectory| - 1] != Separator
    requires forall c | c in testExecutable :: !IsPathSeparator(c)
    requires forall c | c in testSuite :: !IsPathSeparator(c)
    ensures SuiteLine(Initial(workingDirectory, Locate(fs, workingDirectory, testExecutable, testSuite).value))
      == "Test Suite File:\t" + (if IsBlank(testSuite) then NoSuiteLine else testSuite + "\n")
  {
    var suite := Locate(fs, workingDirectory, testExecutable, testSuite).value.testSuiteFile;
    if IsBlank(testSuite) {
      assert suite.None?;
    } else {
      FreshSuiteName(fs, workingDirectory, testExecutable, testSuite);
    }
  }

  lemma FreshExecutableName(fs: FileSystem, workingDirectory: string, testExecutable: string, testSuite: string)
    requires Locate(fs, workingDirectory, testExecutable, testSuite).Ok?
    requires workingDirectory != [] && workingDirectory[|workingDirectory| - 1] != Separator
    requires forall c | c in testExecutable :: !IsPathSeparator(c)
    ensures LastPathSegment(Locate(fs, workingDirectory, testExecutable, testSuite).value.testExecutable) == testExecutable
  {
    var setup := Locate(fs, workingDirectory, testExecutable, testSuite).value;
    assert setup.testExecutable == workingDirectory + [Separator] + testExecutable;
    LastPathSegmentOfJoin(workingDirectory, Separator, testExecutable);
  }

  lemma FreshSuiteName(fs: FileSystem, workingDirectory: string, testExecutable: string, testSuite: string)
    requires Locate(fs, workingDirectory, testExecutable, testSuite).Ok? && !IsBlank(testSuite)
    requires workingDirectory != [] && workingDirectory[|workingDirectory| - 1] != Separator
    requires forall c | c in testExecutable :: !IsPathSeparator(c)
    requires forall c | c in testSuite :: !IsPathSeparator(c)
    ensures var suite := Locate(fs, workingDirectory, testExecutable, testSuite).value.testSuiteFile;
      suite.Some? && LastPathSegment(suite.value) == testSuite
  {
    var setup := Locate(fs, workingDirectory, testExecutable, testSuite).value;
    SuiteNextToExecutable(workingDirectory, testExecutable, testSuite);
    assert setup.testSuiteFile.value == workingDirectory + [Separator] + testSuite;
    LastPathSegmentOfJoin(workingDirectory, Separator, testSuite);
  }
}
