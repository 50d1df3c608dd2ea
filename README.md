# Ranorex Jenkins plugin: argument assembly, in Dafny

This project models the part of the Ranorex Jenkins plugin that turns a build step's
configuration into the command line of a Ranorex test executable, and proves what that
code promises. It has five modules, one per source class, plus two shared ones:

- `Wrappers` (`wrappers.dfy`): `Option` for Java references that may be null, and `Result`
  for the exceptions the code throws (`InvalidParameterException`, `FileNotFoundException`,
  index-out-of-range and null-dereference errors).
- `StringUtil` (`string_util.dfy`): the `java.lang.String` operations the plugin uses (`trim`,
  `indexOf`, `lastIndexOf`, `contains`, `replace`), and the `StringUtil` helpers
  `isNullOrSpace`, `removeHeadingSlash` and the last element of `splitPath`.
  `StringUtil.java` is not part of this model. These helpers are defined by the behaviour
  their unit tests fix.
- `FileUtil` (`file_util.dfy`): the Windows path helpers. These are the absolute-path
  heuristic, relative-path combination, report-directory resolution, extension stripping,
  file names, and the mapping from a suite file to its executable.
- `Parameter` (`ranorex_parameter.dfy`): the global-parameter parser. It turns a token
  `[/]flag:name=value` into flag, name and value. It enforces the `pa`/`param` whitelist and
  falls back to `pa` when the token has no `:`.
- `Report` (`ranorex_report.dfy`): the report's defaulting rules and its two runner arguments,
  `/reportfile:` and `/zipreportfile:`, plus its summary text.
- `TestRail` (`test_rail_integration.dfy`): the TestRail credentials and their masked summary.
- `Rx` (`ranorex_test.dfy`): the `RanorexTest` class. Its constructor checks the working
  directory, the executable and the suite in a fixed order. Setters and adders change its
  fields in place. `ToExecutionArguments` and `ToString` build the argument list and the
  summary with loops.

`RanorexReport` and `TestRailIntegration` are never changed after their constructors return.
`RanorexParameter` is changed once more by the build step: it calls the inherited `trim()` on
each parsed parameter before handing it to `addGlobalParameter`. That method is not part of this
model, so `RanorexTest.AddGlobalParameter` accepts any parameter value. All three are
datatypes, and their constructors are functions that return a `Result`.

`RanorexTest` has setters and growing lists, so it is a `class`:
- its fields mirror the Java fields, with `seq` for the two `ArrayList`s;
- every method states its whole new state through `State()`;
- `ToExecutionArguments` and `ToString` are proved equal to the functions
  `ExecutionArguments` and `Summary` over that state;
- lemmas then state the properties of those functions.

Each argument is a `Token(text, masked)`. The masked flag stands for `ArgumentListBuilder.addMasked`.

File-system state is a `FileSystem` value holding the sets of existing files and directories.
It is passed to the constructor and to `ToExecutionArguments`, where the Java code calls
`File.exists` and `File.isDirectory`.

Where the code differs from the plugin's intended behaviour, the model follows the code:
- `/zipreport` and `/zipreportfile:` come before `/junit`.
- The run-name argument is spelled `/trrunaname=`. The runner flag list in the parameter
  tests names it `trrunname`.
- Test-rail credentials are never checked. A blank user name or password is passed on as given.
- A report name is never rejected for being absolute.
- The `=` check looks at the whole token, so `pa:=x` is accepted with an empty name.
- `getFullReportArgument` always puts a `\` between the directory and the name.
- `isValid` accepts more than the constructor builds. Every token `"/:name=value"`, such as `"/:a=b"`, passes `isValid`
  because its extracted flag is blank. `trySplitArgument` then rejects it, because the blank flag is
  not whitelisted (`Parameter.ValidTokenRejected`).

## Model

| member | source | states |
|---|---|---|
| StringUtil.Trim | src/main/java/com/ranorex/jenkinsranorexplugin/util/RanorexParameter.java:53 | the result starts and ends with a non-space; it keeps exactly the characters between the padding; empty exactly for blank input (isNullOrSpace); unchanged when the input has no spaces |
| StringUtil.BlankExamples | src/test/java/com/ranorex/jenkinsranorexplugin/util/StringUtilTest.java:29-45 | "" and " " are blank; "Test", "Banana" and "123" are not |
| StringUtil.TrimMiddle | src/main/java/com/ranorex/jenkinsranorexplugin/util/RanorexParameter.java:53 | the trimmed text is a contiguous middle of the input with blank text on both sides |
| StringUtil.TrimPadded | src/main/java/com/ranorex/jenkinsranorexplugin/util/RanorexParameter.java:53 | a middle that starts and ends visibly, padded with blanks on both sides, is exactly what trim returns |
| StringUtil.IndexOf | src/main/java/com/ranorex/jenkinsranorexplugin/util/RanorexParameter.java:57 | the index holds the character and no earlier one does; -1 exactly when absent |
| StringUtil.LastIndexOf | src/main/java/com/ranorex/jenkinsranorexplugin/util/FileUtil.java:129 | the index holds the character and no later one does; -1 exactly when absent |
| StringUtil.RemoveHeadingSlash | src/main/java/com/ranorex/jenkinsranorexplugin/util/RanorexParameter.java:77 | fails with "Argument is empty" exactly on blank input; otherwise the input with at most one leading '/' removed |
| StringUtil.Contains | src/main/java/com/ranorex/jenkinsranorexplugin/util/FileUtil.java:27-29 | the empty pattern is contained in everything; a contained pattern is no longer than the text |
| StringUtil.ContainsOccurs | src/main/java/com/ranorex/jenkinsranorexplugin/util/FileUtil.java:27-29 | contains holds exactly when the pattern occurs at some index |
| StringUtil.ReplaceAll | src/main/java/com/ranorex/jenkinsranorexplugin/util/FileUtil.java:28 | replacing a pattern that does not occur leaves the text unchanged |
| StringUtil.ReplaceAllSplit | src/main/java/com/ranorex/jenkinsranorexplugin/util/FileUtil.java:28 | replacing around a character that is not in the pattern replaces each side on its own and keeps the character |
| StringUtil.ReplaceAllAtEnd | src/main/java/com/ranorex/jenkinsranorexplugin/util/FileUtil.java:28 | replacing a pattern that ends a string free of the pattern, and whose first character does not recur in it, swaps just that ending |
| StringUtil.ReplaceSingleChar | src/main/java/com/ranorex/jenkinsranorexplugin/util/FileUtil.java:94 | replacing one character by another keeps the length and maps each position |
| StringUtil.LastPathSegment | src/main/java/com/ranorex/jenkinsranorexplugin/util/FileUtil.java:35-36 | the last segment holds no separator and is the closing segment of the path without its trailing separators (the whole path or what follows a separator); empty exactly when the path is all separators |
| StringUtil.LastPathSegmentOfJoin | src/main/java/com/ranorex/jenkinsranorexplugin/util/FileUtil.java:146-147 | a separator-free name is the last segment of any path it ends |
| FileUtil.IsAbsolutePath | src/main/java/com/ranorex/jenkinsranorexplugin/util/FileUtil.java:63-76 | false for blank input; an index error for a one-character non-blank input; otherwise true exactly for ':' as second character or a "\\\\" prefix |
| FileUtil.DriveAndUncPathsAreAbsolute | src/main/java/com/ranorex/jenkinsranorexplugin/util/FileUtil.java:72 | drive-letter and UNC paths are absolute |
| FileUtil.DotRelativePathsAreNotAbsolute | src/test/java/com/ranorex/jenkinsranorexplugin/util/FileUtilTest.java:85-91 | paths starting with '.' (and no ':' second) are not absolute |
| FileUtil.ToWindowsSeparators | src/main/java/com/ranorex/jenkinsranorexplugin/util/FileUtil.java:94 | same length, every '/' becomes '\\', nothing else changes, no '/' remains |
| FileUtil.CombinePath | src/main/java/com/ranorex/jenkinsranorexplugin/util/FileUtil.java:85-95 | an index error for an empty relative path, a bare ".", or an empty workspace met by a leading "\\"; otherwise workspace + the relative path with one leading "." dropped, then one leading "\\" dropped exactly when the workspace ends in "\\", and "/" turned into "\\"; the workspace is a prefix and at most two characters are dropped |
| FileUtil.CombinePathDotRelative | src/main/java/com/ranorex/jenkinsranorexplugin/util/FileUtil.java:86-93 | ".\\rest" under a workspace without a trailing '\\' gives workspace + "\\" + rest |
| FileUtil.CombinePathDuplicateSeparator | src/main/java/com/ranorex/jenkinsranorexplugin/util/FileUtil.java:90-93 | under a workspace ending in '\\', "\\rest" and ".\\rest" both give workspace + rest |
| FileUtil.CombinePathExample | src/test/java/com/ranorex/jenkinsranorexplugin/util/FileUtilTest.java:96 | C:\Temp with .\bin\Debug\ gives C:\Temp\bin\Debug\ |
| FileUtil.CombinePathExampleTrailingSeparator | src/test/java/com/ranorex/jenkinsranorexplugin/util/FileUtilTest.java:97 | C:\Temp\ with \bin\Debug\ gives C:\Temp\bin\Debug\ |
| FileUtil.GetAbsoluteReportDirectory | src/main/java/com/ranorex/jenkinsranorexplugin/util/FileUtil.java:108-117 | an absolute directory is returned unchanged, a relative one is combined with the workspace, an index error propagates |
| FileUtil.ResolvedReportDirectoryIsAbsolute | src/main/java/com/ranorex/jenkinsranorexplugin/util/FileUtil.java:108-117 | against an absolute workspace the resolved directory is absolute |
| FileUtil.AbsolutePrefix | src/main/java/com/ranorex/jenkinsranorexplugin/util/FileUtil.java:63-76 | a path that starts with an absolute path is absolute |
| FileUtil.RemoveFileExtension | src/main/java/com/ranorex/jenkinsranorexplugin/util/FileUtil.java:124-136 | blank input fails with "Filename cannot be null or empty"; otherwise succeeds exactly when a '.' follows the first character, returning the text before the last '.', and fails with "Filename does not have an extension" otherwise |
| FileUtil.RemoveFileExtensionRoundTrip | src/main/java/com/ranorex/jenkinsranorexplugin/util/FileUtil.java:129-132 | stripping base + "." + dot-free extension gives back base |
| FileUtil.RemoveFileExtensionWithoutDot | src/main/java/com/ranorex/jenkinsranorexplugin/util/FileUtil.java:130-134 | a name with no '.' after its first character is refused |
| FileUtil.GetFile | src/main/java/com/ranorex/jenkinsranorexplugin/util/FileUtil.java:144-150 | fails with "Path is not valid" exactly on blank input; otherwise the last path segment: separator-free, empty only for an all-separator path |
| FileUtil.GetFileOfJoin | src/main/java/com/ranorex/jenkinsranorexplugin/util/FileUtil.java:144-150 | the file name of directory\name is name |
| FileUtil.GetExecutableFromTestSuite | src/main/java/com/ranorex/jenkinsranorexplugin/util/FileUtil.java:25-37 | succeeds exactly when the input contains ".rxtst" or ".exe", else fails with "Input '…' is not a valid Test Suite File"; the result is the last segment of the input with every ".rxtst" replaced by ".exe", or of the input itself when it holds no ".rxtst"; non-empty and separator-free |
| FileUtil.ExecutableNotOnlySeparators | src/main/java/com/ranorex/jenkinsranorexplugin/util/FileUtil.java:27-36 | neither rewriting branch leaves a path made only of separators, so the last segment exists |
| FileUtil.ExecutableOfDotFreePath | src/main/java/com/ranorex/jenkinsranorexplugin/util/FileUtil.java:27-30 | p + ".rxtst" and p + ".exe" map to the same executable |
| FileUtil.ExecutableOfTestSuite | src/test/java/com/ranorex/jenkinsranorexplugin/util/FileUtilTest.java:44-50 | name.rxtst becomes name.exe and name.exe is kept |
| FileUtil.ExecutableOfTestSuiteInDirectory | src/main/java/com/ranorex/jenkinsranorexplugin/util/FileUtil.java:25-37 | dir\name.rxtst and dir\name.exe both give name.exe |
| FileUtil.ExecutableOfSuiteInAnyDirectory | src/main/java/com/ranorex/jenkinsranorexplugin/util/FileUtil.java:25-37 | dir\\name.rxtst gives name.exe in any directory, for a separator-free name not containing ".rxtst" |
| Parameter.IsValidFlag | src/main/java/com/ranorex/jenkinsranorexplugin/util/RanorexParameter.java:52-54 | a whitelisted word is a valid flag; a valid flag is not blank and holds no ':', '=' or '/' |
| Parameter.IsValidFlagWithoutBlanks | src/main/java/com/ranorex/jenkinsranorexplugin/util/RanorexParameter.java:8-10 | a flag without blanks is valid exactly when it is "pa" or "param" |
| Parameter.IsValidFlagPadding | src/main/java/com/ranorex/jenkinsranorexplugin/util/RanorexParameter.java:52-54 | a flag is valid exactly when it is "pa" or "param" padded with blanks on both sides |
| Parameter.IsValidFlagPadded | src/main/java/com/ranorex/jenkinsranorexplugin/util/RanorexParameter.java:52-54 | a space-free word padded with blanks is valid exactly when the word is "pa" or "param" |
| Parameter.VisibleEndsFlag | src/main/java/com/ranorex/jenkinsranorexplugin/util/RanorexParameter.java:52-54 | a word that starts and ends visibly is valid exactly when it is whitelisted |
| Parameter.WhitelistedFlagsAreValid | src/test/java/com/ranorex/jenkinsranorexplugin/util/RanorexParameterTest.java:16-22 | both whitelisted words are valid flags |
| Parameter.ReservedFlagsAreRejected | src/test/java/com/ranorex/jenkinsranorexplugin/util/RanorexParameterTest.java:24-39 | none of the runner's own flags is a valid flag |
| Parameter.ValidNameValuePair | src/main/java/com/ranorex/jenkinsranorexplugin/util/RanorexParameter.java:56-59 | a token holds a valid name/value pair exactly when its first '=' lies strictly between its first and its last index |
| Parameter.TryExtractFlag | src/main/java/com/ranorex/jenkinsranorexplugin/util/RanorexParameter.java:73-82 | fails with "Parameter '…' does not contain a separator!" when the first ':' is missing or at index 0; a returned flag is the text before the first ':' with one leading '/' removed |
| Parameter.ExtractFlagBlankPrefix | src/main/java/com/ranorex/jenkinsranorexplugin/util/RanorexParameter.java:73-82 | past a ':' at index > 0, extraction fails exactly for a blank prefix, with "Argument is empty" |
| Parameter.IsValid | src/main/java/com/ranorex/jenkinsranorexplugin/util/RanorexParameter.java:62-71 | valid exactly when the token has a valid name/value pair and its extracted flag is blank or valid (whitelisted after trimming), or no flag can be extracted; a valid token is not blank |
| Parameter.FlaggedTokenValidity | src/main/java/com/ranorex/jenkinsranorexplugin/util/RanorexParameter.java:62-71 | a token "/flag:rest" with a non-blank flag is valid exactly when it has a valid pair and the flag is valid |
| Parameter.TrySplitArgument | src/main/java/com/ranorex/jenkinsranorexplugin/util/RanorexParameter.java:29-50 | blank input fails with "Cannot split empty string", any other failure is "Parameter '…' is not valid"; on success the first ':' precedes the first '=', the flag is the extracted one or "pa", the name lies between the first ':' and the first '=', the value follows the first '=' |
| Parameter.SplitAccepts | src/main/java/com/ranorex/jenkinsranorexplugin/util/RanorexParameter.java:29-50 | the split succeeds exactly for a non-blank token with a valid pair whose extracted or default flag is valid |
| Parameter.SplitAt | src/main/java/com/ranorex/jenkinsranorexplugin/util/RanorexParameter.java:42-45 | the two substring calls succeed exactly when the first ':' precedes the first '=', else an index error; they cut the name and the value |
| Parameter.SeparatorBeforeEquals | src/main/java/com/ranorex/jenkinsranorexplugin/util/RanorexParameter.java:41-45 | when the split proceeds, the first ':' precedes the first '=', so the substring call cannot throw |
| Parameter.SplitPartsWellFormed | src/main/java/com/ranorex/jenkinsranorexplugin/util/RanorexParameter.java:41-45 | the parts of a split token are well formed and rebuild the token up to its flag prefix |
| Parameter.SplitCut | src/main/java/com/ranorex/jenkinsranorexplugin/util/RanorexParameter.java:42-45 | a split token with text after its first '=' has an '='-free name, a non-empty value, and is rebuilt from its flag prefix, name, '=' and value |
| Parameter.NewParameter | src/main/java/com/ranorex/jenkinsranorexplugin/util/RanorexParameter.java:14-27 | a token isValid refuses fails with "'…' is not a valid Parameter"; otherwise the outcome of trySplitArgument |
| Parameter.ToArgumentString | src/main/java/com/ranorex/jenkinsranorexplugin/rx/RanorexTest.java:174-176 | the token starts with '/' and is three characters longer than flag, name and value together |
| Parameter.NewParameterAccepts | src/main/java/com/ranorex/jenkinsranorexplugin/util/RanorexParameter.java:14-50 | the constructor succeeds exactly for a valid pair whose extracted or default flag is whitelisted, and builds a well-formed parameter (valid flag, '=' -free name, non-empty value) |
| Parameter.AcceptedTokensAreValid | src/main/java/com/ranorex/jenkinsranorexplugin/util/RanorexParameter.java:14-27 | every accepted token passes isValid |
| Parameter.ValidTokenRejected | src/main/java/com/ranorex/jenkinsranorexplugin/util/RanorexParameter.java:62-71 | every token "/:name=value" with an '='-free name and a non-empty value passes isValid yet is refused with "Parameter '…' is not valid" |
| Parameter.TokenParts | src/main/java/com/ranorex/jenkinsranorexplugin/util/RanorexParameter.java:41-45 | in a written-out parameter the first ':' and '=' sit right after the flag and the name, tryExtractFlag recovers the flag, and the two substrings are the name and the value |
| Parameter.ParameterRoundTrip | src/main/java/com/ranorex/jenkinsranorexplugin/util/RanorexParameter.java:14-50 | a well-formed parameter written out and parsed back is unchanged |
| Parameter.SplitOfWrittenToken | src/main/java/com/ranorex/jenkinsranorexplugin/util/RanorexParameter.java:29-50 | splitting a written-out parameter whose flag is recovered gives back the parameter |
| Parameter.DefaultFlagWithoutSeparator | src/main/java/com/ranorex/jenkinsranorexplugin/util/RanorexParameter.java:36-40 | name=value without ':' gets the flag "pa" |
| Parameter.RejectedWithoutEquals | src/main/java/com/ranorex/jenkinsranorexplugin/util/RanorexParameter.java:56-59 | a token without '=' is not valid and is refused |
| Parameter.ConstructorExampleShortFlag | src/test/java/com/ranorex/jenkinsranorexplugin/util/RanorexParameterTest.java:84 | "/pa:TestName=TestValue" gives pa, TestName, TestValue |
| Parameter.ConstructorExampleLongFlag | src/test/java/com/ranorex/jenkinsranorexplugin/util/RanorexParameterTest.java:86 | "/param:TestName=TestValue" gives param, TestName, TestValue |
| Parameter.ConstructorExampleWithoutFlag | src/test/java/com/ranorex/jenkinsranorexplugin/util/RanorexParameterTest.java:85 | "TestName=TestValue" gives pa, TestName, TestValue |
| Parameter.ConstructorExampleWithoutValue | src/test/java/com/ranorex/jenkinsranorexplugin/util/RanorexParameterTest.java:96-100 | "/pa:TestNameTestValue" is refused as not a valid Parameter |
| Report.ResolveDirectory | src/main/java/com/ranorex/jenkinsranorexplugin/rx/RanorexReport.java:21-25 | a blank directory gives the working directory; any other is getAbsoluteReportDirectory of it; a result starts with the working directory or is the absolute directory itself, and is absolute against an absolute working directory |
| Report.BaseName | src/main/java/com/ranorex/jenkinsranorexplugin/rx/RanorexReport.java:28-37 | a blank name gives the fallback; otherwise a prefix of the name, equal to it exactly when it has no extension, else cut at its last '.' |
| Report.NewReport | src/main/java/com/ranorex/jenkinsranorexplugin/rx/RanorexReport.java:19-60 | fails exactly when a used directory fails to resolve; stores the resolved directory, stripped or default name, extension and both flags as given; compressed fields set exactly when compression is on, the compressed name falling back to the report name |
| Report.ReportDirectoriesAreAbsolute | src/main/java/com/ranorex/jenkinsranorexplugin/rx/RanorexReport.java:19-60 | against an absolute working directory both report directories are absolute |
| Report.FullReportArgument | src/main/java/com/ranorex/jenkinsranorexplugin/rx/RanorexReport.java:83-85 | the report directory and a '\\', then the name, then "." and the extension, and nothing else |
| Report.FullReportArgumentWithoutExtension | src/main/java/com/ranorex/jenkinsranorexplugin/rx/RanorexReport.java:83-85 | stripping the extension off the report argument leaves directory\name |
| Report.FullReportArgumentFile | src/main/java/com/ranorex/jenkinsranorexplugin/rx/RanorexReport.java:83-85 | the file named by the report argument is name.extension |
| Report.FullCompressedReportArgument | src/main/java/com/ranorex/jenkinsranorexplugin/rx/RanorexReport.java:87-89 | available exactly when the compressed fields are set, else a null dereference; then the compressed directory and a '\\', followed by the compressed name + ".rxzlog" |
| Report.CompressedArgumentAvailable | src/main/java/com/ranorex/jenkinsranorexplugin/rx/RanorexReport.java:41-59 | a constructed report with compression on always has its compressed argument; its file is name.rxzlog and stripping the extension leaves directory\\name |
| Report.SummaryShowsReport | src/main/java/com/ranorex/jenkinsranorexplugin/rx/RanorexReport.java:62-78 | the summary opens with the regular report heading, shows the directory, name, extension and compression lines, and ends with the JUnit line |
| Report.SummaryShowsCompressedReport | src/main/java/com/ranorex/jenkinsranorexplugin/rx/RanorexReport.java:70-75 | with compression on the summary contains the compressed block |
| Report.SummaryIgnoresCompressedFields | src/main/java/com/ranorex/jenkinsranorexplugin/rx/RanorexReport.java:70-75 | with compression off the compressed fields do not affect the summary |
| Report.RelativeReportDirectory | src/main/java/com/ranorex/jenkinsranorexplugin/util/FileUtil.java:108-117 | a plain relative directory (no drive, no leading '.', '\\' or '/') is placed directly under the working directory |
| Report.ConstructorExample | src/test/java/com/ranorex/jenkinsranorexplugin/rx/RanorexReportTest.java:15-17 | C:\temp\ with "This Report Dir" and "This report Name" gives directory C:\temp\This Report Dir and the name unchanged |
| Report.PlainNameKept | src/main/java/com/ranorex/jenkinsranorexplugin/rx/RanorexReport.java:28-37 | a name with no '.' after its first character is kept as given |
| TestRail.SummaryHidesPassword | src/main/java/com/ranorex/jenkinsranorexplugin/rx/TestRailIntegration.java:24-25 | the summary contains the five-star password line and does not depend on the password |
| TestRail.SummaryShowsUserName | src/main/java/com/ranorex/jenkinsranorexplugin/rx/TestRailIntegration.java:20-33 | the summary opens with the user-name line and the five-star password line and ends with the run-name line, if any |
| TestRail.SummaryShowsRunId | src/main/java/com/ranorex/jenkinsranorexplugin/rx/TestRailIntegration.java:26-28 | a non-blank run id is shown on its line; a blank one is treated as empty |
| TestRail.SummaryShowsRunName | src/main/java/com/ranorex/jenkinsranorexplugin/rx/TestRailIntegration.java:29-31 | a non-blank run name is shown on its line; a blank one is treated as empty |
| Rx.JoinPath | src/main/java/com/ranorex/jenkinsranorexplugin/rx/RanorexTest.java:45 | an empty child gives the parent; otherwise the parent, one '\\' unless the parent already ends in one, then the child (prefix, suffix, length and separator position) |
| Rx.ParentPath | src/main/java/com/ranorex/jenkinsranorexplugin/rx/RanorexTest.java:67 | null exactly for a path without separator; otherwise the prefix before the last separator |
| Rx.SuitePath | src/main/java/com/ranorex/jenkinsranorexplugin/rx/RanorexTest.java:67-68 | without a parent the suite name itself; otherwise the suite joined under the executable's parent |
| Rx.SuiteNextToExecutable | src/main/java/com/ranorex/jenkinsranorexplugin/rx/RanorexTest.java:45-67 | the suite is looked up in the working directory when the executable is named inside it |
| Rx.Locate | src/main/java/com/ranorex/jenkinsranorexplugin/rx/RanorexTest.java:31-70 | succeeds exactly when the working directory is a directory, the executable is non-blank and exists, and a given suite exists next to it; each failure in check order gives its own error and message |
| Rx.Initial | src/main/java/com/ranorex/jenkinsranorexplugin/rx/RanorexTest.java:72-74 | a new test keeps the working directory, executable and suite it was given; no run configuration, no report, test-rail off and absent, both lists empty |
| Rx.ReportTokens | src/main/java/com/ranorex/jenkinsranorexplugin/rx/RanorexTest.java:148-159 | /reportfile first, then /zipreport and /zipreportfile exactly when compressed, /junit last exactly when enabled; none masked |
| Rx.TestRailTokens | src/main/java/com/ranorex/jenkinsranorexplugin/rx/RanorexTest.java:161-171 | /testrail, masked /truser=, masked /trpass=, then /trrunid= and /trrunaname= each only when non-blank and unmasked |
| Rx.ParameterTokens | src/main/java/com/ranorex/jenkinsranorexplugin/rx/RanorexTest.java:174-178 | one token per parameter, in order |
| Rx.ArgumentTokens | src/main/java/com/ranorex/jenkinsranorexplugin/rx/RanorexTest.java:180-184 | one token per command-line argument, in order |
| Rx.RanorexTest.constructor | src/main/java/com/ranorex/jenkinsranorexplugin/rx/RanorexTest.java:72-74 | the fields of a test once every check has passed |
| Rx.RanorexTest.Create | src/main/java/com/ranorex/jenkinsranorexplugin/rx/RanorexTest.java:31-75 | fails exactly as the checks do, with their error; otherwise a fresh consistent test in its initial state |
| Rx.RanorexTest.AddGlobalParameter | src/main/java/com/ranorex/jenkinsranorexplugin/rx/RanorexTest.java:77-79 | appends the parameter; nothing else changes |
| Rx.RanorexTest.AddCommandLineArgument | src/main/java/com/ranorex/jenkinsranorexplugin/rx/RanorexTest.java:81-83 | appends the argument; nothing else changes |
| Rx.RanorexTest.SetRunConfiguration | src/main/java/com/ranorex/jenkinsranorexplugin/rx/RanorexTest.java:194-196 | replaces the run configuration; nothing else changes |
| Rx.RanorexTest.SetReport | src/main/java/com/ranorex/jenkinsranorexplugin/rx/RanorexTest.java:198-200 | sets the report; nothing else changes |
| Rx.RanorexTest.SetTestRail | src/main/java/com/ranorex/jenkinsranorexplugin/rx/RanorexTest.java:202-205 | switches test-rail on with the given credentials, keeping "on implies present" |
| Rx.RanorexTest.ToExecutionArguments | src/main/java/com/ranorex/jenkinsranorexplugin/rx/RanorexTest.java:135-186 | the list built step by step equals ExecutionArguments of the current state |
| Rx.RanorexTest.AppendReport | src/main/java/com/ranorex/jenkinsranorexplugin/rx/RanorexTest.java:148-159 | appends exactly the report tokens |
| Rx.RanorexTest.AppendTestRail | src/main/java/com/ranorex/jenkinsranorexplugin/rx/RanorexTest.java:161-171 | appends exactly the test-rail tokens |
| Rx.RanorexTest.AppendParameters | src/main/java/com/ranorex/jenkinsranorexplugin/rx/RanorexTest.java:174-178 | the loop appends one token per parameter in order |
| Rx.RanorexTest.AppendArguments | src/main/java/com/ranorex/jenkinsranorexplugin/rx/RanorexTest.java:180-184 | the loop appends one token per argument in order |
| Rx.RanorexTest.ToString | src/main/java/com/ranorex/jenkinsranorexplugin/rx/RanorexTest.java:89-133 | the text built step by step equals Summary of the current state |
| Rx.RanorexTest.HeaderText | src/main/java/com/ranorex/jenkinsranorexplugin/rx/RanorexTest.java:91-106 | working directory, executable name, suite name or placeholder, run configuration or placeholder |
| Rx.RanorexTest.ConfigurationText | src/main/java/com/ranorex/jenkinsranorexplugin/rx/RanorexTest.java:107-113 | the report summary when set, the test-rail flag, the credentials summary only while on |
| Rx.RanorexTest.AppendParameterLines | src/main/java/com/ranorex/jenkinsranorexplugin/rx/RanorexTest.java:115-119 | the loop appends one tab-indented line per parameter in order |
| Rx.RanorexTest.AppendArgumentLines | src/main/java/com/ranorex/jenkinsranorexplugin/rx/RanorexTest.java:124-128 | the loop appends one tab-indented line per argument in order |
| Rx.MaskedTokens | src/main/java/com/ranorex/jenkinsranorexplugin/rx/RanorexTest.java:163-164 | the masked entries are no more than the list holds, and every one of them is masked |
| Rx.MaskedTokensMembers | src/main/java/com/ranorex/jenkinsranorexplugin/rx/RanorexTest.java:163-164 | an entry is kept exactly when it is in the list and masked |
| Rx.TestRailMaskedTokens | src/main/java/com/ranorex/jenkinsranorexplugin/rx/RanorexTest.java:161-171 | of the test-rail tokens exactly user and password are masked, in that order |
| Rx.HeadMaskedTokens | src/main/java/com/ranorex/jenkinsranorexplugin/rx/RanorexTest.java:136-171 | before the parameters, only the credentials are masked, and only while test-rail is on |
| Rx.MaskedArguments | src/main/java/com/ranorex/jenkinsranorexplugin/rx/RanorexTest.java:135-186 | the whole list masks exactly the test-rail user and password while test-rail is on, nothing otherwise |
| Rx.ExecutionArguments | src/main/java/com/ranorex/jenkinsranorexplugin/rx/RanorexTest.java:135-186 | the list opens with cmd.exe and /C, and is as long as the head arguments plus one per parameter and one per command-line argument |
| Rx.ArgumentsEndWithUserEntries | src/main/java/com/ranorex/jenkinsranorexplugin/rx/RanorexTest.java:173-185 | the list ends with the parameters and then the command-line arguments, each in insertion order |
| Rx.AddGlobalParameterArguments | src/main/java/com/ranorex/jenkinsranorexplugin/rx/RanorexTest.java:77-79 | adding a parameter inserts exactly one token, just before the command-line arguments |
| Rx.AddCommandLineArgumentArguments | src/main/java/com/ranorex/jenkinsranorexplugin/rx/RanorexTest.java:81-83 | adding an argument appends exactly one token at the end |
| Rx.CreatedTestArguments | src/main/java/com/ranorex/jenkinsranorexplugin/rx/RanorexTest.java:136-143 | a freshly checked test passes cmd.exe, /C, the executable and the suite if given, nothing more |
| Rx.SetTestRailArguments | src/main/java/com/ranorex/jenkinsranorexplugin/rx/RanorexTest.java:202-205 | after setTestRail the list carries the masked user and password |
| Rx.SummaryHidesPassword | src/main/java/com/ranorex/jenkinsranorexplugin/rx/RanorexTest.java:107-109 | the test summary does not depend on the test-rail password |
| Rx.SummaryOpensWithWorkingDirectory | src/main/java/com/ranorex/jenkinsranorexplugin/rx/RanorexTest.java:89-92 | the summary opens with the working-directory line |
| Rx.SummaryListsParameter | src/main/java/com/ranorex/jenkinsranorexplugin/rx/RanorexTest.java:115-119 | every parameter appears on its own tab-indented line |
| Rx.SummaryListsArgument | src/main/java/com/ranorex/jenkinsranorexplugin/rx/RanorexTest.java:124-128 | every command-line argument appears on its own tab-indented line |
| Rx.PlaceholderSummary | src/main/java/com/ranorex/jenkinsranorexplugin/rx/RanorexTest.java:89-133 | an unconfigured test prints the run-configuration, test-rail, parameter and argument placeholders |
| Rx.FreshNames | src/main/java/com/ranorex/jenkinsranorexplugin/rx/RanorexTest.java:92-99 | a fresh test shows the executable and suite by the names given |
| Rx.FreshExecutableName | src/main/java/com/ranorex/jenkinsranorexplugin/rx/RanorexTest.java:92-99 | the executable of a fresh test, joined to the working directory, ends in the name given |
| Rx.FreshSuiteName | src/main/java/com/ranorex/jenkinsranorexplugin/rx/RanorexTest.java:92-99 | a non-blank suite of a fresh test is located and ends in the name given |
| Rx.FreshSummary | src/test/java/com/ranorex/jenkinsranorexplugin/rx/RanorexTestTest.java:117-157 | the full summary of a freshly constructed test, with or without a suite |

## Left out

- The Jenkins glue in `RanorexRunnerBuilder.java` is left out. This covers process launch, form validation, persistence, logging, and the loop that splits the user's text into parameters and arguments. It is host-framework and I/O code.
- `StringUtil.splitBy` is used only by that glue.
- `FileUtil.getRanorexWorkingDirectory` depends on Jenkins' `FilePath`.
- `java.io.File` path normalisation is treated as the identity. `File.getName` and the last element of `StringUtil.splitPath` are the last non-empty segment between '\' or '/'. `new File(parent, child)` joins with one '\'. This assumes the Windows agents Ranorex runs on.
- The `*.rxsqc` scan in the `RanorexTest` constructor is left out. It only prints a message and changes no state.
- `util/RanorexTest.java` and `util/TestRailIntegration.java` are left out. They hold process-wide getters and setters with no logic and are not used by the assembly path.
- `CmdArgument` and `BaseArgument` are not part of this model. A command-line argument is an opaque value with its text. A parameter's text is "/" + flag + ":" + name + "=" + value.
- Console and logger output is left out throughout.
- Java `null` strings are not modelled. Every string argument is a non-null `string`. References that start as null use `Option`.
- Rx.RanorexTest.SetTestRail takes a non-null integration. `setTestRail(null)` followed by `toExecutionArguments` would dereference null, and the model does not represent that state.
- Rx.RanorexTest.SetReport takes a report built by the constructor (`Report.Valid`). It does not accept the `null` that `setRxReport(null)` would store.
- Parameter.NewParameter and Report.NewReport model the constructors as functions that return the object as a value, not as in-place field assignment.
- `BaseArgument.trim()`, which trims the flag, name and value of a `RanorexParameter` in place (`RanorexRunnerBuilder.java:240` calls it before `addGlobalParameter`), is not modelled: `BaseArgument` is not part of this model. The parameter is a value, and `Rx.RanorexTest.AddGlobalParameter` stores whatever value it is given, trimmed or not.
- Parameter.IsValidFlag: its own contract states one direction of the whitelist check; the exact condition is Parameter.IsValidFlagPadding, kept as a lemma so the many callers of the flag check do not carry it.
- Rx.MaskedTokens: its own contract bounds the result and says every entry is masked; that it keeps exactly the masked entries of the list is Rx.MaskedTokensMembers, kept as a lemma so the list lemmas that unfold the filter stay small.
