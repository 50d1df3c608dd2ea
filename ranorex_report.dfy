/**
 * RanorexReport: where the Ranorex report (and its compressed copy) is written, and the
 * runner arguments naming those files. A report is fixed once constructed.
 */
module Report {
  import opened Wrappers
  import opened StringUtil
  import opened FileUtil

  /** The extension of a compressed report. */
  const ZippedReportExtension: string := "rxzlog"

  /** The report name used when none is given; Ranorex expands the placeholders. */
  const DefaultReportName: string := "%S_%Y_%M%D_%T"

  datatype RanorexReport = RanorexReport(
    directory: string,
    name: string,
    extension: string,
    junit: bool,
    compressed: bool,
    compressedDirectory: Option<string>,  // null unless compressed
    compressedName: Option<string>)       // null unless compressed

  /** The compressed-report fields are set exactly when compression is on. */
  predicate Valid(report: RanorexReport) {
    report.compressed <==> report.compressedDirectory.Some? && report.compressedName.Some?
  }

  /** A report directory: the working directory when none is given, otherwise resolved against it. */
  function ResolveDirectory(workingDirectory: string, directory: string): (r: Result<string>)
    ensures IsBlank(directory) ==> r == Ok(workingDirectory)
    ensures !IsBlank(directory) ==> r == GetAbsoluteReportDirectory(workingDirectory, directory)
    ensures r.Ok? ==> StartsWith(r.value, workingDirectory) || (r.value == directory && IsAbsolutePath(directory) == Ok(true))
    ensures r.Ok? && IsAbsolutePath(workingDirectory) == Ok(true) ==> IsAbsolutePath(r.value) == Ok(true)
  {
    if !IsBlank(directory) then
      var resolved := GetAbsoluteReportDirectory(workingDirectory, directory);
      if resolved.Ok? && IsAbsolutePath(workingDirectory) == Ok(true) then
        ResolvedReportDirectoryIsAbsolute(workingDirectory, directory);
        resolved
      else
        resolved
    else
      Ok(workingDirectory)
  }

  /** A report name: its extension stripped when it has one, kept as given otherwise, the fallback when blank. */
  function BaseName(name: string, fallback: string): (r: string)
    ensures IsBlank(name) ==> r == fallback
    ensures !IsBlank(name) ==> StartsWith(name, r)
    ensures !IsBlank(name) ==> (r == name <==> '.' !in name[1..])
    ensures !IsBlank(name) && r != name ==> r != [] && name[|r|] == '.' && '.' !in name[|r| + 1..]
  {
    if !IsBlank(name) then
      match RemoveFileExtension(name)
      case Ok(stripped) => stripped
      case Err(_) => name
    else
      fallback
  }

  /** The constructor: resolve the directories and names; the rest is stored as given. */
  function NewReport(
    workingDirectory: string, reportDirectory: string, reportName: string, reportExtension: string,
    junit: bool, compressed: bool, compressedReportDirectory: string, compressedReportName: string
  ): (r: Result<RanorexReport>)
    ensures r.Err? <==>
      ResolveDirectory(workingDirectory, reportDirectory).Err?
      || (compressed && ResolveDirectory(workingDirectory, compressedReportDirectory).Err?)
    ensures r.Ok? ==> Valid(r.value)
    ensures r.Ok? ==>
      && r.value.directory == ResolveDirectory(workingDirectory, reportDirectory).value
      && r.value.name == BaseName(reportName, DefaultReportName)
      && r.value.extension == reportExtension && r.value.junit == junit && r.value.compressed == compressed
    ensures r.Ok? && compressed ==>
      && r.value.compressedDirectory == Some(ResolveDirectory(workingDirectory, compressedReportDirectory).value)
      && r.value.compressedName == Some(BaseName(compressedReportName, r.value.name))
  {
    var directory :- ResolveDirectory(workingDirectory, reportDirectory);
    var name := BaseName(reportName, DefaultReportName);
    if compressed then
      var zipDirectory :- ResolveDirectory(workingDirectory, compressedReportDirectory);
      Ok(RanorexReport(directory, name, reportExtension, junit, true, Some(zipDirectory), Some(BaseName(compressedReportName, name))))
    else
      Ok(RanorexReport(directory, name, reportExtension, junit, false, None, None))
  }

  /** Against an absolute working directory, every report directory is absolute. */
  lemma ReportDirectoriesAreAbsolute(
    workingDirectory: string, reportDirectory: string, reportName: string, reportExtension: string,
    junit: bool, compressed: bool, compressedReportDirectory: string, compressedReportName: string)
    requires IsAbsolutePath(workingDirectory) == Ok(true)
    requires NewReport(workingDirectory, reportDirectory, reportName, reportExtension,
                       junit, compressed, compressedReportDirectory, compressedReportName).Ok?
    ensures var report := NewReport(workingDirectory, reportDirectory, reportName, reportExtension,
                                    junit, compressed, compressedReportDirectory, compressedReportName).value;
      && IsAbsolutePath(report.directory) == Ok(true)
      && (report.compressed ==> IsAbsolutePath(report.compressedDirectory.value) == Ok(true))
  {
  }

  /** getFullReportArgument: directory, '\', name, '.', extension. */
  function FullReportArgument(report: RanorexReport): (a: string)
    ensures StartsWith(a, report.directory + [Separator])
    ensures |a| == |report.directory| + |report.name| + |report.extension| + 2
    ensures a[|report.directory| + 1..|a| - |report.extension| - 1] == report.name
    ensures a[|a| - |report.extension| - 1..] == "." + report.extension
  {
    var a := report.directory + [Separator] + report.name + "." + report.extension;
    assert a == (report.directory + [Separator]) + report.name + ("." + report.extension);
    a
  }

  /** Stripping the extension off the report argument leaves directory\name. */
  lemma FullReportArgumentWithoutExtension(report: RanorexReport)
    requires '.' !in report.extension
    ensures RemoveFileExtension(FullReportArgument(report)) == Ok(report.directory + [Separator] + report.name)
  {
    var base := report.directory + [Separator] + report.name;
    assert base + "." + report.extension == FullReportArgument(report) by {}
    RemoveFileExtensionRoundTrip(base, report.extension);
  }

  /** The report file is named name.extension. */
  lemma FullReportArgumentFile(report: RanorexReport)
    requires forall c | c in report.name + "." + report.extension :: !IsPathSeparator(c)
    ensures GetFile(FullReportArgument(report)) == Ok(report.name + "." + report.extension)
  {
    var file := report.name + "." + report.extension;
    assert file[|report.name|] == '.' by {}
    assert report.directory + [Separator] + file == FullReportArgument(report) by {}
    GetFileOfJoin(report.directory, file);
  }

  /** getFullCompressedReportArgument: compressed directory, '\', compressed name, ".rxzlog". */
  function FullCompressedReportArgument(report: RanorexReport): (r: Result<string>)
    ensures r.Ok? <==> report.compressedDirectory.Some? && report.compressedName.Some?
    ensures r.Err? ==> r.error == NullReference
    ensures r.Ok? ==> StartsWith(r.value, report.compressedDirectory.value + [Separator])
    ensures r.Ok? ==> r.value[|report.compressedDirectory.value| + 1..] == report.compressedName.value + ".rxzlog"
  {
    match (report.compressedDirectory, report.compressedName)
    case (Some(directory), Some(name)) => Ok(directory + [Separator] + name + "." + ZippedReportExtension)
    case _ => Err(NullReference)
  }

  /**
   * A constructed report with compression on always yields its compressed argument: the file
   * name.rxzlog, which stripped of its extension leaves compressed directory\name.
   */
  lemma CompressedArgumentAvailable(report: RanorexReport)
    requires Valid(report) && report.compressed
    requires forall c | c in report.compressedName.value :: !IsPathSeparator(c)
    ensures FullCompressedReportArgument(report).Ok?
    ensures GetFile(FullCompressedReportArgument(report).value) == Ok(report.compressedName.value + "." + ZippedReportExtension)
    ensures RemoveFileExtension(FullCompressedReportArgument(report).value)
      == Ok(report.compressedDirectory.value + [Separator] + report.compressedName.value)
  {
    var zipped := report.(directory := report.compressedDirectory.value, name := report.compressedName.value,
                          extension := ZippedReportExtension);
    assert FullCompressedReportArgument(report).value == FullReportArgument(zipped);
    NameWithExtensionHasNoSeparator(zipped.name, "." + ZippedReportExtension);
    FullReportArgumentFile(zipped);
    FullReportArgumentWithoutExtension(zipped);
  }

  /** Appending a possibly null reference to a StringBuilder. */
  function NullableText(s: Option<string>): string {
    match s
    case Some(text) => text
    case None => "null"
  }

  const SummaryHeading: string := "\nRegular Ranorex Report\n"

  function DirectoryLine(directory: string): string {
    "\tDirectory:\t" + directory + "\n"
  }

  function NameLine(name: string): string {
    "\tName:\t\t" + name + "\n"
  }

  function ExtensionLine(extension: string): string {
    "\tExtension:\t" + extension + "\n"
  }

  function CompressedLine(compressed: bool): string {
    "\nCompressed Report:\t" + BoolText(compressed) + "\n"
  }

  function JunitLine(junit: bool): string {
    "\nJunit Report enabled: \t" + BoolText(junit) + "\n\n"
  }

  /** The block toString prints for the compressed report. */
  function CompressedSection(report: RanorexReport): string {
    DirectoryLine(NullableText(report.compressedDirectory))
    + NameLine(NullableText(report.compressedName))
    + ExtensionLine(ZippedReportExtension)
  }

  /** toString: the regular report, the compressed report only when compression is on, the JUnit flag. */
  function Summary(report: RanorexReport): string {
    SummaryHeading + DirectoryLine(report.directory) + NameLine(report.name) + ExtensionLine(report.extension)
    + CompressedLine(report.compressed)
    + (if report.compressed then CompressedSection(report) else "")
    + JunitLine(report.junit)
  }

  /**
   * The summary opens with the regular report's heading and shows its directory, name and
   * extension, the compression flag, and the JUnit flag on the last line.
   */
  lemma SummaryShowsReport(report: RanorexReport)
    ensures StartsWith(Summary(report), SummaryHeading)
    ensures Contains(Summary(report), DirectoryLine(report.directory))
    ensures Contains(Summary(report), NameLine(report.name))
    ensures Contains(Summary(report), ExtensionLine(report.extension))
    ensures Contains(Summary(report), CompressedLine(report.compressed))
    ensures EndsWith(Summary(report), JunitLine(report.junit))
  {
    SummaryLayout(SummaryHeading, DirectoryLine(report.directory), NameLine(report.name),
      ExtensionLine(report.extension), CompressedLine(report.compressed),
      if report.compressed then CompressedSection(report) else "", JunitLine(report.junit));
  }

  /** Where each of seven consecutive parts of a text sits. */
  lemma SummaryLayout(a: string, b: string, c: string, d: string, e: string, f: string, g: string)
    ensures var s := a + b + c + d + e + f + g;
      && StartsWith(s, a) && Contains(s, b) && Contains(s, c) && Contains(s, d)
      && Contains(s, e) && Contains(s, f) && EndsWith(s, g)
  {
    var ab, abc := a + b, a + b + c;
    var abcd, abcde := abc + d, abc + d + e;
    var abcdef := abcde + f;
    ContainsAtEnd(a, b);
    ContainsAtEnd(ab, c);
    ContainsAtEnd(abc, d);
    ContainsAtEnd(abcd, e);
    ContainsAtEnd(abcde, f);
    ContainsExtends(ab, c, b);
    ContainsExtends(abc, d, b);
    ContainsExtends(abc, d, c);
    ContainsExtends(abcd, e, b);
    ContainsExtends(abcd, e, c);
    ContainsExtends(abcd, e, d);
    ContainsExtends(abcde, f, b);
    ContainsExtends(abcde, f, c);
    ContainsExtends(abcde, f, d);
    ContainsExtends(abcde, f, e);
    ContainsExtends(abcdef, g, b);
    ContainsExtends(abcdef, g, c);
    ContainsExtends(abcdef, g, d);
    ContainsExtends(abcdef, g, e);
    ContainsExtends(abcdef, g, f);
    assert (abcdef + g)[..|a|] == a;
  }

  /** With compression on, the summary shows the compressed directory and name. */
  lemma {:induction false} SummaryShowsCompressedReport(report: RanorexReport)
    requires report.compressed
    ensures Contains(Summary(report), CompressedSection(report))
  {
    SummaryLayout(SummaryHeading, DirectoryLine(report.directory), NameLine(report.name),
      ExtensionLine(report.extension), CompressedLine(report.compressed),
      CompressedSection(report), JunitLine(report.junit));
  }

  /** With compression off, whatever the compressed fields hold does not reach the summary. */
  lemma SummaryIgnoresCompressedFields(report: RanorexReport, directory: Option<string>, name: Option<string>)
    requires !report.compressed
    ensures Summary(report) == Summary(report.(compressedDirectory := directory, compressedName := name))
  {
  }

  /** A plain relative directory, not starting with '.', '\\' or a drive, is placed under the working directory. */
  lemma RelativeReportDirectory(workingDirectory: string, directory: string)
    requires |directory| >= 2 && !IsSpace(directory[0]) && directory[0] != '.' && directory[0] != '\\'
    requires directory[1] != ':' && '/' !in directory
    ensures ResolveDirectory(workingDirectory, directory) == Ok(workingDirectory + directory)
  {
    assert !IsBlank(directory);
    assert IsAbsolutePath(directory) == Ok(false);
    assert ToWindowsSeparators(directory) == directory;
  }

  /** The report the plugin's unit test constructs: a relative directory under the workspace, a name without extension. */
  lemma ConstructorExample(reportExtension: string, compressedReportDirectory: string, compressedReportName: string)
    ensures var r := NewReport("C:\\temp\\", "This Report Dir", "This report Name", reportExtension, false, false,
                               compressedReportDirectory, compressedReportName);
      r.Ok? && r.value.directory == "C:\\temp\\This Report Dir" && r.value.name == "This report Name"
  {
    ExampleDirectory();
    ExampleNameIsPlain();
    PlainNameKept("This report Name", DefaultReportName);
  }

  lemma ExampleNameIsPlain()
    ensures var name := "This report Name"; name != [] && !IsSpace(name[0]) && '.' !in name[1..]
  {
  }

  lemma ExampleDirectory()
    ensures ResolveDirectory("C:\\temp\\", "This Report Dir") == Ok("C:\\temp\\This Report Dir")
  {
    ExampleDirectoryIsRelative();
    RelativeReportDirectory("C:\\temp\\", "This Report Dir");
  }

  lemma ExampleDirectoryIsRelative()
    ensures var directory := "This Report Dir";
      && |directory| >= 2 && !IsSpace(directory[0]) && directory[0] != '.' && directory[0] != '\\'
      && directory[1] != ':' && '/' !in directory
    ensures "C:\\temp\\" + "This Report Dir" == "C:\\temp\\This Report Dir"
  {
  }

  /** A name without a dot after its first character is kept as given. */
  lemma PlainNameKept(name: string, fallback: string)
    requires name != [] && !IsSpace(name[0]) && '.' !in name[1..]
    ensures BaseName(name, fallback) == name
  {
    assert !IsBlank(name);
  }
}
