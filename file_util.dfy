/**
 * FileUtil: syntactic path handling for Windows paths (absolute-path test, combining a
 * workspace with a relative path, report directory resolution, extension stripping,
 * file names and the executable that belongs to a test suite).
 */
module FileUtil {
  import opened Wrappers
  import opened StringUtil

  /** File.separator on the Windows agents that run Ranorex tests. */
  const Separator: char := '\\'

  /** isAbsolutePath: a drive letter (second character ':') or a UNC prefix. */
  function IsAbsolutePath(value: string): (r: Result<bool>)
    ensures IsBlank(value) ==> r == Ok(false)
    ensures r.Err? <==> !IsBlank(value) && |value| < 2
    ensures r.Err? ==> r.error == IndexOutOfBounds
    ensures r == Ok(true) <==> !IsBlank(value) && |value| >= 2 && (value[1] == ':' || StartsWith(value, "\\\\"))
  {
    if !IsBlank(value) then
      // chars[1] is read without a length check
      if |value| < 2 then Err(IndexOutOfBounds)
      else Ok(value[1] == ':' || StartsWith(value, "\\\\"))
    else
      Ok(false)
  }

  lemma DriveAndUncPathsAreAbsolute(value: string)
    requires (|value| >= 2 && value[1] == ':') || StartsWith(value, "\\\\")
    ensures IsAbsolutePath(value) == Ok(true)
  {
    if value[1] == ':' {
      assert !IsSpace(value[1]);
    } else {
      assert value[..2] == "\\\\" && !IsSpace(value[0]);
    }
  }

  lemma DotRelativePathsAreNotAbsolute(value: string)
    requires |value| >= 2 && value[0] == '.' && value[1] != ':'
    ensures IsAbsolutePath(value) == Ok(false)
  {
    assert !IsSpace(value[0]);
  }

  /** String.replace("/", File.separator). */
  function ToWindowsSeparators(s: string): (r: string)
    ensures |r| == |s|
    ensures forall i | 0 <= i < |s| :: r[i] == if s[i] == '/' then Separator else s[i]
    ensures '/' !in r
    ensures '/' !in s ==> r == s
  {
    ReplaceSingleChar(s, '/', Separator);
    ReplaceAll(s, "/", [Separator])
  }

  /** The number of leading '.' characters combinePath drops: one if there is one. */
  function LeadingDot(relPath: string): nat {
    if relPath != [] && relPath[0] == '.' then 1 else 0
  }

  /**
   * combinePath: drop one leading '.', then one leading '\' when the workspace already
   * ends in '\', and append the rest with '/' turned into '\'. charAt(0) on an empty
   * relative path and charAt(-1) on an empty workspace throw.
   */
  function CombinePath(workSpace: string, relPath: string): (r: Result<string>)
    ensures relPath == [] || relPath == "." ==> r == Err(IndexOutOfBounds)
    ensures r.Err? <==>
      |relPath| <= LeadingDot(relPath) || (workSpace == [] && relPath[LeadingDot(relPath)] == '\\')
    ensures r.Err? ==> r.error == IndexOutOfBounds
    ensures r.Ok? ==>
      var rel := relPath[LeadingDot(relPath)..];
      var slash := if rel[0] == '\\' && workSpace[|workSpace| - 1] == '\\' then 1 else 0;
      r.value == workSpace + ToWindowsSeparators(rel[slash..])
    ensures r.Ok? ==> StartsWith(r.value, workSpace)
    ensures r.Ok? ==>
      var tail := r.value[|workSpace|..];
      var dropped := |relPath| - |tail|;
      && 0 <= dropped <= 2
      && tail == ToWindowsSeparators(relPath[dropped..])
  {
    if relPath == [] then Err(IndexOutOfBounds)
    else
      var dot := if relPath[0] == '.' then 1 else 0;
      var rel := relPath[dot..];
      if rel == [] then Err(IndexOutOfBounds)
      else if rel[0] == '\\' && workSpace == [] then Err(IndexOutOfBounds)
      else
        var slash := if rel[0] == '\\' && workSpace[|workSpace| - 1] == '\\' then 1 else 0;
        var rest := relPath[dot + slash..];
        assert rel[slash..] == rest;
        var r := workSpace + ToWindowsSeparators(rest);
        assert r[|workSpace|..] == ToWindowsSeparators(rest);
        Ok(r)
  }

  /** A leading ".\\" goes when the workspace does not already end in '\\'; only the '.' is dropped. */
  lemma CombinePathDotRelative(workSpace: string, rest: string)
    requires workSpace != [] && workSpace[|workSpace| - 1] != '\\' && '/' !in rest
    ensures CombinePath(workSpace, ".\\" + rest) == Ok(workSpace + "\\" + rest)
  {
    var relPath := ".\\" + rest;
    var tail := "\\" + rest;
    assert relPath[1..] == tail;
    assert '/' !in tail;
    assert ToWindowsSeparators(tail) == tail;
    assert workSpace + tail == workSpace + "\\" + rest;
  }

  /** A leading '\\' goes when the workspace already ends in one. */
  lemma CombinePathDuplicateSeparator(workSpace: string, rest: string)
    requires workSpace != [] && workSpace[|workSpace| - 1] == '\\' && '/' !in rest
    ensures CombinePath(workSpace, "\\" + rest) == Ok(workSpace + rest)
    ensures CombinePath(workSpace, ".\\" + rest) == Ok(workSpace + rest)
  {
    assert ("\\" + rest)[1..] == rest;
    assert (".\\" + rest)[1..] == "\\" + rest;
  }

  /** A combination the plugin's unit tests pin down: the '.' goes, the '\\' stays. */
  lemma CombinePathExample()
    ensures CombinePath("C:\\Temp", ".\\bin\\Debug\\") == Ok("C:\\Temp\\bin\\Debug\\")
  {
    var rest := "bin\\Debug\\";
    assert '/' !in rest by {}
    assert ".\\" + rest == ".\\bin\\Debug\\" by {}
    assert "C:\\Temp" + "\\" + rest == "C:\\Temp\\bin\\Debug\\" by {}
    CombinePathDotRelative("C:\\Temp", rest);
  }

  /** The same combination against a workspace that already ends in '\\'. */
  lemma CombinePathExampleTrailingSeparator()
    ensures CombinePath("C:\\Temp\\", "\\bin\\Debug\\") == Ok("C:\\Temp\\bin\\Debug\\")
  {
    var rest := "bin\\Debug\\";
    assert '/' !in rest by {}
    assert "\\" + rest == "\\bin\\Debug\\" by {}
    assert "C:\\Temp\\" + rest == "C:\\Temp\\bin\\Debug\\" by {}
    CombinePathDuplicateSeparator("C:\\Temp\\", rest);
  }

  /** getAbsoluteReportDirectory: an absolute directory is kept, a relative one is combined. */
  function GetAbsoluteReportDirectory(workSpace: string, reportDirectory: string): (r: Result<string>)
    ensures IsAbsolutePath(reportDirectory) == Ok(true) ==> r == Ok(reportDirectory)
    ensures IsAbsolutePath(reportDirectory) == Ok(false) ==> r == CombinePath(workSpace, reportDirectory)
    ensures IsAbsolutePath(reportDirectory).Err? ==> r.Err?
  {
    var absolute :- IsAbsolutePath(reportDirectory);
    if !absolute then CombinePath(workSpace, reportDirectory) else Ok(reportDirectory)
  }

  /** Resolving against an absolute workspace always yields an absolute directory. */
  lemma ResolvedReportDirectoryIsAbsolute(workSpace: string, reportDirectory: string)
    requires IsAbsolutePath(workSpace) == Ok(true)
    requires GetAbsoluteReportDirectory(workSpace, reportDirectory).Ok?
    ensures IsAbsolutePath(GetAbsoluteReportDirectory(workSpace, reportDirectory).value) == Ok(true)
  {
    if IsAbsolutePath(reportDirectory) == Ok(false) {
      AbsolutePrefix(workSpace, GetAbsoluteReportDirectory(workSpace, reportDirectory).value);
    }
  }

  /** A path that starts with an absolute path is absolute. */
  lemma AbsolutePrefix(prefix: string, path: string)
    requires IsAbsolutePath(prefix) == Ok(true) && StartsWith(path, prefix)
    ensures IsAbsolutePath(path) == Ok(true)
  {
    assert path[..|prefix|] == prefix;
    assert path[1] == prefix[1];
    var i :| 0 <= i < |prefix| && !IsSpace(prefix[i]);
    assert path[i] == prefix[i];
    if StartsWith(prefix, "\\\\") {
      assert path[..2] == prefix[..2];
    }
  }

  /** removeFileExtension: the text before the last '.', which must not be the first character. */
  function RemoveFileExtension(fileName: string): (r: Result<string>)
    ensures IsBlank(fileName) ==> r == Err(InvalidParameter("Filename cannot be null or empty"))
    ensures !IsBlank(fileName) && r.Err? ==> r.error == InvalidParameter("Filename does not have an extension")
    ensures !IsBlank(fileName) ==> (r.Ok? <==> '.' in fileName[1..])
    ensures r.Ok? ==>
      && r.value != [] && |r.value| < |fileName|
      && fileName[..|r.value|] == r.value && fileName[|r.value|] == '.'
      && '.' !in fileName[|r.value| + 1..]
  {
    if IsBlank(fileName) then Err(InvalidParameter("Filename cannot be null or empty"))
    else
      var position := LastIndexOf(fileName, '.');
      if position > 0 then Ok(fileName[..position])
      else Err(InvalidParameter("Filename does not have an extension"))
  }

  /** Stripping the extension off "base.ext" gives back base. */
  lemma RemoveFileExtensionRoundTrip(base: string, extension: string)
    requires base != [] && '.' !in extension
    ensures RemoveFileExtension(base + "." + extension) == Ok(base)
  {
    var s := base + "." + extension;
    assert s[|base|] == '.' && !IsSpace(s[|base|]);
    assert s[|base| + 1..] == extension;
    assert s[..|base|] == base;
    LastIndexOfIs(s, '.', |base|);
  }

  /** A name whose only '.' (if any) is its first character has no extension to strip. */
  lemma RemoveFileExtensionWithoutDot(fileName: string)
    requires !IsBlank(fileName) && '.' !in fileName[1..]
    ensures RemoveFileExtension(fileName) == Err(InvalidParameter("Filename does not have an extension"))
  {
  }

  /** getFile: the file name of a path, refusing blank input. */
  function GetFile(fullPath: string): (r: Result<string>)
    ensures r.Err? <==> IsBlank(fullPath)
    ensures r.Err? ==> r.error == InvalidParameter("Path is not valid")
    ensures r.Ok? ==> forall c | c in r.value :: !IsPathSeparator(c)
    ensures r.Ok? ==> (r.value == [] <==> forall i | 0 <= i < |fullPath| :: IsPathSeparator(fullPath[i]))
    ensures r.Ok? ==> r.value == LastPathSegment(fullPath)
  {
    if !IsBlank(fullPath) then Ok(LastPathSegment(fullPath))
    else Err(InvalidParameter("Path is not valid"))
  }

  lemma GetFileOfJoin(directory: string, name: string)
    requires name != [] && forall c | c in name :: !IsPathSeparator(c)
    ensures GetFile(directory + [Separator] + name) == Ok(name)
  {
    var p := directory + [Separator] + name;
    assert p[|directory|] == Separator && !IsSpace(p[|directory|]);
    LastPathSegmentOfJoin(directory, Separator, name);
  }

  /** If pattern's first character is missing from a, a + b contains pattern exactly when b does. */
  lemma {:induction false} ContainsSkipping(a: string, b: string, pattern: string)
    requires pattern != [] && pattern[0] !in a
    ensures Contains(a + b, pattern) <==> Contains(b, pattern)
  {
    if a != [] {
      assert (a + b)[0] != pattern[0];
      assert (a + b)[1..] == a[1..] + b;
      ContainsSkipping(a[1..], b, pattern);
    } else {
      assert a + b == b;
    }
  }

  /** getExecutableFromTestSuite: ".rxtst" becomes ".exe", ".exe" is kept, anything else is refused. */
  function GetExecutableFromTestSuite(testSuiteFile: string): (r: Result<string>)
    ensures r.Ok? <==> Contains(testSuiteFile, ".rxtst") || Contains(testSuiteFile, ".exe")
    ensures r.Err? ==> r.error == InvalidParameter("Input '" + testSuiteFile + "' is not a valid Test Suite File")
    ensures r.Ok? ==> r.value != [] && forall c | c in r.value :: !IsPathSeparator(c)
    ensures r.Ok? && Contains(testSuiteFile, ".rxtst") ==>
      r.value == LastPathSegment(ReplaceAll(testSuiteFile, ".rxtst", ".exe"))
    ensures r.Ok? && !Contains(testSuiteFile, ".rxtst") ==> r.value == LastPathSegment(testSuiteFile)
  {
    var executableFile :=
      if Contains(testSuiteFile, ".rxtst") then Ok(ReplaceAll(testSuiteFile, ".rxtst", ".exe"))
      else if Contains(testSuiteFile, ".exe") then Ok(testSuiteFile)
      else Err(InvalidParameter("Input '" + testSuiteFile + "' is not a valid Test Suite File"));
    if executableFile.Err? then Err(executableFile.error)
    else
      ExecutableNotOnlySeparators(testSuiteFile);
      Ok(LastPathSegment(executableFile.value))
  }

  /** Neither rewriting step can leave a path made only of separators. */
  lemma ExecutableNotOnlySeparators(testSuiteFile: string)
    ensures Contains(testSuiteFile, ".rxtst") ==>
      exists i | 0 <= i < |ReplaceAll(testSuiteFile, ".rxtst", ".exe")| ::
        !IsPathSeparator(ReplaceAll(testSuiteFile, ".rxtst", ".exe")[i])
    ensures Contains(testSuiteFile, ".exe") ==>
      exists i | 0 <= i < |testSuiteFile| :: !IsPathSeparator(testSuiteFile[i])
  {
    if Contains(testSuiteFile, ".rxtst") {
      ReplacedHasDot(testSuiteFile);
    }
    if Contains(testSuiteFile, ".exe") {
      ContainedHasDot(testSuiteFile, ".exe");
    }
  }

  lemma {:induction false} ContainedHasDot(s: string, pattern: string)
    requires pattern != [] && pattern[0] == '.' && Contains(s, pattern)
    ensures exists i | 0 <= i < |s| :: s[i] == '.'
  {
    if StartsWith(s, pattern) {
      assert s[0] == '.';
    } else {
      ContainedHasDot(s[1..], pattern);
      var i :| 0 <= i < |s[1..]| && s[1..][i] == '.';
      assert s[i + 1] == '.';
    }
  }

  lemma {:induction false} ReplacedHasDot(s: string)
    requires Contains(s, ".rxtst")
    ensures exists i | 0 <= i < |ReplaceAll(s, ".rxtst", ".exe")| :: ReplaceAll(s, ".rxtst", ".exe")[i] == '.'
  {
    var r := ReplaceAll(s, ".rxtst", ".exe");
    if StartsWith(s, ".rxtst") {
      assert r[0] == '.';
    } else {
      ReplacedHasDot(s[1..]);
      var t := ReplaceAll(s[1..], ".rxtst", ".exe");
      var i :| 0 <= i < |t| && t[i] == '.';
      assert r == [s[0]] + t;
      assert r[i + 1] == '.';
    }
  }

  /** A path without '.' followed by ".rxtst" or ".exe": both name the same executable. */
  lemma ExecutableOfDotFreePath(p: string)
    requires '.' !in p
    ensures GetExecutableFromTestSuite(p + ".rxtst") == Ok(LastPathSegment(p + ".exe"))
    ensures GetExecutableFromTestSuite(p + ".exe") == Ok(LastPathSegment(p + ".exe"))
  {
    ContainsInfix(p, ".rxtst", "");
    assert p + ".rxtst" + "" == p + ".rxtst";
    assert '.' !in ".rxtst"[1..];
    NotContainsWithoutHead(p, ".rxtst");
    ReplaceAllAtEnd(p, ".rxtst", ".exe");
    ContainsSkipping(p, ".exe", ".rxtst");
    assert !Contains(".exe", ".rxtst");
    ContainsInfix(p, ".exe", "");
    assert p + ".exe" + "" == p + ".exe";
  }

  lemma NameWithExtensionHasNoSeparator(name: string, extension: string)
    requires forall c | c in name :: !IsPathSeparator(c)
    requires forall c | c in extension :: !IsPathSeparator(c)
    ensures forall c | c in name + extension :: !IsPathSeparator(c)
  {
    forall i | 0 <= i < |name + extension|
      ensures !IsPathSeparator((name + extension)[i])
    {
      if i < |name| {
        assert (name + extension)[i] == name[i];
      } else {
        assert (name + extension)[i] == extension[i - |name|];
      }
    }
  }

  /** A suite "name.rxtst" runs "name.exe"; an executable "name.exe" is kept. */
  lemma ExecutableOfTestSuite(name: string)
    requires '.' !in name && name != []
    requires forall c | c in name :: !IsPathSeparator(c)
    ensures GetExecutableFromTestSuite(name + ".rxtst") == Ok(name + ".exe")
    ensures GetExecutableFromTestSuite(name + ".exe") == Ok(name + ".exe")
  {
    NameWithExtensionHasNoSeparator(name, ".exe");
    LastPathSegmentOfJoin([], Separator, name + ".exe");
    ExecutableOfDotFreePath(name);
  }

  /** A suite "dir\\name.rxtst" runs "name.exe"; an executable "dir\\name.exe" is kept by name. */
  lemma ExecutableOfTestSuiteInDirectory(directory: string, name: string)
    requires '.' !in directory && '.' !in name && name != []
    requires forall c | c in name :: !IsPathSeparator(c)
    ensures GetExecutableFromTestSuite(directory + [Separator] + name + ".rxtst") == Ok(name + ".exe")
    ensures GetExecutableFromTestSuite(directory + [Separator] + name + ".exe") == Ok(name + ".exe")
  {
    var exe := name + ".exe";
    NameWithExtensionHasNoSeparator(name, ".exe");
    LastPathSegmentOfJoin(directory, Separator, exe);
    var p := directory + [Separator] + name;
    assert '.' !in p by {}
    assert p + ".exe" == directory + [Separator] + exe by {}
    ExecutableOfDotFreePath(p);
  }

  /**
   * A suite "dir\\name.rxtst" runs "name.exe" whatever the directory holds, as long as the
   * name itself does not contain ".rxtst"; dots elsewhere in the name are kept.
   */
  lemma ExecutableOfSuiteInAnyDirectory(directory: string, name: string)
    requires name != [] && !Contains(name, ".rxtst")
    requires forall c | c in name :: !IsPathSeparator(c)
    ensures GetExecutableFromTestSuite(directory + [Separator] + name + ".rxtst") == Ok(name + ".exe")
  {
    var path := directory + [Separator] + name + ".rxtst";
    assert path == directory + [Separator] + (name + ".rxtst");
    ContainsInfix(directory + [Separator] + name, ".rxtst", "");
    assert directory + [Separator] + name + ".rxtst" + "" == path;
    assert Separator !in ".rxtst" && '.' !in ".rxtst"[1..] by {}
    ReplaceAllSplit(directory, Separator, name + ".rxtst", ".rxtst", ".exe");
    ReplaceAllAtEnd(name, ".rxtst", ".exe");
    var replaced := ReplaceAll(directory, ".rxtst", ".exe");
    assert ReplaceAll(path, ".rxtst", ".exe") == replaced + [Separator] + (name + ".exe");
    NameWithExtensionHasNoSeparator(name, ".exe");
    LastPathSegmentOfJoin(replaced, Separator, name + ".exe");
  }
}
