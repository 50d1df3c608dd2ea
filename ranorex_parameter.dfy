/**
 * RanorexParameter: a global test parameter given as "[/]flag:name=value". Only the flags
 * "pa" and "param" are allowed; a token without ':' gets the flag "pa".
 */
module Parameter {
  import opened Wrappers
  import opened StringUtil

  /** The only flags a global parameter may carry, compared after trimming. */
  const WhitelistParamFlags: seq<string> := ["pa", "param"]

  /** The flag used when none can be extracted from the token. */
  const DefaultFlag: string := "pa"

  /** Flags of the Ranorex runner that a global parameter must not smuggle in. */
  const ReservedFlags: seq<string> := [
    "listconfigparams", "lcp", "reportfile", "rf", "zipreport", "zr", "junit", "ju",
    "listglobalparams", "lp", "listtestcaseparams", "ltcpa", "runconfig", "rc",
    "testrail", "truser", "trpass", "trrunid", "trrunname"]

  /** The three parts kept by a constructed parameter, untrimmed. */
  datatype RanorexParameter = RanorexParameter(flag: string, name: string, value: string)

  /** isValidFlag: the trimmed flag is on the whitelist. */
  function IsValidFlag(parameterFlag: string): (b: bool)
    ensures parameterFlag in WhitelistParamFlags ==> b
    ensures b ==> !IsBlank(parameterFlag)
    ensures b ==> ':' !in parameterFlag && '=' !in parameterFlag && '/' !in parameterFlag
  {
    WhitelistedAfterTrim(parameterFlag);
    Trim(parameterFlag) in WhitelistParamFlags
  }

  /** What a flag whose trimmed form is whitelisted looks like. */
  lemma WhitelistedAfterTrim(parameterFlag: string)
    ensures parameterFlag in WhitelistParamFlags ==> Trim(parameterFlag) in WhitelistParamFlags
    ensures Trim(parameterFlag) in WhitelistParamFlags ==>
      && !IsBlank(parameterFlag)
      && ':' !in parameterFlag && '=' !in parameterFlag && '/' !in parameterFlag
  {
    var trimmed := Trim(parameterFlag);
    WhitelistedFlagCharacters(trimmed);
    WhitelistedFlagCharacters(parameterFlag);
  }

  /** The whitelisted words consist of letters only. */
  lemma WhitelistedFlagCharacters(flag: string)
    ensures flag in WhitelistParamFlags ==> forall c | c in flag :: 'a' <= c <= 'z'
  {
    if flag in WhitelistParamFlags {
      assert flag == "pa" || flag == "param";
    }
  }

  /** A flag without blanks is valid exactly when it is one of the whitelisted words. */
  lemma IsValidFlagWithoutBlanks(parameterFlag: string)
    requires forall i | 0 <= i < |parameterFlag| :: !IsSpace(parameterFlag[i])
    ensures IsValidFlag(parameterFlag) <==> parameterFlag == "pa" || parameterFlag == "param"
  {
  }

  /** A flag is valid exactly when it is a whitelisted word padded with blanks on either side. */
  lemma IsValidFlagPadding(parameterFlag: string)
    ensures IsValidFlag(parameterFlag) <==> exists lo, hi | 0 <= lo <= hi <= |parameterFlag| ::
      IsBlank(parameterFlag[..lo]) && IsBlank(parameterFlag[hi..]) && parameterFlag[lo..hi] in WhitelistParamFlags
  {
    if exists lo, hi | 0 <= lo <= hi <= |parameterFlag| ::
      IsBlank(parameterFlag[..lo]) && IsBlank(parameterFlag[hi..]) && parameterFlag[lo..hi] in WhitelistParamFlags
    {
      var lo, hi :| 0 <= lo <= hi <= |parameterFlag| &&
        IsBlank(parameterFlag[..lo]) && IsBlank(parameterFlag[hi..]) && parameterFlag[lo..hi] in WhitelistParamFlags;
      var word := parameterFlag[lo..hi];
      WhitelistedFlagCharacters(word);
      assert word[0] in word && word[|word| - 1] in word;
      assert parameterFlag[lo] == word[0] && parameterFlag[hi - 1] == word[|word| - 1];
      TrimPadded(parameterFlag, lo, hi);
    }
  }

  /** A blank-free word with blanks around it is valid exactly when the word is "pa" or "param". */
  lemma IsValidFlagPadded(before: string, word: string, after: string)
    requires IsBlank(before) && IsBlank(after)
    requires forall i | 0 <= i < |word| :: !IsSpace(word[i])
    ensures IsValidFlag(before + word + after) <==> word == "pa" || word == "param"
  {
    var flag := before + word + after;
    var lo, hi := |before|, |before| + |word|;
    assert flag[..lo] == before && flag[lo..hi] == word && flag[hi..] == after;
    if word != [] {
      assert flag[lo] == word[0] && flag[hi - 1] == word[|word| - 1];
    }
    TrimPadded(flag, lo, hi);
  }

  /** Both whitelisted words are valid flags. */
  lemma WhitelistedFlagsAreValid()
    ensures forall f | f in WhitelistParamFlags :: IsValidFlag(f)
  {
    forall f | f in WhitelistParamFlags
      ensures IsValidFlag(f)
    {
      assert forall i | 0 <= i < |f| :: 'a' <= f[i] <= 'z';
      IsValidFlagWithoutBlanks(f);
    }
  }

  /** A word that starts and ends with a visible character is a valid flag exactly when it is whitelisted. */
  lemma VisibleEndsFlag(word: string)
    requires word != [] && !IsSpace(word[0]) && !IsSpace(word[|word| - 1])
    ensures IsValidFlag(word) <==> word in WhitelistParamFlags
  {
    assert word[..0] == [] && word[|word|..] == [] && word[0..|word|] == word;
    TrimPadded(word, 0, |word|);
  }

  /** None of the runner's own flags passes the whitelist. */
  lemma ReservedFlagsAreRejected()
    ensures forall f | f in ReservedFlags :: !IsValidFlag(f)
  {
    forall f | f in ReservedFlags
      ensures !IsValidFlag(f)
    {
      assert f != [] && !IsSpace(f[0]) && !IsSpace(f[|f| - 1]) && f !in WhitelistParamFlags;
      VisibleEndsFlag(f);
    }
  }

  /** containsValidNameValuePair: the first '=' of the whole token is neither its first nor its last character. */
  function ContainsValidNameValuePair(parameterString: string): bool {
    var equalPosition := IndexOf(parameterString, '=');
    0 < equalPosition < |parameterString| - 1
  }

  /** A token holds a valid name/value pair exactly when some '=' with none before it has text on both sides. */
  lemma ValidNameValuePair(parameterString: string)
    ensures ContainsValidNameValuePair(parameterString) <==>
      exists k | 0 < k < |parameterString| - 1 :: parameterString[k] == '=' && '=' !in parameterString[..k]
  {
    var equalPosition := IndexOf(parameterString, '=');
    forall k | 0 <= k < |parameterString| && parameterString[k] == '=' && '=' !in parameterString[..k]
      ensures k == equalPosition
    {
      IndexOfIs(parameterString, '=', k);
    }
    if 0 < equalPosition < |parameterString| - 1 {
      assert parameterString[equalPosition] == '=' && '=' !in parameterString[..equalPosition];
    }
  }

  /** tryExtractFlag: the text before the first ':', which must not be the first character, without a leading '/'. */
  function TryExtractFlag(parameterString: string): (r: Result<string>)
    ensures var k := IndexOf(parameterString, ':');
      k <= 0 ==> r == Err(InvalidParameter("Parameter '" + parameterString + "' does not contain a separator!"))
    ensures r.Ok? ==>
      var k := IndexOf(parameterString, ':');
      k > 0 && r.value == if parameterString[0] == '/' then parameterString[1..k] else parameterString[..k]
  {
    var separatorPosition := IndexOf(parameterString, ':');
    if separatorPosition > 0 then
      assert parameterString[..separatorPosition][1..] == parameterString[1..separatorPosition];
      RemoveHeadingSlash(parameterString[..separatorPosition])
    else Err(InvalidParameter("Parameter '" + parameterString + "' does not contain a separator!"))
  }

  /**
   * Extraction fails on a blank text before the first ':' (the empty-argument error) and on
   * nothing else once a ':' past the first character exists.
   */
  lemma ExtractFlagBlankPrefix(parameterString: string)
    ensures var k := IndexOf(parameterString, ':');
      k > 0 ==> (TryExtractFlag(parameterString).Err? <==> IsBlank(parameterString[..k]))
    ensures var k := IndexOf(parameterString, ':');
      k > 0 && IsBlank(parameterString[..k]) ==>
        TryExtractFlag(parameterString) == Err(InvalidParameter("Argument is empty"))
  {
  }

  /** The flag isValid judges: the extracted one, or "" when extraction fails. */
  function ExtractedFlagOrEmpty(parameterString: string): string {
    match TryExtractFlag(parameterString)
    case Ok(flag) => flag
    case Err(_) => ""
  }

  /** The flag trySplitArgument keeps: the extracted one, or the default when extraction fails. */
  function ExtractedFlagOrDefault(parameterString: string): string {
    match TryExtractFlag(parameterString)
    case Ok(flag) => flag
    case Err(_) => DefaultFlag
  }

  /** isValid: a valid name/value pair and a flag that is whitelisted, blank or missing. */
  function IsValid(parameterString: string): (b: bool)
    ensures b <==> (
      && ContainsValidNameValuePair(parameterString)
      && match TryExtractFlag(parameterString)
         case Ok(flag) => IsBlank(flag) || IsValidFlag(flag)
         case Err(_) => true)
    ensures b ==> ContainsValidNameValuePair(parameterString)
    ensures b ==> !IsBlank(parameterString)
    ensures ContainsValidNameValuePair(parameterString) && TryExtractFlag(parameterString).Err? ==> b
  {
    var flag := ExtractedFlagOrEmpty(parameterString);
    var isValidNameValuePair := ContainsValidNameValuePair(parameterString);
    (IsValidFlag(flag) && isValidNameValuePair) || (IsBlank(flag) && isValidNameValuePair)
  }

  /**
   * A token "/flag:rest" with a visible, ':'-free flag is valid exactly when its name/value pair
   * is valid and the flag passes the whitelist: "/x:a=b" is refused, "/ pa :a=b" accepted.
   */
  lemma FlaggedTokenValidity(flag: string, rest: string)
    requires ':' !in flag && !IsBlank(flag)
    ensures IsValid("/" + flag + ":" + rest) <==>
      ContainsValidNameValuePair("/" + flag + ":" + rest) && IsValidFlag(flag)
  {
    var token := "/" + flag + ":" + rest;
    var k := |flag| + 1;
    assert token[..k] == "/" + flag;
    assert token[k] == ':';
    IndexOfIs(token, ':', k);
    assert token[..k][1..] == flag;
    assert !IsBlank(token[..k]) by {
      var i :| 0 <= i < |flag| && !IsSpace(flag[i]);
      assert token[..k][i + 1] == flag[i];
    }
    assert TryExtractFlag(token) == Ok(flag);
  }

  /**
   * trySplitArgument: flag, the text between the first ':' (or the start) and the first '=',
   * and the text after the first '='. The substring call would throw if the first ':' came after
   * the first '='; a whitelisted flag never contains '=', so that cannot happen.
   */
  function TrySplitArgument(parameterString: string): (r: Result<RanorexParameter>)
    ensures IsBlank(parameterString) ==> r == Err(InvalidParameter("Cannot split empty string"))
    ensures !IsBlank(parameterString) && r.Err? ==>
      r.error == InvalidParameter("Parameter '" + parameterString + "' is not valid")
    ensures r.Ok? ==> IndexOf(parameterString, ':') < IndexOf(parameterString, '=')
    ensures r.Ok? ==> r.value.flag == ExtractedFlagOrDefault(parameterString)
    ensures r.Ok? ==> r.value.name == parameterString[IndexOf(parameterString, ':') + 1..IndexOf(parameterString, '=')]
    ensures r.Ok? ==> r.value.value == parameterString[IndexOf(parameterString, '=') + 1..]
  {
    if IsBlank(parameterString) then Err(InvalidParameter("Cannot split empty string"))
    else
      var flag := ExtractedFlagOrDefault(parameterString);
      if ContainsValidNameValuePair(parameterString) && IsValidFlag(flag) then
        SeparatorBeforeEquals(parameterString);
        SplitAt(parameterString, flag)
      else
        Err(InvalidParameter("Parameter '" + parameterString + "' is not valid"))
  }

  /**
   * The substring calls of trySplitArgument: the name runs from after the first ':' (or the
   * start) to the first '=', the value from after the first '='. They throw when that ':' comes
   * after the '='.
   */
  function SplitAt(parameterString: string, flag: string): (r: Result<RanorexParameter>)
    ensures r.Ok? <==> IndexOf(parameterString, ':') < IndexOf(parameterString, '=')
    ensures r.Err? ==> r.error == IndexOutOfBounds
    ensures r.Ok? ==> r.value.flag == flag
    ensures r.Ok? ==> r.value.name == parameterString[IndexOf(parameterString, ':') + 1..IndexOf(parameterString, '=')]
    ensures r.Ok? ==> r.value.value == parameterString[IndexOf(parameterString, '=') + 1..]
  {
    var equalsPosition := IndexOf(parameterString, '=');
    var separatorPosition := IndexOf(parameterString, ':');
    if separatorPosition + 1 <= equalsPosition then
      var name := parameterString[separatorPosition + 1..equalsPosition];
      var value := parameterString[equalsPosition + 1..];
      Ok(RanorexParameter(flag, name, value))
    else
      Err(IndexOutOfBounds)
  }

  /** trySplitArgument succeeds exactly on a non-blank token with a valid pair and a whitelisted (or defaulted) flag. */
  lemma SplitAccepts(parameterString: string)
    ensures TrySplitArgument(parameterString).Ok? <==>
      !IsBlank(parameterString) && ContainsValidNameValuePair(parameterString)
      && IsValidFlag(ExtractedFlagOrDefault(parameterString))
  {
    if ContainsValidNameValuePair(parameterString) && IsValidFlag(ExtractedFlagOrDefault(parameterString)) {
      SeparatorBeforeEquals(parameterString);
    }
  }

  /** With a valid pair and a whitelisted flag, the first ':' (if any) lies before the first '='. */
  lemma SeparatorBeforeEquals(parameterString: string)
    requires ContainsValidNameValuePair(parameterString)
    requires IsValidFlag(ExtractedFlagOrDefault(parameterString))
    ensures IndexOf(parameterString, ':') < IndexOf(parameterString, '=')
  {
    if IndexOf(parameterString, ':') > IndexOf(parameterString, '=') {
      FlagSpanningEquals(parameterString);
    }
  }

  /** A ':' after the first '=' makes the extracted flag contain that '='. */
  lemma FlagSpanningEquals(parameterString: string)
    requires 0 < IndexOf(parameterString, '=') < IndexOf(parameterString, ':')
    ensures '=' in ExtractedFlagOrDefault(parameterString)
  {
    var sep := IndexOf(parameterString, ':');
    var eq := IndexOf(parameterString, '=');
    var prefix := parameterString[..sep];
    assert prefix[eq] == '=' && !IsSpace(prefix[eq]);
    var flag := TryExtractFlag(parameterString).value;
    if prefix == flag {
      assert '=' in flag;
    } else {
      assert flag[eq - 1] == '=';
    }
  }

  /** The parts of a split token are well formed and put the token back together. */
  lemma SplitPartsWellFormed(parameterString: string)
    requires TrySplitArgument(parameterString).Ok?
    ensures var p := TrySplitArgument(parameterString).value;
      && WellFormed(p)
      && parameterString == parameterString[..IndexOf(parameterString, ':') + 1] + p.name + "=" + p.value
  {
    SplitAccepts(parameterString);
    assert IndexOf(parameterString, '=') < |parameterString| - 1;
    SplitCut(parameterString);
  }

  /** Where a split token is cut: name and value around its first '=', after the first ':'. */
  lemma SplitCut(parameterString: string)
    requires TrySplitArgument(parameterString).Ok?
    requires IndexOf(parameterString, '=') < |parameterString| - 1
    ensures var p := TrySplitArgument(parameterString).value;
      && '=' !in p.name && p.value != []
      && parameterString == parameterString[..IndexOf(parameterString, ':') + 1] + p.name + "=" + p.value
  {
    SplitName(parameterString);
    SplitFields(parameterString);
    CutAtEquals(parameterString, IndexOf(parameterString, ':'), IndexOf(parameterString, '='));
  }

  /** Cutting a token after position sep and around its first '=' at eq. */
  lemma CutAtEquals(s: string, sep: int, eq: int)
    requires -1 <= sep < eq < |s| - 1 && s[eq] == '=' && '=' !in s[..eq]
    ensures '=' !in s[sep + 1..eq] && s[eq + 1..] != []
    ensures s == s[..sep + 1] + s[sep + 1..eq] + "=" + s[eq + 1..]
  {
    assert forall i | sep + 1 <= i < eq :: s[i] == s[..eq][i];
  }

  /** The constructor: a token isValid refuses is reported as such; otherwise it is split. */
  function NewParameter(parameterString: string): (r: Result<RanorexParameter>)
    ensures !IsValid(parameterString) ==> r == Err(InvalidParameter("'" + parameterString + "' is not a valid Parameter"))
    ensures IsValid(parameterString) ==> r == TrySplitArgument(parameterString)
  {
    if IsValid(parameterString) then TrySplitArgument(parameterString)
    else Err(InvalidParameter("'" + parameterString + "' is not a valid Parameter"))
  }

  /** BaseArgument.toString: the token a parameter is handed to the runner as. */
  function ToArgumentString(p: RanorexParameter): (s: string)
    ensures |s| == |p.flag| + |p.name| + |p.value| + 3 && s[0] == '/'
  {
    "/" + p.flag + ":" + p.name + "=" + p.value
  }

  /** What every constructed parameter satisfies. */
  predicate WellFormed(p: RanorexParameter) {
    IsValidFlag(p.flag) && '=' !in p.name && p.value != []
  }

  /**
   * The constructor accepts exactly the tokens with a valid name/value pair whose flag, or the
   * default "pa" where no flag can be extracted, is whitelisted; what it builds is well formed.
   */
  lemma {:induction false} NewParameterAccepts(parameterString: string)
    ensures NewParameter(parameterString).Ok? <==>
      ContainsValidNameValuePair(parameterString) && IsValidFlag(ExtractedFlagOrDefault(parameterString))
    ensures NewParameter(parameterString).Ok? ==> WellFormed(NewParameter(parameterString).value)
  {
    if ContainsValidNameValuePair(parameterString) && IsValidFlag(ExtractedFlagOrDefault(parameterString)) {
      assert IsValid(parameterString);
    }
    SplitAccepts(parameterString);
    if NewParameter(parameterString).Ok? {
      SplitPartsWellFormed(parameterString);
    }
  }

  /** Every accepted token passes isValid. */
  lemma {:induction false} AcceptedTokensAreValid(parameterString: string)
    requires NewParameter(parameterString).Ok?
    ensures IsValid(parameterString)
  {
  }

  /**
   * isValid is weaker than the constructor: "/:name=value" has the blank flag "" and passes
   * isValid, yet trySplitArgument keeps that flag (it was extracted) and refuses it.
   */
  lemma ValidTokenRejected(name: string, value: string)
    requires '=' !in name && value != []
    ensures IsValid("/:" + name + "=" + value)
    ensures NewParameter("/:" + name + "=" + value)
      == Err(InvalidParameter("Parameter '" + ("/:" + name + "=" + value) + "' is not valid"))
  {
    var s := "/:" + name + "=" + value;
    assert s[1] == ':' && s[..1] == "/";
    IndexOfIs(s, ':', 1);
    assert s[..2 + |name|] == "/:" + name;
    IndexOfIs(s, '=', 2 + |name|);
    assert TryExtractFlag(s) == Ok([]);
    assert !IsValidFlag([]);
  }

  /** Where the parts of a written-out parameter sit in its token. */
  lemma TokenParts(p: RanorexParameter)
    requires ':' !in p.flag && '=' !in p.flag && '=' !in p.name
    ensures var s := ToArgumentString(p);
      && IndexOf(s, ':') == |p.flag| + 1 && IndexOf(s, '=') == |p.flag| + |p.name| + 2
      && TryExtractFlag(s) == Ok(p.flag)
      && s[IndexOf(s, ':') + 1..IndexOf(s, '=')] == p.name
      && s[IndexOf(s, '=') + 1..] == p.value
  {
    TokenIndices(p);
    TokenFlag(p);
    TokenSlices(p);
  }

  /** The name and the value of a written-out parameter, cut at their positions. */
  lemma TokenSlices(p: RanorexParameter)
    ensures var s := ToArgumentString(p);
      s[|p.flag| + 1 + 1..|p.flag| + |p.name| + 2] == p.name && s[|p.flag| + |p.name| + 2 + 1..] == p.value
  {
    TokenLayout(p.flag, p.name, p.value);
  }

  /** In a written-out parameter the first ':' ends the flag and the first '=' ends the name. */
  lemma TokenIndices(p: RanorexParameter)
    requires ':' !in p.flag && '=' !in p.flag && '=' !in p.name
    ensures var s := ToArgumentString(p);
      IndexOf(s, ':') == |p.flag| + 1 && IndexOf(s, '=') == |p.flag| + |p.name| + 2
  {
    var s := ToArgumentString(p);
    TokenLayout(p.flag, p.name, p.value);
    CharNotInLayout(p.flag, p.name, ':');
    CharNotInLayout(p.flag, p.name, '=');
    IndexOfIs(s, ':', |p.flag| + 1);
    IndexOfIs(s, '=', |p.flag| + |p.name| + 2);
  }

  /** The flag extracted from a written-out parameter is the parameter's own. */
  lemma TokenFlag(p: RanorexParameter)
    requires ':' !in p.flag && '=' !in p.flag && '=' !in p.name
    ensures TryExtractFlag(ToArgumentString(p)) == Ok(p.flag)
  {
    var s := ToArgumentString(p);
    var sep := |p.flag| + 1;
    TokenIndices(p);
    TokenLayout(p.flag, p.name, p.value);
    assert !IsBlank(s[..sep]) by { assert !IsSpace(s[..sep][0]); }
  }

  /** The positions of the parts in "/flag:name=value", as plain sequence facts. */
  lemma TokenLayout(flag: string, name: string, value: string)
    ensures var s := "/" + flag + ":" + name + "=" + value;
      var sep := |flag| + 1;
      var eq := |flag| + |name| + 2;
      && |s| == eq + 1 + |value| && s[0] == '/' && s[sep] == ':' && s[eq] == '='
      && s[..sep] == "/" + flag && s[..sep][1..] == flag && s[1..sep] == flag
      && s[..eq] == "/" + flag + ":" + name
      && s[sep + 1..eq] == name && s[eq + 1..] == value
  {
    var s := "/" + flag + ":" + name + "=" + value;
    assert s == ("/" + flag + ":" + name) + ("=" + value);
    assert s == ("/" + flag) + (":" + name + "=" + value);
  }

  /** A character that is neither '/' nor ':' and occurs in neither part is missing from "/flag:name". */
  lemma CharNotInLayout(flag: string, name: string, c: char)
    requires c == ':' || c == '='
    requires c !in flag && (c == '=' ==> c !in name)
    ensures c == ':' ==> c !in "/" + flag
    ensures c == '=' ==> c !in "/" + flag + ":" + name
  {
  }

  /** A well-formed parameter survives being written out and parsed back. */
  lemma {:induction false} ParameterRoundTrip(p: RanorexParameter)
    requires WellFormed(p)
    ensures NewParameter(ToArgumentString(p)) == Ok(p)
  {
    var s := ToArgumentString(p);
    WrittenTokenIsValid(p);
    SplitAccepts(s);
    SplitOfWrittenToken(p);
  }

  /** A written-out parameter that trySplitArgument accepts is split back into its parts. */
  lemma SplitOfWrittenToken(p: RanorexParameter)
    requires ':' !in p.flag && '=' !in p.flag && '=' !in p.name
    requires TrySplitArgument(ToArgumentString(p)).Ok?
    requires ExtractedFlagOrDefault(ToArgumentString(p)) == p.flag
    ensures TrySplitArgument(ToArgumentString(p)).value == p
  {
    var s := ToArgumentString(p);
    SplitFields(s);
    SplitName(s);
    TokenParts(p);
  }

  /** The flag and the value of a split token, read off trySplitArgument's result. */
  lemma SplitFields(parameterString: string)
    requires TrySplitArgument(parameterString).Ok?
    ensures TrySplitArgument(parameterString).value.flag == ExtractedFlagOrDefault(parameterString)
    ensures TrySplitArgument(parameterString).value.value == parameterString[IndexOf(parameterString, '=') + 1..]
  {
  }

  /** The name of a split token, read off trySplitArgument's result. */
  lemma SplitName(parameterString: string)
    requires TrySplitArgument(parameterString).Ok?
    ensures TrySplitArgument(parameterString).value.name
      == parameterString[IndexOf(parameterString, ':') + 1..IndexOf(parameterString, '=')]
  {
  }

  /** The token of a well-formed parameter passes isValid, and its flag is the parameter's. */
  lemma WrittenTokenIsValid(p: RanorexParameter)
    requires WellFormed(p)
    ensures var s := ToArgumentString(p);
      && !IsBlank(s) && ContainsValidNameValuePair(s) && IsValid(s)
      && ExtractedFlagOrDefault(s) == p.flag && IsValidFlag(ExtractedFlagOrDefault(s))
  {
    var s := ToArgumentString(p);
    TokenParts(p);
    assert IndexOf(s, '=') < |s| - 1;
    assert ExtractedFlagOrEmpty(s) == p.flag;
    assert !IsSpace(s[0]);
  }

  /** A token without a ':' gets the default flag "pa". */
  lemma {:induction false} DefaultFlagWithoutSeparator(name: string, value: string)
    requires name != [] && value != [] && '=' !in name
    requires ':' !in name && ':' !in value
    ensures NewParameter(name + "=" + value) == Ok(RanorexParameter(DefaultFlag, name, value))
  {
    var s := name + "=" + value;
    assert s[|name|] == '=';
    assert s[..|name|] == name;
    IndexOfIs(s, '=', |name|);
    assert ':' !in s;
    assert s[..|name|] == name && s[|name| + 1..] == value;
    assert IsValid(s);
  }

  /** A token without '=' is never a parameter. */
  lemma {:induction false} RejectedWithoutEquals(parameterString: string)
    requires '=' !in parameterString
    ensures !IsValid(parameterString)
    ensures NewParameter(parameterString) == Err(InvalidParameter("'" + parameterString + "' is not a valid Parameter"))
  {
  }

  /** A token the plugin's unit tests construct a parameter from, with the flag "pa". */
  lemma ConstructorExampleShortFlag()
    ensures NewParameter("/pa:TestName=TestValue") == Ok(RanorexParameter("pa", "TestName", "TestValue"))
  {
    var p := RanorexParameter("pa", "TestName", "TestValue");
    assert ToArgumentString(p) == "/pa:TestName=TestValue" by {}
    ExampleIsWellFormed(p);
    ParameterRoundTrip(p);
  }

  /** The same with the flag "param". */
  lemma ConstructorExampleLongFlag()
    ensures NewParameter("/param:TestName=TestValue") == Ok(RanorexParameter("param", "TestName", "TestValue"))
  {
    var p := RanorexParameter("param", "TestName", "TestValue");
    assert ToArgumentString(p) == "/param:TestName=TestValue" by {}
    ExampleIsWellFormed(p);
    ParameterRoundTrip(p);
  }

  /** The parameters of the unit tests' examples are well formed. */
  lemma ExampleIsWellFormed(p: RanorexParameter)
    requires p.flag in WhitelistParamFlags && p.name == "TestName" && p.value == "TestValue"
    ensures WellFormed(p)
  {
    assert '=' !in p.name by {}
    WhitelistedFlagsAreValid();
  }

  /** The same without a flag: "pa" is filled in. */
  lemma ConstructorExampleWithoutFlag()
    ensures NewParameter("TestName=TestValue") == Ok(RanorexParameter("pa", "TestName", "TestValue"))
  {
    var name, value := "TestName", "TestValue";
    assert '=' !in name && ':' !in name && ':' !in value by {}
    assert name + "=" + value == "TestName=TestValue" by {}
    DefaultFlagWithoutSeparator(name, value);
  }

  /** A token the unit tests expect the constructor to refuse. */
  lemma ConstructorExampleWithoutValue()
    ensures NewParameter("/pa:TestNameTestValue")
      == Err(InvalidParameter("'" + "/pa:TestNameTestValue" + "' is not a valid Parameter"))
  {
    assert '=' !in "/pa:TestNameTestValue" by {}
    RejectedWithoutEquals("/pa:TestNameTestValue");
  }
}
