/**
 * The java.lang.String operations and the StringUtil helpers the plugin relies on.
 * StringUtil's own source is not part of this model: isNullOrSpace, removeHeadingSlash
 * and splitPath are defined here by the behaviour their unit tests fix.
 */
module StringUtil {
  import opened Wrappers

  /** The characters java.lang.String.trim removes: every char up to U+0020. */
  predicate IsSpace(c: char) {
    c <= ' '
  }

  /** StringUtil.isNullOrSpace on a non-null string: empty or whitespace only. */
  predicate IsBlank(s: string) {
    forall i | 0 <= i < |s| :: IsSpace(s[i])
  }

  /** The empty and the all-space string are blank; words are not. */
  lemma BlankExamples()
    ensures IsBlank("") && IsBlank(" ")
    ensures !IsBlank("Test") && !IsBlank("Banana") && !IsBlank("123")
  {
    assert "Test"[0] == 'T' && "Banana"[0] == 'B' && "123"[0] == '1';
  }

  /** The index of the first non-space character at or after i, or |s|. */
  function TrimStartIndex(s: string, i: nat): (k: nat)
    requires i <= |s|
    ensures i <= k <= |s|
    ensures forall j | i <= j < k :: IsSpace(s[j])
    ensures k == |s| || !IsSpace(s[k])
    decreases |s| - i
  {
    if i == |s| || !IsSpace(s[i]) then i else TrimStartIndex(s, i + 1)
  }

  /** The end of the last non-space character in s[lo..i], or lo. */
  function TrimEndIndex(s: string, lo: nat, i: nat): (k: nat)
    requires lo <= i <= |s|
    ensures lo <= k <= i
    ensures forall j | k <= j < i :: IsSpace(s[j])
    ensures k == lo || !IsSpace(s[k - 1])
  {
    if i == lo || !IsSpace(s[i - 1]) then i else TrimEndIndex(s, lo, i - 1)
  }

  /** java.lang.String.trim: drop leading and trailing whitespace, keep everything between. */
  function Trim(s: string): (r: string)
    ensures r == [] || (!IsSpace(r[0]) && !IsSpace(r[|r| - 1]))
    ensures forall c | c in r :: c in s
    ensures forall c | c in s && !IsSpace(c) :: c in r
    ensures r == [] <==> IsBlank(s)
    ensures (forall i | 0 <= i < |s| :: !IsSpace(s[i])) ==> r == s
  {
    var lo := TrimStartIndex(s, 0);
    var hi := TrimEndIndex(s, lo, |s|);
    VisibleMiddle(s, lo, hi);
    s[lo..hi]
  }

  /** The middle between two runs of blanks, starting and ending visibly, keeps every visible character. */
  lemma VisibleMiddle(s: string, lo: nat, hi: nat)
    requires lo <= hi <= |s|
    requires forall j | 0 <= j < lo :: IsSpace(s[j])
    requires forall j | hi <= j < |s| :: IsSpace(s[j])
    requires lo < hi ==> !IsSpace(s[lo]) && !IsSpace(s[hi - 1])
    ensures var r := s[lo..hi];
      && (r == [] || (!IsSpace(r[0]) && !IsSpace(r[|r| - 1])))
      && (forall c | c in r :: c in s)
      && (forall c | c in s && !IsSpace(c) :: c in r)
      && (r == [] <==> IsBlank(s))
      && ((forall i | 0 <= i < |s| :: !IsSpace(s[i])) ==> r == s)
  {
    var r := s[lo..hi];
    forall c | c in s && !IsSpace(c)
      ensures c in r
    {
      var i :| 0 <= i < |s| && s[i] == c;
      assert r[i - lo] == c;
    }
    if forall i | 0 <= i < |s| :: !IsSpace(s[i]) {
      if s != [] {
        assert !IsSpace(s[0]) && !IsSpace(s[|s| - 1]);
      }
      assert lo == 0 && hi == |s|;
    }
  }

  /** trim keeps one contiguous middle of its input and removes only blanks around it. */
  lemma TrimMiddle(s: string)
    ensures exists lo, hi | 0 <= lo <= hi <= |s| :: Trim(s) == s[lo..hi] && IsBlank(s[..lo]) && IsBlank(s[hi..])
  {
    var lo := TrimStartIndex(s, 0);
    var hi := TrimEndIndex(s, lo, |s|);
    assert Trim(s) == s[lo..hi];
    assert IsBlank(s[..lo]) && IsBlank(s[hi..]);
  }

  /** Whitespace padding around a middle that starts and ends visibly is exactly what trim removes. */
  lemma TrimPadded(s: string, lo: nat, hi: nat)
    requires lo <= hi <= |s| && IsBlank(s[..lo]) && IsBlank(s[hi..])
    requires lo < hi ==> !IsSpace(s[lo]) && !IsSpace(s[hi - 1])
    ensures Trim(s) == s[lo..hi]
  {
    var start := TrimStartIndex(s, 0);
    var end := TrimEndIndex(s, start, |s|);
    assert forall j | 0 <= j < lo :: IsSpace(s[j]) by {
      forall j | 0 <= j < lo ensures IsSpace(s[j]) {
        assert s[..lo][j] == s[j];
      }
    }
    assert forall j | hi <= j < |s| :: IsSpace(s[j]) by {
      forall j | hi <= j < |s| ensures IsSpace(s[j]) {
        assert s[hi..][j - hi] == s[j];
      }
    }
    if lo < hi {
      assert start == lo;
      assert end == hi;
    } else {
      assert IsBlank(s);
    }
  }

  /** String.indexOf(char): the first index of c, or -1. */
  function IndexOf(s: string, c: char): (k: int)
    ensures -1 <= k < |s|
    ensures k >= 0 ==> s[k] == c && c !in s[..k]
    ensures k == -1 <==> c !in s
  {
    if s == [] then -1
    else if s[0] == c then 0
    else
      var k := IndexOf(s[1..], c);
      if k < 0 then -1 else k + 1
  }

  /** String.lastIndexOf(char): the last index of c, or -1. */
  function LastIndexOf(s: string, c: char): (k: int)
    ensures -1 <= k < |s|
    ensures k >= 0 ==> s[k] == c && c !in s[k + 1..]
    ensures k == -1 <==> c !in s
  {
    if s == [] then -1
    else if s[|s| - 1] == c then |s| - 1
    else
      assert s == s[..|s| - 1] + [s[|s| - 1]];
      LastIndexOf(s[..|s| - 1], c)
  }

  /** An index that holds c with no c before it is the one indexOf finds. */
  lemma IndexOfIs(s: string, c: char, k: nat)
    requires k < |s| && s[k] == c && c !in s[..k]
    ensures IndexOf(s, c) == k
  {
  }

  /** An index that holds c with no c after it is the one lastIndexOf finds. */
  lemma LastIndexOfIs(s: string, c: char, k: nat)
    requires k < |s| && s[k] == c && c !in s[k + 1..]
    ensures LastIndexOf(s, c) == k
  {
  }

  predicate StartsWith(s: string, prefix: string) {
    |prefix| <= |s| && s[..|prefix|] == prefix
  }

  predicate EndsWith(s: string, suffix: string) {
    |suffix| <= |s| && s[|s| - |suffix|..] == suffix
  }

  /** Text appended after a prefix keeps it. */
  lemma StartsWithExtends(a: string, b: string, prefix: string)
    requires StartsWith(a, prefix)
    ensures StartsWith(a + b, prefix)
  {
    assert (a + b)[..|prefix|] == a[..|prefix|];
  }

  /** The pattern occurs in s starting at index i. */
  predicate OccursAt(s: string, pattern: string, i: nat) {
    i + |pattern| <= |s| && s[i..i + |pattern|] == pattern
  }

  /** String.contains. */
  function Contains(s: string, pattern: string): (b: bool)
    ensures pattern == [] ==> b
    ensures b ==> |pattern| <= |s|
  {
    StartsWith(s, pattern) || (s != [] && Contains(s[1..], pattern))
  }

  /** contains holds exactly when the pattern occurs at some index. */
  lemma {:induction false} ContainsOccurs(s: string, pattern: string)
    ensures Contains(s, pattern) <==> exists i: nat :: OccursAt(s, pattern, i)
  {
    if StartsWith(s, pattern) {
      assert OccursAt(s, pattern, 0);
    } else if s == [] {
      assert forall i: nat :: !OccursAt(s, pattern, i);
    } else {
      ContainsOccurs(s[1..], pattern);
      assert forall i: nat :: OccursAt(s[1..], pattern, i) <==> OccursAt(s, pattern, i + 1);
      assert !OccursAt(s, pattern, 0);
      if exists i: nat :: OccursAt(s, pattern, i) {
        var i: nat :| OccursAt(s, pattern, i);
        assert OccursAt(s[1..], pattern, i - 1);
      }
    }
  }

  lemma {:induction false} ContainsInfix(a: string, pattern: string, b: string)
    ensures Contains(a + pattern + b, pattern)
  {
    if a == [] {
      assert a + pattern + b == pattern + b;
      assert (pattern + b)[..|pattern|] == pattern;
    } else {
      ContainsInfix(a[1..], pattern, b);
      assert (a + pattern + b)[1..] == a[1..] + pattern + b;
    }
  }

  /** A text contains what it ends with. */
  lemma ContainsAtEnd(a: string, pattern: string)
    ensures Contains(a + pattern, pattern)
  {
    assert a + pattern + [] == a + pattern;
    ContainsInfix(a, pattern, []);
  }

  /** Text appended after an occurrence keeps it. */
  lemma {:induction false} ContainsExtends(a: string, b: string, pattern: string)
    requires Contains(a, pattern)
    ensures Contains(a + b, pattern)
  {
    if StartsWith(a, pattern) {
      assert (a + b)[..|pattern|] == a[..|pattern|];
    } else {
      ContainsExtends(a[1..], b, pattern);
      assert (a + b)[1..] == a[1..] + b;
    }
  }

  /** Text put before an occurrence keeps it. */
  lemma {:induction false} ContainsAfter(a: string, b: string, pattern: string)
    requires Contains(b, pattern)
    ensures Contains(a + b, pattern)
  {
    if a == [] {
      assert a + b == b;
    } else {
      ContainsAfter(a[1..], b, pattern);
      assert (a + b)[1..] == a[1..] + b;
    }
  }

  /** A string that lacks the first character of a pattern does not contain it. */
  lemma {:induction false} NotContainsWithoutHead(s: string, pattern: string)
    requires pattern != [] && pattern[0] !in s
    ensures !Contains(s, pattern)
  {
    if s != [] {
      assert s[0] != pattern[0];
      NotContainsWithoutHead(s[1..], pattern);
    }
  }

  /** String.replace(CharSequence, CharSequence): every occurrence, scanning left to right. */
  function ReplaceAll(s: string, pattern: string, replacement: string): (r: string)
    requires pattern != []
    ensures !Contains(s, pattern) ==> r == s
    decreases |s|
  {
    if StartsWith(s, pattern) then replacement + ReplaceAll(s[|pattern|..], pattern, replacement)
    else if s == [] then []
    else [s[0]] + ReplaceAll(s[1..], pattern, replacement)
  }

  /** Before its last copy, a pattern whose first character does not recur can only match inside name. */
  lemma NoEarlyMatch(name: string, pattern: string)
    requires pattern != [] && pattern[0] !in pattern[1..] && name != [] && !Contains(name, pattern)
    ensures !StartsWith(name + pattern, pattern)
  {
    var s := name + pattern;
    if |name| >= |pattern| {
      assert s[..|pattern|] == name[..|pattern|];
    } else {
      assert s[|name|] == pattern[0];
      assert pattern[|name|] == pattern[1..][|name| - 1];
    }
  }

  /**
   * A pattern whose first character does not recur in it, appended to a string free of the
   * pattern, is its only occurrence: only that ending is replaced.
   */
  lemma {:induction false} ReplaceAllAtEnd(name: string, pattern: string, replacement: string)
    requires pattern != [] && pattern[0] !in pattern[1..] && !Contains(name, pattern)
    ensures ReplaceAll(name + pattern, pattern, replacement) == name + replacement
  {
    var s := name + pattern;
    if name == [] {
      assert s == pattern;
      assert StartsWith(s, pattern) && pattern[|pattern|..] == [];
      ReplaceAllMatch(s, pattern, replacement);
    } else {
      NoEarlyMatch(name, pattern);
      HeadAndTail(name, pattern);
      HeadAndTail(name, replacement);
      assert !Contains(name[1..], pattern);
      ReplaceAllAtEnd(name[1..], pattern, replacement);
      ReplaceAllSkip(s, pattern, replacement);
    }
  }

  /** A string that does not start with a pattern cannot start with it once a character foreign to it follows. */
  lemma NoMatchAcross(a: string, c: char, b: string, pattern: string)
    requires pattern != [] && c !in pattern && !StartsWith(a, pattern)
    ensures !StartsWith(a + [c] + b, pattern)
  {
    var s := a + [c] + b;
    if |pattern| <= |a| {
      assert s[..|pattern|] == a[..|pattern|];
    } else {
      assert s[|a|] == c;
      assert pattern[|a|] in pattern;
    }
  }

  /** No occurrence of a pattern can straddle a character the pattern does not hold. */
  lemma {:induction false} ReplaceAllSplit(a: string, c: char, b: string, pattern: string, replacement: string)
    requires pattern != [] && c !in pattern
    ensures ReplaceAll(a + [c] + b, pattern, replacement)
      == ReplaceAll(a, pattern, replacement) + [c] + ReplaceAll(b, pattern, replacement)
    decreases |a|
  {
    if a == [] {
      SplitAtFront(a, c, b, pattern, replacement);
    } else if StartsWith(a, pattern) {
      ReplaceAllSplit(a[|pattern|..], c, b, pattern, replacement);
      SplitAfterMatch(a, c, b, pattern, replacement);
    } else {
      ReplaceAllSplit(a[1..], c, b, pattern, replacement);
      SplitAfterSkip(a, c, b, pattern, replacement);
    }
  }

  /** The base case of ReplaceAllSplit: a foreign character in front is kept. */
  lemma SplitAtFront(a: string, c: char, b: string, pattern: string, replacement: string)
    requires pattern != [] && c !in pattern && a == []
    ensures ReplaceAll(a + [c] + b, pattern, replacement)
      == ReplaceAll(a, pattern, replacement) + [c] + ReplaceAll(b, pattern, replacement)
  {
    var s := a + [c] + b;
    NoMatchAcross(a, c, b, pattern);
    assert s == [c] + b && s[0] == c && s[1..] == b;
    ReplaceAllSkip(s, pattern, replacement);
    assert ReplaceAll(a, pattern, replacement) == [];
  }

  /** The step of ReplaceAllSplit where a starts with the pattern. */
  lemma SplitAfterMatch(a: string, c: char, b: string, pattern: string, replacement: string)
    requires pattern != [] && StartsWith(a, pattern)
    requires ReplaceAll(a[|pattern|..] + [c] + b, pattern, replacement)
      == ReplaceAll(a[|pattern|..], pattern, replacement) + [c] + ReplaceAll(b, pattern, replacement)
    ensures ReplaceAll(a + [c] + b, pattern, replacement)
      == ReplaceAll(a, pattern, replacement) + [c] + ReplaceAll(b, pattern, replacement)
  {
    var s := a + [c] + b;
    var n := |pattern|;
    SlicesOfJoin(a, c, b, n);
    ReplaceAllMatch(s, pattern, replacement);
    ReplaceAllMatch(a, pattern, replacement);
    Reassociate(replacement, ReplaceAll(a[n..], pattern, replacement), c, ReplaceAll(b, pattern, replacement));
  }

  /** The step of ReplaceAllSplit where a does not start with the pattern. */
  lemma SplitAfterSkip(a: string, c: char, b: string, pattern: string, replacement: string)
    requires pattern != [] && c !in pattern && a != [] && !StartsWith(a, pattern)
    requires ReplaceAll(a[1..] + [c] + b, pattern, replacement)
      == ReplaceAll(a[1..], pattern, replacement) + [c] + ReplaceAll(b, pattern, replacement)
    ensures ReplaceAll(a + [c] + b, pattern, replacement)
      == ReplaceAll(a, pattern, replacement) + [c] + ReplaceAll(b, pattern, replacement)
  {
    var s := a + [c] + b;
    NoMatchAcross(a, c, b, pattern);
    SlicesOfJoin(a, c, b, 1);
    ReplaceAllSkip(s, pattern, replacement);
    ReplaceAllSkip(a, pattern, replacement);
    Reassociate([a[0]], ReplaceAll(a[1..], pattern, replacement), c, ReplaceAll(b, pattern, replacement));
  }

  /** A non-empty x followed by y splits into its first character and the rest. */
  lemma HeadAndTail(x: string, y: string)
    requires x != []
    ensures (x + y)[0] == x[0] && (x + y)[1..] == x[1..] + y && [x[0]] + (x[1..] + y) == x + y
  {
  }

  /** Cutting a + [c] + b inside a. */
  lemma SlicesOfJoin(a: string, c: char, b: string, n: nat)
    requires n <= |a|
    ensures (a + [c] + b)[..n] == a[..n] && (a + [c] + b)[n..] == a[n..] + [c] + b
    ensures n < |a| ==> (a + [c] + b)[n] == a[n]
  {
  }

  /** Regrouping a concatenation around one character. */
  lemma Reassociate(x: string, y: string, c: char, z: string)
    ensures x + (y + [c] + z) == (x + y) + [c] + z
  {
  }

  /** Where the pattern starts, it is replaced and the scan resumes after it. */
  lemma ReplaceAllMatch(s: string, pattern: string, replacement: string)
    requires pattern != [] && StartsWith(s, pattern)
    ensures ReplaceAll(s, pattern, replacement) == replacement + ReplaceAll(s[|pattern|..], pattern, replacement)
  {
  }

  /** Elsewhere the first character is kept and the scan moves on by one. */
  lemma ReplaceAllSkip(s: string, pattern: string, replacement: string)
    requires pattern != [] && s != [] && !StartsWith(s, pattern)
    ensures ReplaceAll(s, pattern, replacement) == [s[0]] + ReplaceAll(s[1..], pattern, replacement)
  {
  }

  /** Replacing one character by another keeps the length and maps every position. */
  lemma {:induction false} ReplaceSingleChar(s: string, c: char, d: char)
    ensures |ReplaceAll(s, [c], [d])| == |s|
    ensures forall i | 0 <= i < |s| :: ReplaceAll(s, [c], [d])[i] == if s[i] == c then d else s[i]
  {
    if s != [] {
      ReplaceSingleChar(s[1..], c, d);
      var r := ReplaceAll(s, [c], [d]);
      var t := ReplaceAll(s[1..], [c], [d]);
      assert r == [if s[0] == c then d else s[0]] + t;
    }
  }

  /** StringUtil.removeHeadingSlash: drop one leading '/', refuse blank input. */
  function RemoveHeadingSlash(s: string): (r: Result<string>)
    ensures r.Err? <==> IsBlank(s)
    ensures r.Err? ==> r.error == InvalidParameter("Argument is empty")
    ensures r.Ok? ==> s == r.value || s == "/" + r.value
    ensures r.Ok? && s[0] == '/' ==> |r.value| < |s|
  {
    if IsBlank(s) then Err(InvalidParameter("Argument is empty"))
    else if s[0] == '/' then Ok(s[1..])
    else Ok(s)
  }

  /** The characters StringUtil.splitPath and java.io.File treat as path separators on Windows. */
  predicate IsPathSeparator(c: char) {
    c == '\\' || c == '/'
  }

  function TrimTrailingSeparators(p: string): (r: string)
    ensures |r| <= |p| && r == p[..|r|]
    ensures forall i | |r| <= i < |p| :: IsPathSeparator(p[i])
    ensures r == [] || !IsPathSeparator(r[|r| - 1])
  {
    if p == [] || !IsPathSeparator(p[|p| - 1]) then p else TrimTrailingSeparators(p[..|p| - 1])
  }

  /** The index of the last separator in p, or -1. */
  function LastSeparatorIndex(p: string): (k: int)
    ensures -1 <= k < |p|
    ensures k >= 0 ==> IsPathSeparator(p[k])
    ensures forall i | k < i < |p| :: !IsPathSeparator(p[i])
  {
    if p == [] then -1
    else if IsPathSeparator(p[|p| - 1]) then |p| - 1
    else LastSeparatorIndex(p[..|p| - 1])
  }

  /** r ends t and is t itself or follows a separator of t. */
  predicate ClosingSegment(r: string, t: string) {
    |r| <= |t| && r == t[|t| - |r|..] && (|r| == |t| || IsPathSeparator(t[|t| - |r| - 1]))
  }

  /** What follows the last separator of t. */
  function SegmentAfterLastSeparator(t: string): (r: string)
    ensures forall c | c in r :: !IsPathSeparator(c)
    ensures ClosingSegment(r, t)
    ensures t != [] && !IsPathSeparator(t[|t| - 1]) ==> r != []
  {
    var k := LastSeparatorIndex(t);
    assert forall c | c in t[k + 1..] :: !IsPathSeparator(c) by {
      forall c | c in t[k + 1..]
        ensures !IsPathSeparator(c)
      {
        var j :| 0 <= j < |t| - k - 1 && t[k + 1..][j] == c;
        assert t[k + 1 + j] == c;
      }
    }
    t[k + 1..]
  }

  /**
   * The last element of StringUtil.splitPath(p), which is also what java.io.File.getName
   * returns on Windows: the last non-empty segment between separators.
   */
  function LastPathSegment(p: string): (r: string)
    ensures forall c | c in r :: !IsPathSeparator(c)
    ensures ClosingSegment(r, TrimTrailingSeparators(p))
    ensures r == [] <==> forall i | 0 <= i < |p| :: IsPathSeparator(p[i])
  {
    var t := TrimTrailingSeparators(p);
    assert t != [] ==> !IsPathSeparator(p[|t| - 1]);
    SegmentAfterLastSeparator(t)
  }

  /** The last segment of a path that ends in a non-separator starts after its last separator. */
  lemma LastPathSegmentAfter(p: string, k: int)
    requires p != [] && !IsPathSeparator(p[|p| - 1])
    requires -1 <= k < |p| && (k >= 0 ==> IsPathSeparator(p[k]))
    requires forall i | k < i < |p| :: !IsPathSeparator(p[i])
    ensures LastPathSegment(p) == p[k + 1..]
  {
    assert TrimTrailingSeparators(p) == p;
    assert LastSeparatorIndex(p) == k;
  }

  /** Where the parts of dir + [sep] + name sit. */
  lemma PartsOfJoin(dir: string, sep: char, name: string)
    requires name != []
    ensures var p := dir + [sep] + name;
      && p[|dir|] == sep && p[|dir| + 1..] == name && p[|p| - 1] == name[|name| - 1]
      && forall i | |dir| < i < |p| :: p[i] == name[i - |dir| - 1]
  {
  }

  /** A segment free of separators is the last segment of any path it closes. */
  lemma LastPathSegmentOfJoin(dir: string, sep: char, name: string)
    requires IsPathSeparator(sep) && name != []
    requires forall c | c in name :: !IsPathSeparator(c)
    ensures LastPathSegment(dir + [sep] + name) == name
    ensures LastPathSegment(name) == name
  {
    var p := dir + [sep] + name;
    PartsOfJoin(dir, sep, name);
    assert name[|name| - 1] in name;
    LastPathSegmentAfter(p, |dir|);
    LastPathSegmentAfter(name, -1);
  }

  /** Boolean.toString. */
  function BoolText(b: bool): string {
    if b then "true" else "false"
  }
}
