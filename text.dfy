/** The optional value used wherever the C code passes or returns a nullable pointer. */
module Wrappers {
  datatype Option<T> = None | Some(value: T)
}

/**
 * Character classes and string helpers with the meaning the C library and GLib give them
 * (ctype, strstr, strrchr, atoi, g_strstrip, g_path_get_basename/dirname, g_build_filename).
 * Only ASCII characters are classified; other characters are never digits, spaces or letters.
 */
module Text {
  import opened Wrappers

  predicate IsDigit(c: char) { '0' <= c <= '9' }
  /** C isspace: space, tab, newline, vertical tab, form feed, carriage return. */
  predicate IsSpace(c: char) { c == ' ' || '\t' <= c <= '\r' }
  /** g_ascii_isspace: the same set without the vertical tab. */
  predicate IsAsciiSpace(c: char) { c == ' ' || c == '\t' || c == '\n' || c == '\U{C}' || c == '\r' }
  predicate IsLower(c: char) { 'a' <= c <= 'z' }
  predicate IsUpper(c: char) { 'A' <= c <= 'Z' }
  /** A word character as a regular-expression word boundary sees it. */
  predicate IsWordChar(c: char) { IsDigit(c) || IsLower(c) || IsUpper(c) || c == '_' }

  function ToLower(c: char): (r: char)
    ensures IsUpper(c) ==> IsLower(r)
    ensures !IsUpper(c) ==> r == c
  {
    if IsUpper(c) then (c as int + 32) as char else c
  }

  function ToUpper(c: char): (r: char)
    ensures IsLower(c) ==> IsUpper(r) && ToLower(r) == c
    ensures !IsLower(c) ==> r == c
  {
    if IsLower(c) then (c as int - 32) as char else c
  }

  /** g_ascii_strdown: only 'A'..'Z' change. */
  function AsciiLower(s: string): (r: string)
    ensures |r| == |s|
  {
    seq(|s|, i requires 0 <= i < |s| => ToLower(s[i]))
  }

  /** g_ascii_strcasecmp(a, b) == 0. */
  predicate CaseEq(a: string, b: string) { AsciiLower(a) == AsciiLower(b) }

  predicate IsPrefix(p: string, s: string) { |p| <= |s| && s[..|p|] == p }
  predicate IsSuffix(p: string, s: string) { |p| <= |s| && s[|s| - |p|..] == p }

  predicate OccursAt(s: string, pat: string, i: int)
  {
    0 <= i && i + |pat| <= |s| && s[i..i + |pat|] == pat
  }

  ghost predicate Contains(s: string, pat: string) { exists i :: OccursAt(s, pat, i) }

  /** strstr from position i on: the leftmost occurrence of pat at or after i. */
  function IndexFrom(s: string, pat: string, i: nat): (r: Option<nat>)
    requires i <= |s|
    ensures r.Some? ==> i <= r.value && OccursAt(s, pat, r.value)
    ensures r.Some? ==> forall j :: i <= j < r.value ==> !OccursAt(s, pat, j)
    ensures r.None? ==> forall j :: i <= j ==> !OccursAt(s, pat, j)
    decreases |s| - i
  {
    if OccursAt(s, pat, i) then Some(i)
    else if i == |s| then None
    else IndexFrom(s, pat, i + 1)
  }

  /** strstr: the leftmost occurrence of pat in s. */
  function IndexOf(s: string, pat: string): (r: Option<nat>)
    ensures r.Some? ==> OccursAt(s, pat, r.value)
    ensures r.Some? ==> forall j :: 0 <= j < r.value ==> !OccursAt(s, pat, j)
    ensures r.None? <==> !Contains(s, pat)
  {
    IndexFrom(s, pat, 0)
  }

  /** A substring of a string in which pat does not occur does not contain pat either. */
  lemma NotContainsSlice(s: string, pat: string, a: nat, b: nat)
    requires a <= b <= |s|
    requires !Contains(s, pat)
    ensures !Contains(s[a..b], pat)
  {
    forall i | OccursAt(s[a..b], pat, i) ensures OccursAt(s, pat, a + i) {
      var t := s[a..b];
      assert i + |pat| <= |t|;
      var u, w := t[i..i + |pat|], s[a + i..a + i + |pat|];
      assert forall k :: 0 <= k < |pat| ==> u[k] == w[k];
      assert u == w;
    }
  }

  /** strrchr: the last position holding c. */
  function LastIndexOf(s: string, c: char): (r: Option<nat>)
    ensures r.Some? ==> r.value < |s| && s[r.value] == c
    ensures r.Some? ==> forall j :: r.value < j < |s| ==> s[j] != c
    ensures r.None? <==> c !in s
  {
    if s == [] then None
    else if s[|s| - 1] == c then Some(|s| - 1)
    else
      var r := LastIndexOf(s[..|s| - 1], c);
      assert forall j :: 0 <= j < |s| - 1 ==> s[..|s| - 1][j] == s[j];
      r
  }

  /** The last position holding c is the one after which no c follows. */
  lemma LastIndexOfIs(s: string, c: char, k: nat)
    requires k < |s| && s[k] == c
    requires forall j :: k < j < |s| ==> s[j] != c
    ensures LastIndexOf(s, c) == Some(k)
  {
  }

  // ---------------------------------------------------------------- numbers

  /** The length of the run of digits at the start of s. */
  function DigitRun(s: string): (n: nat)
    ensures n <= |s|
    ensures forall i :: 0 <= i < n ==> IsDigit(s[i])
    ensures n < |s| ==> !IsDigit(s[n])
  {
    if s != [] && IsDigit(s[0]) then 1 + DigitRun(s[1..]) else 0
  }

  /** The length of the run of white space at the start of s. */
  function SpaceRun(s: string): (n: nat)
    ensures n <= |s|
    ensures forall i :: 0 <= i < n ==> IsSpace(s[i])
    ensures n < |s| ==> !IsSpace(s[n])
  {
    if s != [] && IsSpace(s[0]) then 1 + SpaceRun(s[1..]) else 0
  }

  /** The length of the run of GLib white space at the start of s. */
  function AsciiSpaceRun(s: string): (n: nat)
    ensures n <= |s|
    ensures forall i :: 0 <= i < n ==> IsAsciiSpace(s[i])
    ensures n < |s| ==> !IsAsciiSpace(s[n])
  {
    if s != [] && IsAsciiSpace(s[0]) then 1 + AsciiSpaceRun(s[1..]) else 0
  }

  function DigitVal(c: char): nat { if IsDigit(c) then c as int - '0' as int else 0 }

  /** The value of a decimal numeral. */
  function DigitsValue(s: string): nat
  {
    if s == [] then 0 else DigitsValue(s[..|s| - 1]) * 10 + DigitVal(s[|s| - 1])
  }

  /** The value of the maximal run of digits at the start of s (0 when there is none). */
  function LeadingNumber(s: string): nat
  {
    DigitsValue(s[..DigitRun(s)])
  }

  /**
   * atoi: leading white space, an optional sign, then the maximal run of digits.
   * The C overflow of a very long run is not modelled: the value is unbounded.
   */
  function Atoi(s: string): int
  {
    var t := s[SpaceRun(s)..];
    if t != [] && t[0] == '-' then -(LeadingNumber(t[1..]) as int)
    else if t != [] && t[0] == '+' then LeadingNumber(t[1..])
    else LeadingNumber(t)
  }

  /** When s starts with a digit, atoi reads exactly its leading digit run. */
  lemma AtoiOfDigitStart(s: string)
    requires s != [] && IsDigit(s[0])
    ensures Atoi(s) == LeadingNumber(s)
  {
    assert SpaceRun(s) == 0;
  }

  function DigitChar(d: nat): (c: char)
    requires d < 10
    ensures IsDigit(c) && DigitVal(c) == d
  {
    ('0' as int + d) as char
  }

  /** printf "%d" of a non-negative number. */
  function NatToString(n: nat): (r: string)
    ensures |r| >= 1
    ensures forall i :: 0 <= i < |r| ==> IsDigit(r[i])
    ensures DigitRun(r) == |r|
  {
    var r := if n < 10 then [DigitChar(n)] else NatToString(n / 10) + [DigitChar(n % 10)];
    AllDigitsRun(r, []);
    assert r + [] == r;
    r
  }

  /** printf "%d". */
  function IntToString(i: int): string
  {
    if i < 0 then "-" + NatToString(-i) else NatToString(i)
  }

  /** A run of digits followed by a non-digit (or nothing) is read as exactly that run. */
  lemma {:induction false} AllDigitsRun(d: string, rest: string)
    requires forall i :: 0 <= i < |d| ==> IsDigit(d[i])
    requires rest == [] || !IsDigit(rest[0])
    ensures DigitRun(d + rest) == |d|
  {
    if d != [] {
      assert (d + rest)[1..] == d[1..] + rest;
      AllDigitsRun(d[1..], rest);
    }
  }

  lemma {:induction false} NatToStringValue(n: nat)
    ensures DigitsValue(NatToString(n)) == n
  {
    if n >= 10 {
      NatToStringValue(n / 10);
      var s := NatToString(n);
      assert s == NatToString(n / 10) + [DigitChar(n % 10)];
      assert s[..|s| - 1] == NatToString(n / 10);
    }
  }

  /** Reading back a printed number that is followed by a non-digit gives the number. */
  lemma NatToStringReadBack(n: nat, rest: string)
    requires rest == [] || !IsDigit(rest[0])
    ensures DigitRun(NatToString(n) + rest) == |NatToString(n)|
    ensures LeadingNumber(NatToString(n) + rest) == n
  {
    var s := NatToString(n);
    AllDigitsRun(s, rest);
    assert (s + rest)[..|s|] == s;
    NatToStringValue(n);
  }

  // ---------------------------------------------------------------- trimming

  /** g_strchomp: drop trailing white space. */
  function TrimEnd(s: string): (r: string)
    ensures IsPrefix(r, s)
    ensures r == [] || !IsAsciiSpace(r[|r| - 1])
    ensures forall i :: |r| <= i < |s| ==> IsAsciiSpace(s[i])
  {
    if s != [] && IsAsciiSpace(s[|s| - 1]) then
      var r := TrimEnd(s[..|s| - 1]);
      assert s[..|s| - 1][..|r|] == s[..|r|];
      r
    else s
  }

  /** g_strchug: drop leading white space. */
  function TrimStart(s: string): (r: string)
    ensures IsSuffix(r, s)
    ensures r == [] || !IsAsciiSpace(r[0])
  {
    s[AsciiSpaceRun(s)..]
  }

  /** g_strstrip: both ends. */
  function Strip(s: string): (r: string)
    ensures r == [] || (!IsAsciiSpace(r[0]) && !IsAsciiSpace(r[|r| - 1]))
    ensures exists a, b :: 0 <= a <= b <= |s| && r == s[a..b]
  {
    var t := TrimStart(s);
    var r := TrimEnd(t);
    var a := |s| - |t|;
    assert r == s[a..a + |r|];
    r
  }

  // ---------------------------------------------------------------- paths

  /** The index of the last character of s that is not '/', if any. */
  function LastNonSlash(s: string): (r: Option<nat>)
    ensures r.Some? ==> r.value < |s| && s[r.value] != '/'
    ensures r.Some? ==> forall j :: r.value < j < |s| ==> s[j] == '/'
    ensures r.None? ==> forall j :: 0 <= j < |s| ==> s[j] == '/'
  {
    if s == [] then None
    else if s[|s| - 1] != '/' then Some(|s| - 1)
    else
      var r := LastNonSlash(s[..|s| - 1]);
      assert forall j :: 0 <= j < |s| - 1 ==> s[..|s| - 1][j] == s[j];
      r
  }

  lemma LastNonSlashIs(s: string, k: nat)
    requires k < |s| && s[k] != '/'
    requires forall j :: k < j < |s| ==> s[j] == '/'
    ensures LastNonSlash(s) == Some(k)
  {
  }

  /** g_path_get_basename: the last component, ignoring trailing slashes. */
  function Basename(s: string): string
  {
    if s == [] then "."
    else match LastNonSlash(s)
      case None => "/"
      case Some(e) =>
        var t := s[..e + 1];
        match LastIndexOf(t, '/')
        case None => t
        case Some(k) => t[k + 1..]
  }

  /** The end index of g_path_get_dirname: step back over slashes, but not past index 0. */
  function DirEnd(s: string, k: nat): (e: nat)
    requires k < |s|
    ensures e <= k
    ensures e == 0 || s[e] != '/'
    ensures forall j :: e < j <= k ==> s[j] == '/'
  {
    if k > 0 && s[k] == '/' then DirEnd(s, k - 1) else k
  }

  /** g_path_get_dirname: everything before the last component, "." when there is no '/'. */
  function Dirname(s: string): string
  {
    match LastIndexOf(s, '/')
    case None => "."
    case Some(k) => s[..DirEnd(s, k) + 1]
  }

  /** g_build_filename(dir, name) for a directory entry name (non-empty, no '/'). */
  function BuildFilename(dir: string, name: string): string
  {
    if dir == [] then name
    else match LastNonSlash(dir)
      case None => dir + name
      case Some(e) => dir[..e + 1] + "/" + name
  }

  /** A name as a directory listing yields it: non-empty and without '/'. */
  predicate IsEntryName(name: string) { name != [] && '/' !in name }

  /** The directory part of a path never ends in '/' unless it is the root itself. */
  lemma DirnameShape(s: string)
    ensures Dirname(s) != []
    ensures Dirname(s) == "/" || Dirname(s)[|Dirname(s)| - 1] != '/'
  {
  }

  /** A path ending in "/" + name, for an entry name: that '/' is the last one and ends no component. */
  lemma {:induction false} SlashThenName(pre: string, name: string)
    requires IsEntryName(name) && pre != [] && pre[|pre| - 1] == '/'
    ensures LastIndexOf(pre + name, '/') == Some(|pre| - 1)
    ensures LastNonSlash(pre + name) == Some(|pre + name| - 1)
    ensures (pre + name)[|pre|..] == name
  {
    var p := pre + name;
    assert p[|pre| - 1] == '/';
    assert forall j :: |pre| - 1 < j < |p| ==> p[j] == name[j - |pre|];
    LastIndexOfIs(p, '/', |pre| - 1);
    assert p[|p| - 1] == name[|name| - 1];
    LastNonSlashIs(p, |p| - 1);
  }

  /** Joining a name to a directory and taking the directory part gives the directory back. */
  lemma {:induction false} DirnameOfBuild(d: string, name: string)
    requires IsEntryName(name)
    requires d != [] && (d == "/" || d[|d| - 1] != '/')
    ensures Dirname(BuildFilename(d, name)) == d
  {
    var p := BuildFilename(d, name);
    if d == "/" {
      assert LastNonSlash(d) == None;
      assert p == "/" + name;
      SlashThenName("/", name);
      assert DirEnd(p, 0) == 0;
      assert p[..1] == d;
    } else {
      LastNonSlashIs(d, |d| - 1);
      assert d[..|d|] == d;
      assert p == (d + "/") + name;
      SlashThenName(d + "/", name);
      assert p[|d|] == '/' && p[|d| - 1] != '/';
      assert DirEnd(p, |d|) == |d| - 1;
      assert p[..|d|] == d;
    }
  }

  /** An entry name is its own last component. */
  lemma {:induction false} BasenameOfName(name: string)
    requires IsEntryName(name)
    ensures Basename(name) == name
  {
    LastNonSlashIs(name, |name| - 1);
    assert name[..|name|] == name;
    assert LastIndexOf(name[..|name|], '/') == None;
  }

  /** The last component of a path ending in "/" + name is the name. */
  lemma {:induction false} BasenameAfterSlash(pre: string, name: string)
    requires IsEntryName(name) && pre != [] && pre[|pre| - 1] == '/'
    ensures Basename(pre + name) == name
  {
    var p := pre + name;
    SlashThenName(pre, name);
    assert p[..|p|] == p;
    assert LastIndexOf(p[..|p|], '/') == Some(|pre| - 1);
  }

  /** The last component of a path built from a directory and an entry name is that name. */
  lemma {:induction false} BasenameOfBuild(d: string, name: string)
    requires IsEntryName(name)
    ensures Basename(BuildFilename(d, name)) == name
  {
    if d == [] {
      BasenameOfName(name);
    } else if LastNonSlash(d).None? {
      assert BuildFilename(d, name) == d + name;
      BasenameAfterSlash(d, name);
    } else {
      var e := LastNonSlash(d).value;
      assert BuildFilename(d, name) == (d[..e + 1] + "/") + name;
      BasenameAfterSlash(d[..e + 1] + "/", name);
    }
  }

  /** A path built from a directory and an entry name is non-empty and ends with the name's last character. */
  lemma BuildEndsWithName(d: string, name: string)
    requires IsEntryName(name)
    ensures var p := BuildFilename(d, name); p != [] && p[|p| - 1] == name[|name| - 1] && p[|p| - 1] != '/'
  {
    var p := BuildFilename(d, name);
    BasenameOfBuild(d, name);
    assert p[|p| - 1] == name[|name| - 1];
    assert name[|name| - 1] in name;
  }
}
