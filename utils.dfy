/**
 * Title clean-up and runtime formatting (src/utils.c).
 * `Normalized` is the meaning of utils_normalize_title; the method `NormalizeTitle`
 * is the in-place buffer algorithm of the source, proved to compute it.
 */
module Utils {
  import opened Wrappers
  import opened Text

  /** The release and quality tags cut out of titles, tried in this order. */
  const StripTags: seq<string> := [
    "1080p", "720p", "480p", "2160p", "4k", "uhd",
    "bluray", "blu-ray", "bdrip", "brrip", "dvdrip", "dvdscr",
    "hdtv", "webrip", "web-dl", "webdl", "x264", "x265",
    "h264", "h265", "hevc", "avc", "aac", "ac3",
    "dts", "truehd", "atmos", "remux", "proper", "repack",
    "extended", "unrated", "directors cut", "theatrical", "imax", "yify",
    "yts", "rarbg", "ettv", "eztv"]

  lemma StripTagsNonEmpty()
    ensures forall k :: 0 <= k < |StripTags| ==> StripTags[k] != []
  {
  }

  /** Step 1: '.' and '_' become spaces. */
  function ReplaceSeparators(s: string): (r: string)
    ensures |r| == |s|
  {
    seq(|s|, i requires 0 <= i < |s| => if s[i] == '.' || s[i] == '_' then ' ' else s[i])
  }

  /**
   * Step 2: the length the text is cut to. Each tag in turn is searched in what is left
   * of the lower-cased text, and the text ends where the tag is first found. Once the
   * text is empty no tag can shorten it, so the search stops there.
   */
  function TagCut(lower: string, len: nat, tags: seq<string>): (n: nat)
    requires len <= |lower|
    ensures n <= len
    decreases |tags|
  {
    if len == 0 || tags == [] then len
    else
      var next := match IndexOf(lower[..len], tags[0]) case Some(p) => p case None => len;
      TagCut(lower, next, tags[1..])
  }

  /** Step 4: the loop that drops trailing '-' and ' '. */
  function TrimDashes(s: string): (r: string)
    ensures IsPrefix(r, s)
    ensures r == [] || (r[|r| - 1] != '-' && r[|r| - 1] != ' ')
  {
    if s != [] && (s[|s| - 1] == '-' || s[|s| - 1] == ' ') then
      var r := TrimDashes(s[..|s| - 1]);
      assert s[..|s| - 1][..|r|] == s[..|r|];
      r
    else s
  }

  /** Whether position i starts a word for the capitalisation loop. */
  predicate WordStart(s: string, i: nat)
    requires i < |s|
  {
    i == 0 || s[i - 1] == ' '
  }

  /** Step 5: a lower-case letter at the start of a word becomes upper case. */
  function Capitalize(s: string): (r: string)
    ensures |r| == |s|
  {
    seq(|s|, i requires 0 <= i < |s| => if WordStart(s, i) && IsLower(s[i]) then ToUpper(s[i]) else s[i])
  }

  /** The text after steps 1 to 4, before capitalisation, for a given tag list. */
  function CleanedWith(raw: string, tags: seq<string>): string
  {
    TrimDashes(Strip(ReplaceSeparators(raw)[..CutLength(raw, tags)]))
  }

  /** Where the tag loop leaves the end of the text. */
  function CutLength(raw: string, tags: seq<string>): (n: nat)
    ensures n <= |raw|
  {
    var r := ReplaceSeparators(raw);
    TagCut(AsciiLower(r), |r|, tags)
  }

  /** The text after steps 1 to 4, before capitalisation. */
  function Cleaned(raw: string): string
  {
    CleanedWith(raw, StripTags)
  }

  /** utils_normalize_title on a non-NULL string. */
  function Normalized(raw: string): string
  {
    Capitalize(Cleaned(raw))
  }

  /** utils_normalize_title: NULL stays NULL. */
  function Normalize(raw: Option<string>): (r: Option<string>)
    ensures r.None? <==> raw.None?
  {
    match raw
    case None => None
    case Some(s) => Some(Normalized(s))
  }

  // ---------------------------------------------------------------- properties

  /**
   * The cleaned text is a piece of the separator-replaced text that ends before the cut.
   */
  lemma CleanedIsSlice(raw: string, tags: seq<string>) returns (a: nat, b: nat)
    ensures a <= b <= CutLength(raw, tags)
    ensures CleanedWith(raw, tags) == ReplaceSeparators(raw)[a..b]
  {
    var r := ReplaceSeparators(raw);
    var n := CutLength(raw, tags);
    var x := r[..n];
    a := AsciiSpaceRun(x);
    var t := TrimStart(x);
    assert t == x[a..];
    var st := TrimEnd(t);
    assert st == Strip(x);
    assert st == t[..|st|];
    var d := TrimDashes(st);
    assert d == st[..|d|];
    b := a + |d|;
    assert d == x[a..b];
    assert x[a..b] == r[a..b];
  }

  /** The output is never longer than the input. */
  lemma NormalizedLength(raw: string)
    ensures |Normalized(raw)| <= |raw|
  {
    var a, b := CleanedIsSlice(raw, StripTags);
  }

  /** No '.' or '_' survives: both are replaced before anything is cut. */
  lemma NormalizedNoSeparators(raw: string)
    ensures '.' !in Normalized(raw) && '_' !in Normalized(raw)
  {
    var c := Cleaned(raw);
    CleanedNoSeparators(raw, StripTags);
    CapitalizeKeeps(c, '.');
    CapitalizeKeeps(c, '_');
  }

  lemma CleanedNoSeparators(raw: string, tags: seq<string>)
    ensures '.' !in CleanedWith(raw, tags) && '_' !in CleanedWith(raw, tags)
  {
    var a, b := CleanedIsSlice(raw, tags);
    var r := ReplaceSeparators(raw);
    var c := CleanedWith(raw, tags);
    assert forall i :: 0 <= i < |c| ==> c[i] == r[a + i];
  }

  /** Capitalisation creates no character that is not a letter. */
  lemma CapitalizeKeeps(c: string, ch: char)
    requires !IsUpper(ch) && ch !in c
    ensures ch !in Capitalize(c)
  {
    var t := Capitalize(c);
    forall i | 0 <= i < |t| ensures t[i] != ch {
      assert t[i] == c[i] || IsUpper(t[i]);
    }
  }

  /** The result never ends with '-' or ' '. */
  lemma NormalizedEnd(raw: string)
    ensures var t := Normalized(raw); t == [] || (t[|t| - 1] != '-' && t[|t| - 1] != ' ')
  {
    CapitalizeEnd(Cleaned(raw));
  }

  lemma CapitalizeEnd(c: string)
    requires c == [] || (c[|c| - 1] != '-' && c[|c| - 1] != ' ')
    ensures var t := Capitalize(c); t == [] || (t[|t| - 1] != '-' && t[|t| - 1] != ' ')
  {
    var t := Capitalize(c);
    if c != [] {
      assert t[|c| - 1] == c[|c| - 1] || IsUpper(t[|c| - 1]);
    }
  }

  /**
   * Every word-initial character of the result is not a lower-case ASCII letter, and every
   * other character is the cleaned text's character unchanged.
   */
  lemma NormalizedCapitals(raw: string)
    ensures |Normalized(raw)| == |Cleaned(raw)|
    ensures var t := Normalized(raw);
      forall i :: 0 <= i < |t| ==> (WordStart(t, i) ==> !IsLower(t[i]))
    ensures var t, c := Normalized(raw), Cleaned(raw);
      forall i :: 0 <= i < |t| ==> (!WordStart(t, i) ==> t[i] == c[i])
  {
    CapitalizeWords(Cleaned(raw));
  }

  lemma CapitalizeWords(c: string)
    ensures var t := Capitalize(c);
      forall i :: 0 <= i < |t| ==> (WordStart(t, i) ==> !IsLower(t[i]))
    ensures var t := Capitalize(c);
      forall i :: 0 <= i < |t| ==> (!WordStart(t, i) ==> t[i] == c[i])
  {
    var t := Capitalize(c);
    forall i | 0 <= i < |t|
      ensures WordStart(t, i) == WordStart(c, i)
    {
      if i > 0 {
        assert t[i - 1] == c[i - 1] || IsUpper(t[i - 1]);
      }
    }
  }

  /** Cutting at the first occurrence of a non-empty pattern leaves a text without it. */
  lemma CutAtFirst(x: string, pat: string, p: nat)
    requires pat != []
    requires IndexOf(x, pat) == Some(p)
    ensures !Contains(x[..p], pat)
  {
    forall j | OccursAt(x[..p], pat, j) ensures false {
      assert x[..p][j..j + |pat|] == x[j..j + |pat|];
      assert OccursAt(x, pat, j);
    }
  }

  /** After TagCut, none of the tags occurs in what is left of the lower-cased text. */
  lemma {:induction false} TagCutRemovesTags(lower: string, len: nat, tags: seq<string>)
    requires len <= |lower|
    requires forall k :: 0 <= k < |tags| ==> tags[k] != []
    ensures forall k :: 0 <= k < |tags| ==> !Contains(lower[..TagCut(lower, len, tags)], tags[k])
  {
    if tags != [] {
      var x := lower[..len];
      var next := match IndexOf(x, tags[0]) case Some(p) => p case None => len;
      assert x[..next] == lower[..next];
      if IndexOf(x, tags[0]).Some? {
        CutAtFirst(x, tags[0], next);
      } else {
        assert x[..next] == x;
      }
      TagCutRemovesTags(lower, next, tags[1..]);
      var n := TagCut(lower, len, tags);
      assert n == TagCut(lower, next, tags[1..]);
      assert lower[..next][0..n] == lower[..n];
      NotContainsSlice(lower[..next], tags[0], 0, n);
      forall k | 1 <= k < |tags| ensures !Contains(lower[..n], tags[k]) {
        assert tags[k] == tags[1..][k - 1];
      }
    }
  }

  /** Lower-casing commutes with taking a piece of a text. */
  lemma LowerSlice(s: string, a: nat, b: nat)
    requires a <= b <= |s|
    ensures AsciiLower(s[a..b]) == AsciiLower(s)[a..b]
  {
  }

  /** Capitalisation only changes letters, so it is invisible after lower-casing. */
  lemma LowerCapitalize(s: string)
    ensures AsciiLower(Capitalize(s)) == AsciiLower(s)
  {
    var t := Capitalize(s);
    forall i | 0 <= i < |s| ensures ToLower(t[i]) == ToLower(s[i]) {
    }
  }

  /**
   * The lower-cased result contains none of the tags. Matching is not word-bounded:
   * a tag cuts the title even in the middle of a word.
   */
  lemma NormalizedNoTags(raw: string)
    ensures forall k :: 0 <= k < |StripTags| ==> !Contains(AsciiLower(Normalized(raw)), StripTags[k])
  {
    StripTagsNonEmpty();
    CleanedNoTags(raw, StripTags);
    LowerCapitalize(Cleaned(raw));
  }

  lemma CleanedNoTags(raw: string, tags: seq<string>)
    requires forall k :: 0 <= k < |tags| ==> tags[k] != []
    ensures forall k :: 0 <= k < |tags| ==> !Contains(AsciiLower(CleanedWith(raw, tags)), tags[k])
  {
    var r := ReplaceSeparators(raw);
    var lower := AsciiLower(r);
    var n := CutLength(raw, tags);
    TagCutRemovesTags(lower, |r|, tags);
    var a, b := CleanedIsSlice(raw, tags);
    LowerSlice(r, a, b);
    assert lower[..n][a..b] == lower[a..b];
    forall k | 0 <= k < |tags| ensures !Contains(AsciiLower(CleanedWith(raw, tags)), tags[k]) {
      NotContainsSlice(lower[..n], tags[k], a, b);
    }
  }

  // ---------------------------------------------------------------- the buffer algorithm

  /** Whether pat occurs in buf[..len] at position i, compared character by character. */
  method MatchesAt(buf: array<char>, len: nat, pat: string, i: nat) returns (m: bool)
    requires len <= buf.Length && i <= len
    ensures m == OccursAt(buf[..len], pat, i)
  {
    if i + |pat| > len { return false; }
    var k := 0;
    while k < |pat|
      invariant 0 <= k <= |pat|
      invariant forall j :: 0 <= j < k ==> buf[i + j] == pat[j]
    {
      if buf[i + k] != pat[k] {
        assert buf[..len][i..i + |pat|][k] != pat[k];
        return false;
      }
      k := k + 1;
    }
    assert buf[..len][i..i + |pat|] == pat;
    return true;
  }

  /** strstr on buf[..len]. */
  method Find(buf: array<char>, len: nat, pat: string) returns (r: Option<nat>)
    requires len <= buf.Length
    ensures r == IndexOf(buf[..len], pat)
  {
    var i := 0;
    while i <= len
      invariant 0 <= i <= len + 1
      invariant forall j :: 0 <= j < i ==> !OccursAt(buf[..len], pat, j)
    {
      var m := MatchesAt(buf, len, pat, i);
      if m {
        r := Some(i);
        LeftmostIsIndexOf(buf[..len], pat, i);
        return;
      }
      i := i + 1;
    }
    assert !Contains(buf[..len], pat);
    return None;
  }

  lemma LeftmostIsIndexOf(x: string, pat: string, i: nat)
    requires OccursAt(x, pat, i)
    requires forall j :: 0 <= j < i ==> !OccursAt(x, pat, j)
    ensures IndexOf(x, pat) == Some(i)
  {
  }

  /** A run of GLib white space counted from the front is AsciiSpaceRun. */
  lemma AsciiSpaceRunIs(x: string, k: nat)
    requires k <= |x|
    requires forall j :: 0 <= j < k ==> IsAsciiSpace(x[j])
    requires k == |x| || !IsAsciiSpace(x[k])
    ensures AsciiSpaceRun(x) == k
  {
    if k > 0 {
      AsciiSpaceRunIs(x[1..], k - 1);
    }
  }

  /** Step 1 in place: every '.' and '_' of the buffer becomes ' '. */
  method SeparatorsToSpaces(buf: array<char>)
    modifies buf
    ensures buf[..] == ReplaceSeparators(old(buf[..]))
  {
    ghost var s := buf[..];
    ghost var rs := ReplaceSeparators(s);
    var i := 0;
    while i < buf.Length
      invariant 0 <= i <= buf.Length
      invariant forall j :: 0 <= j < i ==> buf[j] == rs[j]
      invariant forall j :: i <= j < buf.Length ==> buf[j] == s[j]
    {
      if buf[i] == '.' || buf[i] == '_' { buf[i] := ' '; }
      i := i + 1;
    }
    assert buf[..] == rs;
  }

  /**
   * Step 2: strstr of each tag in turn on the lower-cased copy; a hit ends the text there.
   * The returned length is where the terminators leave the string.
   */
  method CutAtTags(lower: array<char>, tags: seq<string>) returns (len: nat)
    ensures len == TagCut(lower[..], lower.Length, tags)
  {
    ghost var ls := lower[..];
    len := lower.Length;
    var k := 0;
    while k < |tags|
      invariant 0 <= k <= |tags|
      invariant len <= lower.Length
      invariant TagCut(ls, len, tags[k..]) == TagCut(ls, lower.Length, tags)
    {
      var pos := Find(lower, len, tags[k]);
      TagCutStep(ls, len, tags[k..]);
      assert tags[k..][1..] == tags[k + 1..];
      if pos.Some? { len := pos.value; }
      k := k + 1;
    }
  }

  lemma TagCutStep(lower: string, len: nat, tags: seq<string>)
    requires len <= |lower| && tags != []
    ensures TagCut(lower, len, tags) ==
      TagCut(lower, match IndexOf(lower[..len], tags[0]) case Some(p) => p case None => len, tags[1..])
  {
    if len == 0 {
      var next := match IndexOf(lower[..len], tags[0]) case Some(p) => p case None => len;
      assert next == 0;
    }
  }

  /** The start of buf[..len] once leading white space is skipped. */
  method SkipLeadingSpace(buf: array<char>, len: nat) returns (start: nat)
    requires len <= buf.Length
    ensures start <= len
    ensures buf[start..len] == TrimStart(buf[..len])
  {
    ghost var cut := buf[..len];
    start := 0;
    while start < len && IsAsciiSpace(buf[start])
      invariant 0 <= start <= len
      invariant forall j :: 0 <= j < start ==> IsAsciiSpace(cut[j])
    {
      start := start + 1;
    }
    AsciiSpaceRunIs(cut, start);
    assert cut[start..] == buf[start..len];
  }

  /** The end of buf[start..len] once trailing white space is dropped. */
  method DropTrailingSpace(buf: array<char>, start: nat, len: nat) returns (end: nat)
    requires start <= len <= buf.Length
    ensures start <= end <= len
    ensures buf[start..end] == TrimEnd(buf[start..len])
  {
    end := len;
    while end > start && IsAsciiSpace(buf[end - 1])
      invariant start <= end <= len
      invariant TrimEnd(buf[start..end]) == TrimEnd(buf[start..len])
    {
      assert buf[start..end][..end - 1 - start] == buf[start..end - 1];
      end := end - 1;
    }
  }

  /** Step 3, g_strstrip: the bounds of buf[..len] without surrounding white space. */
  method StripBounds(buf: array<char>, len: nat) returns (start: nat, end: nat)
    requires len <= buf.Length
    ensures start <= end <= len
    ensures buf[start..end] == Strip(buf[..len])
  {
    start := SkipLeadingSpace(buf, len);
    end := DropTrailingSpace(buf, start, len);
  }

  /** Step 4: the end of buf[start..end] once trailing '-' and ' ' are dropped. */
  method DropTrailingDashes(buf: array<char>, start: nat, end: nat) returns (e: nat)
    requires start <= end <= buf.Length
    ensures start <= e <= end
    ensures buf[start..e] == TrimDashes(buf[start..end])
  {
    e := end;
    while e > start && (buf[e - 1] == '-' || buf[e - 1] == ' ')
      invariant start <= e <= end
      invariant TrimDashes(buf[start..e]) == TrimDashes(buf[start..end])
    {
      assert buf[start..e][..e - 1 - start] == buf[start..e - 1];
      e := e - 1;
    }
  }

  /** Step 5 in place, with the cap_next flag of the source. */
  method CapitalizeRange(buf: array<char>, start: nat, end: nat)
    requires start <= end <= buf.Length
    modifies buf
    ensures buf[start..end] == Capitalize(old(buf[start..end]))
  {
    ghost var d := buf[start..end];
    ghost var cd := Capitalize(d);
    var capNext := true;
    var i := start;
    while i < end
      invariant start <= i <= end
      invariant forall j :: start <= j < i ==> buf[j] == cd[j - start]
      invariant forall j :: i <= j < end ==> buf[j] == d[j - start]
      invariant capNext == (i == start || d[i - start - 1] == ' ')
    {
      if capNext && IsLower(buf[i]) { buf[i] := ToUpper(buf[i]); }
      capNext := buf[i] == ' ';
      assert cd[i - start] == buf[i];
      i := i + 1;
    }
    assert buf[start..end] == cd;
  }

  /**
   * utils_normalize_title as the source runs it: a copy of the input is edited in place,
   * the cut points act as string terminators, and trimming moves the two ends inward.
   */
  method NormalizeTitle(raw: Option<string>) returns (r: Option<string>)
    ensures r == Normalize(raw)
  {
    if raw.None? { return None; }
    var t := NormalizeWith(raw.value, StripTags);
    r := Some(t);
  }

  /**
   * Steps 1 and 2 of utils_normalize_title: a fresh copy with separators replaced, and the
   * length the tag loop cuts it to.
   */
  method SeparateAndCut(s: string, tags: seq<string>) returns (buf: array<char>, len: nat)
    ensures fresh(buf) && buf[..] == ReplaceSeparators(s)
    ensures len == CutLength(s, tags) && len <= buf.Length
  {
    buf := new char[|s|];
    forall i | 0 <= i < |s| { buf[i] := s[i]; }
    assert buf[..] == s;
    SeparatorsToSpaces(buf);
    var lower := new char[buf.Length];
    forall j | 0 <= j < buf.Length { lower[j] := ToLower(buf[j]); }
    assert lower[..] == AsciiLower(buf[..]);
    len := CutAtTags(lower, tags);
  }

  /** The body of utils_normalize_title on a non-NULL input, for a given tag table. */
  method NormalizeWith(s: string, tags: seq<string>) returns (t: string)
    ensures t == Capitalize(CleanedWith(s, tags))
  {
    var buf, len := SeparateAndCut(s, tags);
    var start, end := StripBounds(buf, len);
    end := DropTrailingDashes(buf, start, end);
    CapitalizeRange(buf, start, end);
    t := buf[start..end];
  }

  // ---------------------------------------------------------------- runtime

  /** utils_format_runtime: "Unknown", "Hh Mm" or "Mm" for a runtime in minutes. */
  function FormatRuntime(minutes: int): (r: string)
    ensures minutes <= 0 ==> r == "Unknown"
  {
    if minutes <= 0 then "Unknown"
    else
      // minutes > 0, so C's truncating division and remainder agree with Dafny's
      var hours, mins := minutes / 60, minutes % 60;
      if hours > 0 then HoursText(hours, mins) else MinutesText(mins)
  }

  function HoursText(hours: nat, mins: nat): string
  {
    NatToString(hours) + "h " + NatToString(mins) + "m"
  }

  function MinutesText(mins: nat): string
  {
    NatToString(mins) + "m"
  }

  /** Reads "<m>m", the minutes field of a formatted runtime. */
  function ReadMinutes(u: string): Option<nat>
  {
    var d := DigitRun(u);
    if d > 0 && u[d..] == "m" then Some(LeadingNumber(u)) else None
  }

  /**
   * A reader for the texts FormatRuntime produces: "<h>h <m>m" with m < 60, or "<m>m".
   * It is the independent partner that shows no minutes are lost in the formatting.
   */
  function ReadRuntime(t: string): Option<int>
  {
    var d := DigitRun(t);
    if d == 0 then None
    else if t[d..] == "m" then Some(LeadingNumber(t))
    else if IsPrefix("h ", t[d..]) then
      match ReadMinutes(t[d + 2..])
      case Some(m) => if m < 60 then Some(LeadingNumber(t) * 60 + m) else None
      case None => None
    else None
  }

  /**
   * Every positive runtime is printed so that it reads back as the same number of minutes,
   * with an hours field exactly when it is at least an hour.
   */
  lemma FormatRuntimeReadBack(minutes: int)
    requires minutes > 0
    ensures ReadRuntime(FormatRuntime(minutes)) == Some(minutes)
    ensures 'h' in FormatRuntime(minutes) <==> minutes >= 60
  {
    var hours, mins := minutes / 60, minutes % 60;
    assert hours * 60 + mins == minutes;
    if hours > 0 {
      var r := HoursReadBack(hours, mins);
      assert r == HoursText(hours, mins);
    } else {
      var r := MinutesReadBack(mins);
      assert r == MinutesText(mins);
    }
  }

  lemma MinutesReadBack(mins: nat) returns (r: string)
    ensures r == NatToString(mins) + "m"
    ensures ReadRuntime(r) == Some(mins)
    ensures 'h' !in r
  {
    var ms := NatToString(mins);
    r := ms + "m";
    NatToStringReadBack(mins, "m");
    assert r[|ms|..] == "m";
    assert forall i :: 0 <= i < |r| - 1 ==> r[i] == ms[i];
  }

  lemma HoursReadBack(hours: nat, mins: nat) returns (r: string)
    requires mins < 60
    ensures r == NatToString(hours) + "h " + NatToString(mins) + "m"
    ensures ReadRuntime(r) == Some(hours * 60 + mins)
    ensures 'h' in r
  {
    var hs, ms := NatToString(hours), NatToString(mins);
    r := hs + "h " + ms + "m";
    var tail := "h " + ms + "m";
    assert r == hs + tail;
    NatToStringReadBack(hours, tail);
    assert r[|hs|..] == tail;
    assert tail != "m";
    assert IsPrefix("h ", tail);
    assert r[|hs| + 2..] == ms + "m";
    NatToStringReadBack(mins, "m");
    assert (ms + "m")[|ms|..] == "m";
    assert ReadMinutes(ms + "m") == Some(mins);
    var d := DigitRun(r);
    assert d == |hs|;
    assert r[d..] == tail;
    assert r[d..] != "m";
    assert IsPrefix("h ", r[d..]);
    assert r[d + 2..] == ms + "m";
    assert ReadMinutes(r[d + 2..]) == Some(mins);
    assert r[|hs|] == 'h';
  }
}
