/**
 * The file-name heuristics of the directory scanner (src/scanner.c): the video-extension
 * test, the year-token parser, season-directory names, SxxEyy markers and the show-name
 * clean-up. The regular expressions of the source are written out as scanners that pick
 * the same match a backtracking engine picks.
 */
module Classify {
  import opened Wrappers
  import opened Text
  import Utils

  // ---------------------------------------------------------------- searching

  /**
   * The patterns the scanner searches names for. Hits says whether a pattern matches
   * starting at a position; Leftmost finds the leftmost such position, which is the match
   * a regular-expression search reports.
   */
  datatype Probe = YearToken | SeasonEpisode | EpisodeTag | EpisodeMarker

  predicate Hits(p: Probe, s: string, i: nat)
  {
    match p
    case YearToken => YearGroupAt(s, i).Some?
    case SeasonEpisode => SxxEyyAt(s, i).Some?
    case EpisodeTag => EpisodeMarkAt(s, i).Some?
    case EpisodeMarker => i <= |s| && EpisodeMarkerAt(s, i) > 0
  }

  function Leftmost(p: Probe, s: string, i: nat): (r: Option<nat>)
    requires i <= |s|
    ensures r.Some? ==> i <= r.value <= |s|
    decreases |s| - i
  {
    if Hits(p, s, i) then Some(i)
    else if i == |s| then None
    else Leftmost(p, s, i + 1)
  }

  /** Leftmost finds a matching position with none before it, or reports that there is none. */
  lemma {:induction false} LeftmostIs(p: Probe, s: string, i: nat)
    requires i <= |s|
    ensures var r := Leftmost(p, s, i);
      (r.Some? ==> Hits(p, s, r.value) && forall j :: i <= j < r.value ==> !Hits(p, s, j)) &&
      (r.None? ==> forall j :: i <= j <= |s| ==> !Hits(p, s, j))
    decreases |s| - i
  {
    if !Hits(p, s, i) && i < |s| {
      LeftmostIs(p, s, i + 1);
    }
  }

  /** The end of the run of digits starting at i. */
  function DigitsEnd(s: string, i: nat): (j: nat)
    requires i <= |s|
    ensures i <= j <= |s|
    ensures j < |s| ==> !IsDigit(s[j])
    ensures forall k :: i <= k < j ==> IsDigit(s[k])
    decreases |s| - i
  {
    if i < |s| && IsDigit(s[i]) then DigitsEnd(s, i + 1) else i
  }

  /** The end of the run of \s characters starting at i. */
  function SpacesEnd(s: string, i: nat): (j: nat)
    requires i <= |s|
    ensures i <= j <= |s|
    ensures j < |s| ==> !IsSpace(s[j])
    ensures forall k :: i <= k < j ==> IsSpace(s[k])
    decreases |s| - i
  {
    if i < |s| && IsSpace(s[i]) then SpacesEnd(s, i + 1) else i
  }

  /** A run of digits from i to j that stops at a non-digit or at the end is the digit run at i. */
  lemma DigitsEndIs(s: string, i: nat, j: nat)
    requires i <= j <= |s|
    requires forall k :: i <= k < j ==> IsDigit(s[k])
    requires j == |s| || !IsDigit(s[j])
    ensures DigitsEnd(s, i) == j
  {
  }

  /** The value of the digits s[i..j] read as a decimal numeral. */
  function NumberIn(s: string, i: nat, j: nat): nat
    requires i <= j <= |s|
    decreases j - i
  {
    if i == j then 0 else NumberIn(s, i, j - 1) * 10 + DigitVal(s[j - 1])
  }

  /** One or two digits make at most 99. */
  lemma NumberInTwoDigits(s: string, i: nat, j: nat)
    requires i <= j <= |s| && j - i <= 2
    ensures NumberIn(s, i, j) <= 99
  {
    if j - i == 2 {
      assert NumberIn(s, i, j - 1) == DigitVal(s[i]);
    }
  }

  // ---------------------------------------------------------------- video files

  const VideoExtensions: seq<string> := [".mkv", ".mp4", ".avi", ".mov", ".m4v", ".wmv", ".flv", ".webm"]

  /** is_video_file: the text from the last '.' on equals a listed extension, ignoring case. */
  predicate IsVideoFile(name: string)
  {
    match LastIndexOf(name, '.')
    case None => false
    case Some(k) => exists e :: 0 <= e < |VideoExtensions| && CaseEq(name[k..], VideoExtensions[e])
  }

  /** Whether name ends with extension e, ignoring case. */
  predicate EndsWithExtension(name: string, e: nat)
    requires e < |VideoExtensions|
  {
    var x := VideoExtensions[e];
    |x| <= |name| && CaseEq(name[|name| - |x|..], x)
  }

  lemma ExtensionShape(e: nat)
    requires e < |VideoExtensions|
    ensures |VideoExtensions[e]| >= 2 && VideoExtensions[e][0] == '.'
    ensures forall j :: 1 <= j < |VideoExtensions[e]| ==> VideoExtensions[e][j] != '.' && !IsUpper(VideoExtensions[e][j])
  {
  }

  /** Lower-casing never produces or removes a '.'. */
  lemma LowerDot(c: char)
    ensures ToLower(c) == '.' <==> c == '.'
  {
  }

  /**
   * A name is a video file exactly when it ends, ignoring case, with one of the listed
   * extensions: the extension's own '.' is then the last '.' of the name.
   */
  lemma IsVideoFileBySuffix(name: string)
    ensures IsVideoFile(name) <==> exists e :: 0 <= e < |VideoExtensions| && EndsWithExtension(name, e)
  {
    if IsVideoFile(name) {
      var k := LastIndexOf(name, '.').value;
      var e :| 0 <= e < |VideoExtensions| && CaseEq(name[k..], VideoExtensions[e]);
      assert |name[k..]| == |VideoExtensions[e]|;
      assert EndsWithExtension(name, e);
    }
    forall e | 0 <= e < |VideoExtensions| && EndsWithExtension(name, e)
      ensures IsVideoFile(name)
    {
      var x := VideoExtensions[e];
      var k := |name| - |x|;
      ExtensionShape(e);
      var t := name[k..];
      assert AsciiLower(t) == AsciiLower(x);
      assert AsciiLower(t)[0] == ToLower(t[0]) && AsciiLower(x)[0] == ToLower(x[0]);
      LowerDot(t[0]);
      forall j | k < j < |name| ensures name[j] != '.' {
        assert AsciiLower(t)[j - k] == ToLower(t[j - k]) && AsciiLower(x)[j - k] == ToLower(x[j - k]);
        LowerDot(t[j - k]);
      }
      LastIndexOfIs(name, '.', k);
    }
  }

  /** A name without any '.' is never a video file. */
  lemma NoDotNoVideo(name: string)
    requires '.' !in name
    ensures !IsVideoFile(name)
  {
  }

  // ---------------------------------------------------------------- year token

  predicate IsYearLead(c: char) { c == '.' || c == '_' || c == ' ' || c == '[' || c == '(' }
  predicate IsYearTrail(c: char) { c == '.' || c == '_' || c == ' ' || c == ']' || c == ')' }

  /** [12][0-9]{3} at position k. */
  predicate YearDigitsAt(s: string, k: nat)
  {
    k + 4 <= |s| && (s[k] == '1' || s[k] == '2') && IsDigit(s[k + 1]) && IsDigit(s[k + 2]) && IsDigit(s[k + 3])
  }

  /** (?:[._ \])]|$) at position k; '$' also matches before a final newline. */
  predicate YearEndsAt(s: string, k: nat)
  {
    k == |s| || (k < |s| && IsYearTrail(s[k])) || (k + 1 == |s| && s[k] == '\n')
  }

  /**
   * Where the year digits start when the year pattern matches from position p:
   * the '^' alternative is tried first, then a leading separator.
   */
  function YearGroupAt(s: string, p: nat): Option<nat>
  {
    if p == 0 && YearDigitsAt(s, 0) && YearEndsAt(s, 4) then Some(0)
    else if p < |s| && IsYearLead(s[p]) && YearDigitsAt(s, p + 1) && YearEndsAt(s, p + 5) then Some(p + 1)
    else None
  }

  /** The start of the leftmost year-pattern match. */
  function YearMatch(s: string): (r: Option<nat>)
    ensures r.Some? ==> r.value <= |s| && YearGroupAt(s, r.value).Some?
    ensures r.Some? ==> forall q :: 0 <= q < r.value ==> YearGroupAt(s, q).None?
    ensures r.None? ==> forall q :: 0 <= q <= |s| ==> YearGroupAt(s, q).None?
  {
    LeftmostIs(YearToken, s, 0);
    assert forall q: nat :: Hits(YearToken, s, q) == YearGroupAt(s, q).Some?;
    Leftmost(YearToken, s, 0)
  }

  /** The file name without directory and without the text from its last '.' on. */
  function Stem(filename: string): (r: string)
    ensures '.' !in r || '.' in Basename(filename)
  {
    var base := Basename(filename);
    match LastIndexOf(base, '.')
    case None => base
    case Some(k) => base[..k]
  }

  datatype Parsed = Parsed(title: string, year: int)

  /**
   * Where the title text ends: at the start of the year match when that is past the
   * start of the stem, otherwise at the end of the stem.
   */
  function TitleEnd(stem: string): (n: nat)
    ensures n <= |stem|
    ensures n < |stem| ==> 0 < n && YearMatch(stem) == Some(n)
    ensures n == |stem| ==> YearMatch(stem).None? || YearMatch(stem).value == 0 || YearMatch(stem).value == |stem|
  {
    match YearMatch(stem)
    case Some(p) => if p > 0 then p else |stem|
    case None => |stem|
  }

  /** The value of the year group of the leftmost match, 0 when there is none. */
  function YearOf(stem: string): nat
  {
    match YearMatch(stem)
    case None => 0
    case Some(p) =>
      var g := YearGroupAt(stem, p).value;
      NumberIn(stem, g, g + 4)
  }

  /**
   * scanner_parse_filename. It always succeeds: the title is the normalised text before
   * the year token's match, or the normalised stem when there is no token or it starts
   * the name; the year is the token's value or 0.
   */
  function ParseFilename(filename: string): Parsed
  {
    var stem := Stem(filename);
    Parsed(Utils.Normalized(stem[..TitleEnd(stem)]), YearOf(stem))
  }

  lemma FourDigitsRange(s: string, g: nat)
    requires g + 4 <= |s| && (s[g] == '1' || s[g] == '2') && IsDigit(s[g + 1]) && IsDigit(s[g + 2]) && IsDigit(s[g + 3])
    ensures 1000 <= NumberIn(s, g, g + 4) <= 2999
  {
    assert NumberIn(s, g, g + 1) == DigitVal(s[g]);
    assert NumberIn(s, g, g + 2) == DigitVal(s[g]) * 10 + DigitVal(s[g + 1]);
    assert NumberIn(s, g, g + 3) == NumberIn(s, g, g + 2) * 10 + DigitVal(s[g + 2]);
  }

  /**
   * The parsed year is 0 exactly when the stem holds no year token; otherwise it is the
   * 4-digit value of the leftmost token, between 1000 and 2999.
   */
  lemma ParseFilenameYear(filename: string)
    ensures var y, stem := ParseFilename(filename).year, Stem(filename);
      (y == 0 <==> forall q :: 0 <= q <= |stem| ==> YearGroupAt(stem, q).None?) &&
      (y != 0 ==> 1000 <= y <= 2999)
  {
    YearOfRange(Stem(filename));
  }

  /** The year of a stem is 0 exactly when no year token matches, else a 4-digit value. */
  lemma YearOfRange(stem: string)
    ensures YearOf(stem) == 0 <==> forall q :: 0 <= q <= |stem| ==> YearGroupAt(stem, q).None?
    ensures YearOf(stem) != 0 ==> 1000 <= YearOf(stem) <= 2999
  {
    match YearMatch(stem)
    case None =>
    case Some(p) =>
      var g := YearGroupAt(stem, p).value;
      FourDigitsRange(stem, g);
  }

  /**
   * The title is no longer than the text it comes from, which stops before the year
   * token when the token is past the start, and it keeps no '.' or '_' separator.
   */
  lemma ParseFilenameTitle(filename: string)
    ensures var stem, t := Stem(filename), ParseFilename(filename).title;
      |t| <= TitleEnd(stem) && '.' !in t && '_' !in t
  {
    var stem := Stem(filename);
    var x := stem[..TitleEnd(stem)];
    assert ParseFilename(filename).title == Utils.Normalized(x);
    assert |x| == TitleEnd(stem);
    Utils.NormalizedLength(x);
    Utils.NormalizedNoSeparators(x);
  }

  // ---------------------------------------------------------------- season directories

  /** The first digit at or after i (|s| when there is none). */
  function SkipNonDigits(s: string, i: nat): (j: nat)
    requires i <= |s|
    ensures i <= j <= |s|
    ensures j < |s| ==> IsDigit(s[j])
    ensures forall k :: i <= k < j ==> !IsDigit(s[k])
    decreases |s| - i
  {
    if i < |s| && !IsDigit(s[i]) then SkipNonDigits(s, i + 1) else i
  }

  predicate IsShorthandSeparator(c: char) { c == ' ' || c == '-' || c == '_' || c == '.' }

  /** The first position at or after i that is not ' ', '-', '_' or '.'. */
  function SkipSeparators(s: string, i: nat): (j: nat)
    requires i <= |s|
    ensures i <= j <= |s|
    ensures j < |s| ==> !IsShorthandSeparator(s[j])
    ensures forall k :: i <= k < j ==> IsShorthandSeparator(s[k])
    decreases |s| - i
  {
    if i < |s| && IsShorthandSeparator(s[i]) then SkipSeparators(s, i + 1) else i
  }

  predicate HasSeasonWord(name: string)
  {
    |name| >= 6 && (CaseEq(name[..6], "Season") || CaseEq(name[..6], "Series"))
  }

  /**
   * is_season_directory: the season number a directory name announces, if any.
   * "Season"/"Series" (any case) followed somewhere by a digit; or 'S'/'s', optional
   * ' ', '-', '_', '.', then a digit. The "Specials" test comes after the 'S' test.
   */
  function IsSeasonDirectory(name: string): Option<nat>
  {
    if HasSeasonWord(name) then
      var j := SkipNonDigits(name, 6);
      if j < |name| then Some(LeadingNumber(name[j..])) else None
    else if |name| > 0 && ToUpper(name[0]) == 'S' then
      var j := SkipSeparators(name, 1);
      if j < |name| && IsDigit(name[j]) then Some(LeadingNumber(name[j..])) else None
    else if CaseEq(name, "Specials") then Some(0)
    else None
  }

  /**
   * The "Specials" branch can never be taken: such a name starts with 'S' or 's', so the
   * shorthand test sees it first, and after the 'S' comes 'p', which is no digit.
   */
  lemma SpecialsIsNotSeasonDirectory(name: string)
    requires CaseEq(name, "Specials")
    ensures IsSeasonDirectory(name) == None
  {
    var l, k := AsciiLower(name), AsciiLower("Specials");
    assert |name| == 8;
    assert l[0] == ToLower(name[0]) && k[0] == 's';
    assert l[1] == ToLower(name[1]) && k[1] == 'p';
    assert !HasSeasonWord(name) by {
      var w := name[..6];
      assert AsciiLower(w)[1] == ToLower(name[1]);
      assert AsciiLower("Season")[1] == 'e' && AsciiLower("Series")[1] == 'e';
    }
    assert SkipSeparators(name, 1) == 1;
  }

  /** A shorthand name is read by its digit run: "S01" and "s-1" both mean season 1. */
  lemma ShorthandSeason(name: string, j: nat)
    requires 1 <= j < |name| && (name[0] == 'S' || name[0] == 's') && !HasSeasonWord(name)
    requires forall k :: 1 <= k < j ==> IsShorthandSeparator(name[k])
    requires IsDigit(name[j])
    ensures IsSeasonDirectory(name) == Some(LeadingNumber(name[j..]))
  {
    assert SkipSeparators(name, 1) == j;
  }

  /** A name that the season-word test accepts but that has no digit is not a season directory. */
  lemma SeasonWordNeedsDigit(name: string)
    requires HasSeasonWord(name)
    requires forall k :: 6 <= k < |name| ==> !IsDigit(name[k])
    ensures IsSeasonDirectory(name) == None
  {
  }

  // ---------------------------------------------------------------- SxxEyy

  predicate IsS(c: char) { c == 'S' || c == 's' }
  predicate IsE(c: char) { c == 'E' || c == 'e' }

  function Min(a: nat, b: nat): nat { if a < b then a else b }

  /**
   * [Ss](\d{1,2})[Ee](\d{1,2}) at position i: (season, episode). The first group has to be
   * the whole digit run (a third digit, or a digit where the 'E' should be, fails it);
   * the second takes up to two digits.
   */
  function SxxEyyAt(s: string, i: nat): Option<(nat, nat)>
  {
    if i < |s| && IsS(s[i]) then
      var e1 := DigitsEnd(s, i + 1);
      if 1 <= e1 - (i + 1) <= 2 && e1 < |s| && IsE(s[e1]) then
        var e2 := DigitsEnd(s, e1 + 1);
        if e2 > e1 + 1 then Some((NumberIn(s, i + 1, e1), NumberIn(s, e1 + 1, Min(e2, e1 + 3))))
        else None
      else None
    else None
  }

  /**
   * The regular expression's own reading: an 'S', a digits of season, an 'E', b digits of
   * episode, starting at i.
   */
  predicate SxxEyyShape(s: string, i: nat, a: nat, b: nat)
  {
    1 <= a <= 2 && 1 <= b <= 2 && i + 2 + a + b <= |s| && IsS(s[i]) && IsE(s[i + 1 + a]) &&
    (forall k :: i + 1 <= k < i + 1 + a ==> IsDigit(s[k])) &&
    (forall k :: i + 2 + a <= k < i + 2 + a + b ==> IsDigit(s[k]))
  }

  /**
   * SxxEyyAt finds a match exactly where the pattern can match, and then reports the
   * only possible season group and the longest episode group, as backtracking does.
   */
  lemma SxxEyyAtIsPattern(s: string, i: nat)
    ensures SxxEyyAt(s, i).Some? <==> exists a, b :: SxxEyyShape(s, i, a, b)
    ensures SxxEyyAt(s, i).Some? ==>
      exists a, b :: SxxEyyShape(s, i, a, b) &&
        SxxEyyAt(s, i).value == (NumberIn(s, i + 1, i + 1 + a), NumberIn(s, i + 2 + a, i + 2 + a + b)) &&
        forall a', b' :: SxxEyyShape(s, i, a', b') ==> a' == a && b' <= b
  {
    if SxxEyyAt(s, i).Some? {
      var e1 := DigitsEnd(s, i + 1);
      assert e1 < |s| && IsE(s[e1]);
      var e2 := DigitsEnd(s, e1 + 1);
      var a, b := e1 - (i + 1), Min(e2, e1 + 3) - (e1 + 1);
      assert SxxEyyShape(s, i, a, b);
      forall a': nat, b': nat | SxxEyyShape(s, i, a', b') ensures a' == a && b' <= b {
        DigitsEndIs(s, i + 1, i + 1 + a');
      }
    }
    forall a: nat, b: nat | SxxEyyShape(s, i, a, b) ensures SxxEyyAt(s, i).Some? {
      DigitsEndIs(s, i + 1, i + 1 + a);
    }
  }

  /** The leftmost SxxEyy match of a name. */
  function FirstSxxEyy(s: string): Option<(nat, nat)>
  {
    match Leftmost(SeasonEpisode, s, 0)
    case None => None
    case Some(i) => SxxEyyAt(s, i)
  }

  /** FirstSxxEyy reports the match at the leftmost position where the pattern matches. */
  lemma FirstSxxEyyIsLeftmost(s: string)
    ensures var r := FirstSxxEyy(s);
      r.Some? ==> exists i :: 0 <= i <= |s| && SxxEyyAt(s, i) == r && forall j :: 0 <= j < i ==> SxxEyyAt(s, j).None?
    ensures FirstSxxEyy(s).None? ==> forall i :: 0 <= i <= |s| ==> SxxEyyAt(s, i).None?
  {
    LeftmostIs(SeasonEpisode, s, 0);
    assert forall q: nat :: Hits(SeasonEpisode, s, q) == SxxEyyAt(s, q).Some?;
  }

  /** parse_sxxeyy_from_filename: (season, episode) of the first match; None is FALSE with 0, 0. */
  function ParseSxxEyy(name: Option<string>): (r: Option<(nat, nat)>)
    ensures name.None? ==> r.None?
    ensures r.Some? ==> r.value.0 <= 99 && r.value.1 <= 99
  {
    match name
    case None => None
    case Some(s) =>
      var r := FirstSxxEyy(s);
      FirstSxxEyyIsLeftmost(s);
      SxxEyyBound(s);
      r
  }

  lemma SxxEyyBound(s: string)
    ensures forall i :: SxxEyyAt(s, i).Some? ==> SxxEyyAt(s, i).value.0 <= 99 && SxxEyyAt(s, i).value.1 <= 99
  {
    forall i: nat | SxxEyyAt(s, i).Some?
      ensures SxxEyyAt(s, i).value.0 <= 99 && SxxEyyAt(s, i).value.1 <= 99
    {
      var e1 := DigitsEnd(s, i + 1);
      assert e1 < |s|;
      var e2 := DigitsEnd(s, e1 + 1);
      NumberInTwoDigits(s, i + 1, e1);
      NumberInTwoDigits(s, e1 + 1, Min(e2, e1 + 3));
    }
  }

  /**
   * What one directory entry contributes to detect_season_from_episode_filenames: hidden
   * names and non-video names are skipped, a video name gives the season of its first
   * SxxEyy marker, if any.
   */
  function EntrySeason(name: string): Option<nat>
  {
    if |name| > 0 && name[0] == '.' then None
    else if !IsVideoFile(name) then None
    else match FirstSxxEyy(name)
      case None => None
      case Some(m) => Some(m.0)
  }

  /** What each entry of a listing contributes, in listing order. */
  function EntrySeasons(names: seq<string>): (r: seq<Option<nat>>)
    ensures |r| == |names|
  {
    seq(|names|, j requires 0 <= j < |names| => EntrySeason(names[j]))
  }

  /**
   * The rule of detect_season_from_episode_filenames stated on the whole listing: a season
   * is detected when some entry carries one and every entry that carries one agrees.
   */
  ghost function Agreed(ss: seq<Option<nat>>): Option<nat>
  {
    if exists i :: 0 <= i < |ss| && ss[i].Some? && forall j :: 0 <= j < |ss| && ss[j].Some? ==> ss[j] == ss[i]
    then
      var i :| 0 <= i < |ss| && ss[i].Some? && forall j :: 0 <= j < |ss| && ss[j].Some? ==> ss[j] == ss[i];
      ss[i]
    else None
  }

  ghost function DetectedSeason(names: seq<string>): Option<nat>
  {
    Agreed(EntrySeasons(names))
  }

  /**
   * detect_season_from_episode_filenames over the names of a directory listing, in listing
   * order: the first marked name fixes the season and any later disagreement ends the loop.
   */
  method DetectSeason(names: seq<string>) returns (r: Option<nat>)
    ensures r == DetectedSeason(names)
  {
    ghost var ss := EntrySeasons(names);
    ghost var first := 0;
    var found := false;
    var season: nat := 0;
    var i := 0;
    while i < |names|
      invariant 0 <= i <= |names|
      invariant !found ==> forall j :: 0 <= j < i ==> ss[j].None?
      invariant found ==> first < i && ss[first] == Some(season)
      invariant found ==> AgreeUpTo(ss, i, season)
    {
      var m := EntrySeason(names[i]);
      assert m == ss[i];
      if m.Some? {
        var s := m.value;
        if !found {
          NoneAgrees(ss, i, s);
          found := true;
          season := s;
          first := i;
        } else if s != season {
          DisagreementMeansNone(ss, first, i);
          return None;
        }
      }
      if found {
        AgreeExtend(ss, i, season);
      }
      i := i + 1;
    }
    if found {
      AgreementMeansSome(ss, first);
      return Some(season);
    }
    return None;
  }

  /** Every marked entry among the first i carries season s. */
  ghost predicate AgreeUpTo(ss: seq<Option<nat>>, i: nat, s: nat)
    requires i <= |ss|
  {
    forall j :: 0 <= j < i && ss[j].Some? ==> ss[j] == Some(s)
  }

  lemma NoneAgrees(ss: seq<Option<nat>>, i: nat, s: nat)
    requires i <= |ss| && forall j :: 0 <= j < i ==> ss[j].None?
    ensures AgreeUpTo(ss, i, s)
  {
  }

  lemma AgreeExtend(ss: seq<Option<nat>>, i: nat, s: nat)
    requires i < |ss| && AgreeUpTo(ss, i, s) && (ss[i].Some? ==> ss[i] == Some(s))
    ensures AgreeUpTo(ss, i + 1, s)
  {
  }

  /** Two marked entries with different seasons mean no season is detected. */
  lemma DisagreementMeansNone(ss: seq<Option<nat>>, w: nat, i: nat)
    requires w < i < |ss| && ss[w].Some? && ss[i].Some? && ss[w] != ss[i]
    ensures Agreed(ss) == None
  {
  }

  /** A marked entry agreeing with all the others fixes the detected season. */
  lemma AgreementMeansSome(ss: seq<Option<nat>>, w: nat)
    requires w < |ss| && ss[w].Some?
    requires forall j :: 0 <= j < |ss| && ss[j].Some? ==> ss[j] == ss[w]
    ensures Agreed(ss) == ss[w]
  {
  }

  /**
   * DetectedSeason in both directions: Some(s) exactly when some entry is marked and every
   * marked entry is of season s.
   */
  lemma DetectedSeasonIs(names: seq<string>, s: nat)
    ensures var ss := EntrySeasons(names);
      DetectedSeason(names) == Some(s) <==>
        (exists i :: 0 <= i < |ss| && ss[i].Some?) && (forall j :: 0 <= j < |ss| && ss[j].Some? ==> ss[j] == Some(s))
  {
    var ss := EntrySeasons(names);
    if Agreed(ss) == Some(s) {
      var i :| 0 <= i < |ss| && ss[i].Some? && forall j :: 0 <= j < |ss| && ss[j].Some? ==> ss[j] == ss[i];
    }
    if (exists i :: 0 <= i < |ss| && ss[i].Some?) && (forall j :: 0 <= j < |ss| && ss[j].Some? ==> ss[j] == Some(s)) {
      var i :| 0 <= i < |ss| && ss[i].Some?;
      AgreementMeansSome(ss, i);
    }
  }

  // ---------------------------------------------------------------- episode numbers

  /** [Ee](\d+) at position i: the episode number. */
  function EpisodeMarkAt(s: string, i: nat): Option<nat>
  {
    if i + 1 < |s| && IsE(s[i]) && IsDigit(s[i + 1]) then Some(NumberIn(s, i + 1, DigitsEnd(s, i + 1))) else None
  }

  /** The episode number scan_tv_season records: the first [Ee]\d+ match, or 0. */
  function EpisodeNumber(name: string): (n: nat)
    ensures n != 0 ==> exists i :: 0 <= i <= |name| && EpisodeMarkAt(name, i) == Some(n) &&
                          forall j :: 0 <= j < i ==> EpisodeMarkAt(name, j).None?
    ensures (forall i :: 0 <= i <= |name| ==> EpisodeMarkAt(name, i).None?) ==> n == 0
  {
    LeftmostIs(EpisodeTag, name, 0);
    assert forall q: nat :: Hits(EpisodeTag, name, q) == EpisodeMarkAt(name, q).Some?;
    match Leftmost(EpisodeTag, name, 0)
    case None => 0
    case Some(i) => EpisodeMarkAt(name, i).value
  }

  // ---------------------------------------------------------------- show names

  /** \b before a word character at i. */
  predicate BoundaryBefore(s: string, i: nat)
    requires i <= |s|
  {
    i == 0 || !IsWordChar(s[i - 1])
  }

  /** \b after a word character ending at k. */
  predicate BoundaryAfter(s: string, k: nat)
    requires k <= |s|
  {
    k == |s| || !IsWordChar(s[k])
  }

  /** The length of a match of (?i)\bS\s*\d{1,2}\b at i, 0 when none. */
  function SeasonMarkAt(s: string, i: nat): (n: nat)
    requires i <= |s|
    ensures i + n <= |s|
  {
    if i < |s| && IsS(s[i]) && BoundaryBefore(s, i) then
      var d := SpacesEnd(s, i + 1);
      var e := DigitsEnd(s, d);
      if 1 <= e - d <= 2 && BoundaryAfter(s, e) then e - i else 0
    else 0
  }

  /** The length of a match of (?i)\b(Season|Series)\s*\d+\b at i, 0 when none. */
  function SeasonWordAt(s: string, i: nat): (n: nat)
    requires i <= |s|
    ensures i + n <= |s|
  {
    if i + 6 <= |s| && HasSeasonWord(s[i..]) && BoundaryBefore(s, i) then
      var d := SpacesEnd(s, i + 6);
      var e := DigitsEnd(s, d);
      if e > d && BoundaryAfter(s, e) then e - i else 0
    else 0
  }

  /** The length of a match of \s{2,} at i, 0 when none. */
  function SpaceRunAt(s: string, i: nat): (n: nat)
    requires i <= |s|
    ensures i + n <= |s|
  {
    var e := SpacesEnd(s, i);
    if e - i >= 2 then e - i else 0
  }

  datatype Pattern = SeasonMark | SeasonWord | Spaces

  function MatchLength(p: Pattern, s: string, i: nat): (n: nat)
    requires i <= |s|
    ensures i + n <= |s|
  {
    match p
    case SeasonMark => SeasonMarkAt(s, i)
    case SeasonWord => SeasonWordAt(s, i)
    case Spaces => SpaceRunAt(s, i)
  }

  /**
   * g_regex_replace from position i on: every match, leftmost first and not overlapping,
   * becomes rep; the text between matches is kept.
   */
  function ReplaceFrom(p: Pattern, s: string, i: nat, rep: string): string
    requires i <= |s|
    decreases |s| - i
  {
    if i == |s| then []
    else
      var n := MatchLength(p, s, i);
      if n > 0 then rep + ReplaceFrom(p, s, i + n, rep)
      else [s[i]] + ReplaceFrom(p, s, i + 1, rep)
  }

  function ReplaceAll(p: Pattern, s: string, rep: string): string
  {
    ReplaceFrom(p, s, 0, rep)
  }

  /** Whether s has two \s characters in a row. */
  predicate HasDoubleSpace(s: string)
  {
    exists k :: 0 <= k < |s| - 1 && IsSpace(s[k]) && IsSpace(s[k + 1])
  }

  /**
   * The clean-up derive_show_name_from_dirname applies to a normalised name: cut at the
   * first " - ", drop season markers, collapse white space, strip.
   */
  function DirnameShowName(show: string): string
  {
    var cut := match IndexOf(show, " - ") case Some(k) => show[..k] case None => show;
    var noMark := ReplaceAll(SeasonMark, cut, "");
    var noWord := ReplaceAll(SeasonWord, noMark, "");
    var single := ReplaceAll(Spaces, noWord, " ");
    Strip(single)
  }

  /** derive_show_name_from_dirname on a non-NULL name. */
  function ShowNameFromDirname(dirName: string): string
  {
    DirnameShowName(Utils.Normalized(dirName))
  }

  /** Two white-space characters in a row are a match of \s{2,}. */
  lemma TwoSpacesMatch(s: string, i: nat)
    requires i <= |s|
    ensures i + 1 < |s| && IsSpace(s[i]) && IsSpace(s[i + 1]) ==> SpaceRunAt(s, i) > 0
  {
    if i + 1 < |s| && IsSpace(s[i]) && IsSpace(s[i + 1]) {
      var t := s[i..];
      assert t[1..] == s[i + 1..];
      assert t[0] == s[i] && t[1..][0] == s[i + 1];
    }
  }

  /** Collapsing leaves no two white-space characters in a row, from position i on. */
  lemma {:induction false} CollapseFrom(s: string, i: nat)
    requires i <= |s|
    ensures var r := ReplaceFrom(Spaces, s, i, " ");
      !HasDoubleSpace(r) && (r != [] && IsSpace(r[0]) ==> i < |s| && IsSpace(s[i]))
    decreases |s| - i
  {
    var r := ReplaceFrom(Spaces, s, i, " ");
    TwoSpacesMatch(s, i);
    if i < |s| {
      var n := SpaceRunAt(s, i);
      var rest := ReplaceFrom(Spaces, s, i + n, " ");
      if n > 0 {
        CollapseFrom(s, i + n);
        assert r == " " + rest;
      } else {
        rest := ReplaceFrom(Spaces, s, i + 1, " ");
        CollapseFrom(s, i + 1);
        assert r == [s[i]] + rest;
      }
      forall k | 0 <= k < |r| - 1 ensures !(IsSpace(r[k]) && IsSpace(r[k + 1])) {
        assert r[k + 1] == rest[k];
        if k > 0 {
          assert r[k] == rest[k - 1];
        }
      }
    }
  }

  /** Stripping keeps a text free of double white space. */
  lemma {:induction false} StripKeepsSingle(s: string)
    requires !HasDoubleSpace(s)
    ensures !HasDoubleSpace(Strip(s))
  {
    var r := Strip(s);
    var a, b := StripPiece(s);
    forall k | 0 <= k < |r| - 1 ensures !(IsSpace(r[k]) && IsSpace(r[k + 1])) {
      assert r[k] == s[a + k] && r[k + 1] == s[a + k + 1];
      assert !(IsSpace(s[a + k]) && IsSpace(s[a + k + 1]));
    }
  }

  /** The clean-up leaves no surrounding and no doubled white space. */
  lemma DirnameShowNameShape(show: string)
    ensures var r := DirnameShowName(show);
      !HasDoubleSpace(r) && (r == [] || (!IsAsciiSpace(r[0]) && !IsAsciiSpace(r[|r| - 1])))
  {
    var cut := match IndexOf(show, " - ") case Some(k) => show[..k] case None => show;
    var noMark := ReplaceAll(SeasonMark, cut, "");
    var noWord := ReplaceAll(SeasonWord, noMark, "");
    CollapseFrom(noWord, 0);
    StripKeepsSingle(ReplaceAll(Spaces, noWord, " "));
  }

  /** The show name derived from a directory has no surrounding and no doubled white space. */
  lemma ShowNameFromDirnameShape(dirName: string)
    ensures var r := ShowNameFromDirname(dirName);
      !HasDoubleSpace(r) && (r == [] || (!IsAsciiSpace(r[0]) && !IsAsciiSpace(r[|r| - 1])))
  {
    DirnameShowNameShape(Utils.Normalized(dirName));
  }

  /** The length of a match of (?i)\bS\s*\d{1,2}\s*E\s*\d{1,2}\b at i, 0 when none. */
  function EpisodeMarkerAt(s: string, i: nat): (n: nat)
    requires i <= |s|
    ensures i + n <= |s|
  {
    if i < |s| && IsS(s[i]) && BoundaryBefore(s, i) then
      var d := SpacesEnd(s, i + 1);
      var e := DigitsEnd(s, d);
      if 1 <= e - d <= 2 then
        var f := SpacesEnd(s, e);
        if f < |s| && IsE(s[f]) then
          var g := SpacesEnd(s, f + 1);
          var h := DigitsEnd(s, g);
          if 1 <= h - g <= 2 && BoundaryAfter(s, h) then h - i else 0
        else 0
      else 0
    else 0
  }

  /** The start of the first episode marker of s. */
  function FirstEpisodeMarker(s: string): (r: Option<nat>)
    ensures r.Some? ==> r.value <= |s| && EpisodeMarkerAt(s, r.value) > 0
    ensures r.Some? ==> forall q :: 0 <= q < r.value ==> EpisodeMarkerAt(s, q) == 0
    ensures r.None? ==> forall q :: 0 <= q <= |s| ==> EpisodeMarkerAt(s, q) == 0
  {
    LeftmostIs(EpisodeMarker, s, 0);
    assert forall q: nat :: q <= |s| ==> Hits(EpisodeMarker, s, q) == (EpisodeMarkerAt(s, q) > 0);
    Leftmost(EpisodeMarker, s, 0)
  }

  /**
   * The clean-up derive_show_name_from_episode_filename applies to a normalised name: cut
   * before its first SxxEyy marker when that is not at the start, then strip.
   */
  function EpisodeShowName(norm: string): string
  {
    match FirstEpisodeMarker(norm)
    case Some(p) => if p > 0 then Strip(norm[..p]) else Strip(norm)
    case None => Strip(norm)
  }

  /** derive_show_name_from_episode_filename on a non-NULL name. */
  function ShowNameFromEpisodeFilename(name: string): string
  {
    EpisodeShowName(Utils.Normalized(name))
  }

  /** Where the piece Strip keeps lies in its input. */
  lemma StripPiece(x: string) returns (a: nat, b: nat)
    ensures a <= b <= |x| && Strip(x) == x[a..b]
  {
    a, b :| 0 <= a <= b <= |x| && Strip(x) == x[a..b];
  }

  lemma SliceOfPrefix(s: string, p: nat, a: nat, b: nat)
    requires a <= b <= p <= |s|
    ensures s[..p][a..b] == s[a..b]
  {
  }

  /**
   * The clean-up keeps a piece of its input, which ends at or before the first marker
   * when that marker is past the start.
   */
  lemma EpisodeShowNamePiece(norm: string) returns (a: nat, b: nat)
    ensures a <= b <= |norm| && EpisodeShowName(norm) == norm[a..b]
    ensures match FirstEpisodeMarker(norm) case Some(p) => (p > 0 ==> b <= p) case None => true
    ensures var r := EpisodeShowName(norm); r == [] || (!IsAsciiSpace(r[0]) && !IsAsciiSpace(r[|r| - 1]))
  {
    var m := FirstEpisodeMarker(norm);
    if m.Some? && m.value > 0 {
      a, b := StripPiece(norm[..m.value]);
      SliceOfPrefix(norm, m.value, a, b);
    } else {
      a, b := StripPiece(norm);
    }
  }
}
