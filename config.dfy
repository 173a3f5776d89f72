// The settings file: the library paths kept as a ';'-joined string (g_strjoinv /
// g_strsplit), load and save over an abstract key file, the setters, and the adding and
// removing of library paths.

module Config {
  import opened Wrappers
  import opened Text
  import opened App

  // ---------------------------------------------------------------- joining and splitting

  /** g_strjoinv(";", xs). */
  function Join(xs: seq<string>): (s: string)
    ensures xs == [] ==> s == []
  {
    if xs == [] then [] else if |xs| == 1 then xs[0] else xs[0] + ";" + Join(xs[1..])
  }

  /** The pieces of s between its ';' separators; a string without one is a single piece. */
  function Pieces(s: string): (r: seq<string>)
    ensures |r| >= 1
    decreases |s|
  {
    match IndexOf(s, ";")
    case None => [s]
    case Some(k) => [s[..k]] + Pieces(s[k + 1..])
  }

  /** g_strsplit(s, ";", -1): the empty string gives no piece. */
  function Split(s: string): seq<string>
  {
    if s == [] then [] else Pieces(s)
  }

  predicate NoSeparator(xs: seq<string>) { forall i :: 0 <= i < |xs| ==> ';' !in xs[i] }

  /** A string without ';' is found to hold no separator. */
  lemma NoSemicolonNotFound(x: string)
    requires ';' !in x
    ensures IndexOf(x, ";") == None
  {
    forall k | 0 <= k < |x| ensures !OccursAt(x, ";", k) {
      assert x[k..k + 1] == [x[k]] && x[k] in x;
    }
  }

  /** The first separator of x + ";" + rest, for x without ';', is the one after x. */
  lemma FirstSeparator(x: string, rest: string)
    requires ';' !in x
    ensures IndexOf(x + ";" + rest, ";") == Some(|x|)
  {
    var s := x + ";" + rest;
    assert s[|x|..|x| + 1] == ";";
    assert OccursAt(s, ";", |x|);
    forall k | 0 <= k < |x| ensures !OccursAt(s, ";", k) {
      assert s[k..k + 1] == [x[k]] && x[k] in x;
    }
  }

  /** Splitting the join of a non-empty list of separator-free pieces gives the pieces back. */
  lemma {:induction false} PiecesOfJoin(xs: seq<string>)
    requires xs != [] && NoSeparator(xs)
    ensures Pieces(Join(xs)) == xs
    decreases |xs|
  {
    if |xs| == 1 {
      NoSemicolonNotFound(xs[0]);
    } else {
      var rest := Join(xs[1..]);
      FirstSeparator(xs[0], rest);
      var s := xs[0] + ";" + rest;
      assert s[..|xs[0]|] == xs[0];
      assert s[|xs[0]| + 1..] == rest;
      PiecesOfJoin(xs[1..]);
      assert [xs[0]] + xs[1..] == xs;
    }
  }

  /**
   * The round trip of the list through the settings file: a list whose entries hold no
   * ';' and whose join is not empty splits back to itself.
   */
  lemma SplitJoin(xs: seq<string>)
    requires NoSeparator(xs) && Join(xs) != []
    ensures Split(Join(xs)) == xs
  {
    PiecesOfJoin(xs);
  }

  /** Joining the pieces of a string gives the string back. */
  lemma {:induction false} JoinPieces(s: string)
    ensures Join(Pieces(s)) == s
    decreases |s|
  {
    match IndexOf(s, ";")
    case None =>
    case Some(k) =>
      JoinPieces(s[k + 1..]);
      assert s[k..k + 1] == ";";
      assert s == s[..k] + ";" + s[k + 1..];
  }

  /** The other round trip: a stored string survives being split and joined again. */
  lemma JoinSplit(s: string)
    ensures Join(Split(s)) == s
  {
    if s != [] { JoinPieces(s); }
  }

  // ---------------------------------------------------------------- load and save

  /**
   * The keys of the settings file that matter: [tmdb] api_key, [player] command and
   * [library] paths; None is an absent key.
   */
  datatype KeyFile = KeyFile(apiKey: Option<string>, player: Option<string>, paths: Option<string>)

  /** The library paths after loading a stored value: only a non-empty value replaces them. */
  function LoadedPaths(current: seq<string>, stored: Option<string>): seq<string>
  {
    if stored.Some? && |stored.value| > 0 then Split(stored.value) else current
  }

  /** The key file config_save writes for a state: the paths key only for a non-empty list. */
  function SavedFile(apiKey: Option<string>, player: Option<string>, paths: seq<string>): (k: KeyFile)
    ensures k.apiKey == apiKey && k.player == player
    ensures k.paths.Some? <==> |paths| > 0
  {
    KeyFile(apiKey, player, if |paths| > 0 then Some(Join(paths)) else None)
  }

  /**
   * Saving and loading again, into a state holding `current`, gives the same paths back
   * whenever no path holds ';' and the list is not the single empty path (whose join is
   * empty and is not loaded). An empty list writes no key, so loading keeps `current`.
   */
  lemma SaveThenLoad(current: seq<string>, apiKey: Option<string>, player: Option<string>, paths: seq<string>)
    requires NoSeparator(paths) && paths != [[]]
    ensures paths != [] ==> LoadedPaths(current, SavedFile(apiKey, player, paths).paths) == paths
    ensures paths == [] ==> LoadedPaths(current, SavedFile(apiKey, player, paths).paths) == current
  {
    if |paths| > 0 {
      assert |paths| >= 2 ==> |Join(paths)| >= 1;
      if |paths| == 1 { assert paths[0] != []; }
      SplitJoin(paths);
    }
  }

  /**
   * config_load from a key file, None when the file cannot be read or parsed: then it
   * fails and nothing changes; otherwise each key present replaces its field, and the
   * paths follow LoadedPaths.
   */
  method Load(app: ReelApp, file: Option<KeyFile>) returns (ok: bool)
    modifies app`tmdbApiKey, app`playerCommand, app`libraryPaths
    ensures ok == file.Some?
    ensures !ok ==> app.tmdbApiKey == old(app.tmdbApiKey) && app.playerCommand == old(app.playerCommand) &&
                    app.libraryPaths == old(app.libraryPaths)
    ensures ok ==> app.tmdbApiKey == (if file.value.apiKey.Some? then file.value.apiKey else old(app.tmdbApiKey))
    ensures ok ==> app.playerCommand == (if file.value.player.Some? then file.value.player else old(app.playerCommand))
    ensures ok ==> app.libraryPaths == LoadedPaths(old(app.libraryPaths), file.value.paths)
  {
    if file.None? {
      return false;
    }
    var k := file.value;
    if k.apiKey.Some? {
      app.tmdbApiKey := k.apiKey;
    }
    if k.player.Some? {
      app.playerCommand := k.player;
    }
    if k.paths.Some? && |k.paths.value| > 0 {
      app.libraryPaths := Split(k.paths.value);
    }
    return true;
  }

  /**
   * config_save: the key file written for the current state, and whether writing it
   * succeeded (writeOk stands for g_file_set_contents).
   */
  method Save(app: ReelApp, writeOk: bool) returns (ok: bool, written: KeyFile)
    ensures ok == writeOk
    ensures written == SavedFile(app.tmdbApiKey, app.playerCommand, app.libraryPaths)
  {
    var paths: Option<string> := None;
    if |app.libraryPaths| > 0 {
      paths := Some(Join(app.libraryPaths));
    }
    written := KeyFile(app.tmdbApiKey, app.playerCommand, paths);
    ok := writeOk;
  }

  /** config_set_api_key: the key is replaced by a copy of the argument (NULL included). */
  method SetApiKey(app: ReelApp, key: Option<string>)
    modifies app`tmdbApiKey
    ensures app.tmdbApiKey == key
  {
    app.tmdbApiKey := key;
  }

  /** config_set_player_command. */
  method SetPlayerCommand(app: ReelApp, command: Option<string>)
    modifies app`playerCommand
    ensures app.playerCommand == command
  {
    app.playerCommand := command;
  }

  // ---------------------------------------------------------------- the library paths

  /** The list without its first entry equal to x; the list itself when there is none. */
  function RemoveFirst(xs: seq<string>, x: string): (r: seq<string>)
    ensures x !in xs ==> r == xs
    ensures x in xs ==> |r| == |xs| - 1
  {
    if xs == [] then []
    else if xs[0] == x then xs[1..]
    else [xs[0]] + RemoveFirst(xs[1..], x)
  }

  /** The first index holding x. */
  function FirstIndex(xs: seq<string>, x: string): (k: nat)
    requires x in xs
    ensures k < |xs| && xs[k] == x && x !in xs[..k]
  {
    if xs[0] == x then 0 else 1 + FirstIndex(xs[1..], x)
  }

  /** Removing takes out exactly the first equal entry and keeps the others in order. */
  lemma {:induction false} RemoveFirstIs(xs: seq<string>, x: string)
    requires x in xs
    ensures RemoveFirst(xs, x) == xs[..FirstIndex(xs, x)] + xs[FirstIndex(xs, x) + 1..]
  {
    if xs[0] != x {
      RemoveFirstIs(xs[1..], x);
      assert xs[1..][..FirstIndex(xs[1..], x)] == xs[1..FirstIndex(xs, x)];
      assert xs[1..][FirstIndex(xs[1..], x) + 1..] == xs[FirstIndex(xs, x) + 1..];
    }
  }

  /** Adding a new path and then removing it restores the list. */
  lemma {:induction false} AddThenRemove(xs: seq<string>, x: string)
    requires x !in xs
    ensures RemoveFirst(xs + [x], x) == xs
  {
    if xs != [] {
      assert (xs + [x])[1..] == xs[1..] + [x];
      AddThenRemove(xs[1..], x);
    } else {
      assert [x][1..] == [];
    }
  }

  /**
   * config_add_library_path: a path already listed is ignored; otherwise the list is
   * copied into a new array one longer and the path goes at the end.
   */
  method AddLibraryPath(app: ReelApp, path: string)
    modifies app`libraryPaths
    ensures path in old(app.libraryPaths) ==> app.libraryPaths == old(app.libraryPaths)
    ensures path !in old(app.libraryPaths) ==> app.libraryPaths == old(app.libraryPaths) + [path]
  {
    var paths := app.libraryPaths;
    var i := 0;
    while i < |paths|
      invariant 0 <= i <= |paths|
      invariant path !in paths[..i]
    {
      if paths[i] == path {
        return;
      }
      i := i + 1;
    }
    assert paths[..|paths|] == paths;
    var copy: seq<string> := [];
    i := 0;
    while i < |paths|
      invariant 0 <= i <= |paths|
      invariant copy == paths[..i]
    {
      copy := copy + [paths[i]];
      i := i + 1;
    }
    app.libraryPaths := copy + [path];
  }

  /**
   * config_remove_library_path: an empty list or an absent path is left alone;
   * otherwise every entry but the first equal one is copied, in order.
   */
  method RemoveLibraryPath(app: ReelApp, path: string)
    modifies app`libraryPaths
    ensures app.libraryPaths == RemoveFirst(old(app.libraryPaths), path)
  {
    var paths := app.libraryPaths;
    if paths == [] {
      return;
    }
    var removeIdx := -1;
    var i := 0;
    while i < |paths|
      invariant 0 <= i <= |paths|
      invariant path !in paths[..i]
    {
      if paths[i] == path {
        removeIdx := i;
        break;
      }
      i := i + 1;
    }
    if removeIdx < 0 {
      assert paths[..|paths|] == paths;
      return;
    }
    assert removeIdx == FirstIndex(paths, path);
    var copy: seq<string> := [];
    i := 0;
    while i < |paths|
      invariant 0 <= i <= |paths|
      invariant copy == if i <= removeIdx then paths[..i] else paths[..removeIdx] + paths[removeIdx + 1..i]
    {
      if i != removeIdx {
        copy := copy + [paths[i]];
      }
      i := i + 1;
    }
    RemoveFirstIs(paths, path);
    app.libraryPaths := copy;
  }

  /** library_path_exists in the settings dialog: membership, never for the empty path. */
  method LibraryPathExists(app: ReelApp, path: Option<string>) returns (found: bool)
    ensures found <==> path.Some? && path.value != [] && path.value in app.libraryPaths
  {
    if path.None? || path.value == [] {
      return false;
    }
    var i := 0;
    while i < |app.libraryPaths|
      invariant 0 <= i <= |app.libraryPaths|
      invariant path.value !in app.libraryPaths[..i]
    {
      if app.libraryPaths[i] == path.value {
        return true;
      }
      i := i + 1;
    }
    assert app.libraryPaths[..i] == app.libraryPaths;
    return false;
  }
}
