// The state of the running application (struct _ReelApp together with the loader, grid
// and status fields the window and grid code keep in it), reel_app_new, and the choice of
// the configuration, database and cache locations in reel_app_init_paths.

module App {
  import opened Wrappers
  import opened Text
  import opened Records

  const ConfigDirName := "reelgtk"
  const CacheDirName := "reelgtk"
  /** The directory name of the previous releases, tried as a fallback. */
  const LegacyDirName := "reelgtk"
  const DbFilename := "library.db"
  const ConfigFilename := "config.ini"
  const PostersDirName := "posters"

  /** films_refresh_gen is a guint: it counts modulo 2^32. */
  const GenModulus := 0x1_0000_0000

  class ReelApp {
    var dbPath: Option<string>
    var configPath: Option<string>
    var cachePath: Option<string>
    var posterCachePath: Option<string>
    var tmdbApiKey: Option<string>
    var playerCommand: Option<string>
    var libraryPaths: seq<string>

    var filter: FilterState
    /** The films listed in the window, in display order. */
    var films: seq<Film>
    var totalFilms: int
    var unmatchedFilms: int
    var genresDirty: bool

    // the paginated loader
    var filmsRefreshGen: int
    var filmsLoading: bool
    var filmsEndReached: bool
    var filmsNextOffset: int

    // the poster grid
    /** Films handed to the grid and not yet turned into poster widgets. */
    var gridPending: seq<Film>
    /** Whether an idle source draining gridPending is installed. */
    var gridIdleSource: bool
    /** The films of the poster widgets inserted into the flow box, in order. */
    var gridShown: seq<Film>
    /** The number of the poster widget each film of gridShown is drawn in, in the same order. */
    var gridWidgets: seq<int>
    /** The live poster areas by widget number, with their "poster_loaded" flag. */
    var posters: map<int, bool>
    /** The number the next poster widget gets. */
    var nextPoster: int
    var gridPostersLoaded: int

    /** The loader's bookkeeping: the next offset is the number of films listed. */
    ghost predicate LoaderValid()
      reads this
    {
      filmsNextOffset == |films| && 0 <= filmsRefreshGen < GenModulus
    }

    /**
     * The grid's bookkeeping: the live posters are numbered from 0 below nextPoster, and the
     * counter is the number of live posters that carry the loaded flag.
     */
    ghost predicate GridValid()
      reads this
    {
      0 <= nextPoster && (forall w :: w in posters ==> 0 <= w < nextPoster) &&
      gridPostersLoaded == |LoadedPosters(posters)|
    }

    /** The flow box's children: one live poster widget per shown film, no widget twice. */
    ghost predicate ShownValid()
      reads this
    {
      |gridWidgets| == |gridShown| && (forall i :: 0 <= i < |gridWidgets| ==> gridWidgets[i] in posters) &&
      forall i, j :: 0 <= i < j < |gridWidgets| ==> gridWidgets[i] != gridWidgets[j]
    }

    /** reel_app_new: a zeroed state with the initial filter and "xdg-open" as the player. */
    constructor ()
      ensures LoaderValid() && GridValid() && ShownValid()
      ensures filter == FilterInit() && playerCommand == Some("xdg-open")
      ensures dbPath.None? && configPath.None? && cachePath.None? && posterCachePath.None?
      ensures tmdbApiKey.None? && libraryPaths == [] && films == [] && !genresDirty
      ensures totalFilms == 0 && unmatchedFilms == 0
      ensures filmsRefreshGen == 0 && !filmsLoading && !filmsEndReached && filmsNextOffset == 0
      ensures gridPending == [] && !gridIdleSource && gridShown == [] && posters == map[]
      ensures gridWidgets == [] && gridPostersLoaded == 0
    {
      dbPath := None;
      configPath := None;
      cachePath := None;
      posterCachePath := None;
      tmdbApiKey := None;
      playerCommand := Some("xdg-open");
      libraryPaths := [];
      filter := FilterInit();
      films := [];
      totalFilms := 0;
      unmatchedFilms := 0;
      genresDirty := false;
      filmsRefreshGen := 0;
      filmsLoading := false;
      filmsEndReached := false;
      filmsNextOffset := 0;
      gridPending := [];
      gridIdleSource := false;
      gridShown := [];
      gridWidgets := [];
      posters := map[];
      nextPoster := 0;
      gridPostersLoaded := 0;
      assert LoadedPosters(map[]) == {};
    }
  }

  /** The numbers of the live posters whose image has been applied. */
  function LoadedPosters(posters: map<int, bool>): set<int>
  {
    set w | w in posters && posters[w]
  }

  // ---------------------------------------------------------------- reel_app_init_paths

  /**
   * The configuration directory under configHome: the directory named legacy is used
   * when neither the database nor the configuration file exists in the one named name
   * and one of them exists in the legacy one; `existing` is the set of existing paths.
   */
  function ConfigDirFor(configHome: string, name: string, legacy: string, existing: set<string>): string
  {
    var dir := BuildFilename(configHome, name);
    var legacyDir := BuildFilename(configHome, legacy);
    var haveNew := BuildFilename(dir, DbFilename) in existing || BuildFilename(dir, ConfigFilename) in existing;
    var haveOld := BuildFilename(legacyDir, DbFilename) in existing || BuildFilename(legacyDir, ConfigFilename) in existing;
    if !haveNew && haveOld then legacyDir else dir
  }

  /** The cache directory under cacheHome: the legacy one when only it exists as a directory. */
  function CacheDirFor(cacheHome: string, name: string, legacy: string, dirs: set<string>): string
  {
    var dir := BuildFilename(cacheHome, name);
    var legacyDir := BuildFilename(cacheHome, legacy);
    if dir !in dirs && legacyDir in dirs then legacyDir else dir
  }

  /**
   * With two different directory names, the legacy configuration directory is chosen
   * exactly when the new one holds neither file and the legacy one holds one of them.
   */
  lemma ConfigDirChoice(home: string, name: string, legacy: string, existing: set<string>)
    requires IsEntryName(name) && IsEntryName(legacy) && name != legacy
    ensures var dir := BuildFilename(home, name);
      var legacyDir := BuildFilename(home, legacy);
      (ConfigDirFor(home, name, legacy, existing) == legacyDir <==>
        !(BuildFilename(dir, DbFilename) in existing || BuildFilename(dir, ConfigFilename) in existing) &&
        (BuildFilename(legacyDir, DbFilename) in existing || BuildFilename(legacyDir, ConfigFilename) in existing)) &&
      (ConfigDirFor(home, name, legacy, existing) == dir || ConfigDirFor(home, name, legacy, existing) == legacyDir)
  {
    BasenameOfBuild(home, name);
    BasenameOfBuild(home, legacy);
  }

  /** With two different directory names, the legacy cache is used iff only it exists. */
  lemma CacheDirChoice(home: string, name: string, legacy: string, dirs: set<string>)
    requires IsEntryName(name) && IsEntryName(legacy) && name != legacy
    ensures var dir := BuildFilename(home, name);
      var legacyDir := BuildFilename(home, legacy);
      (CacheDirFor(home, name, legacy, dirs) == legacyDir <==> dir !in dirs && legacyDir in dirs) &&
      (CacheDirFor(home, name, legacy, dirs) == dir || CacheDirFor(home, name, legacy, dirs) == legacyDir)
  {
    BasenameOfBuild(home, name);
    BasenameOfBuild(home, legacy);
  }

  /**
   * With the names this release ships, the legacy name is the new one, so the fallback
   * never moves the application away from the new directories.
   */
  lemma LegacyIsNew(configHome: string, cacheHome: string, existing: set<string>, dirs: set<string>)
    ensures ConfigDirFor(configHome, ConfigDirName, LegacyDirName, existing) == BuildFilename(configHome, ConfigDirName)
    ensures CacheDirFor(cacheHome, CacheDirName, LegacyDirName, dirs) == BuildFilename(cacheHome, CacheDirName)
  {
  }

  /** The database and the configuration file sit side by side in the chosen directory. */
  lemma PathsShareDirectory(configHome: string, existing: set<string>)
    ensures var dir := ConfigDirFor(configHome, ConfigDirName, LegacyDirName, existing);
      Dirname(BuildFilename(dir, DbFilename)) == dir && Dirname(BuildFilename(dir, ConfigFilename)) == dir &&
      Basename(BuildFilename(dir, DbFilename)) == DbFilename &&
      Basename(BuildFilename(dir, ConfigFilename)) == ConfigFilename
  {
    var dir := ConfigDirFor(configHome, ConfigDirName, LegacyDirName, existing);
    assert dir == BuildFilename(configHome, ConfigDirName);
    BuildEndsWithName(configHome, ConfigDirName);
    DirnameOfBuild(dir, DbFilename);
    DirnameOfBuild(dir, ConfigFilename);
    BasenameOfBuild(dir, DbFilename);
    BasenameOfBuild(dir, ConfigFilename);
  }

  /** The poster cache is the "posters" folder of the chosen cache directory. */
  lemma PosterCacheInCache(cacheHome: string, dirs: set<string>)
    ensures var cache := CacheDirFor(cacheHome, CacheDirName, LegacyDirName, dirs);
      Dirname(BuildFilename(cache, PostersDirName)) == cache && Basename(BuildFilename(cache, PostersDirName)) == PostersDirName
  {
    var cache := CacheDirFor(cacheHome, CacheDirName, LegacyDirName, dirs);
    assert cache == BuildFilename(cacheHome, CacheDirName);
    BuildEndsWithName(cacheHome, CacheDirName);
    DirnameOfBuild(cache, PostersDirName);
    BasenameOfBuild(cache, PostersDirName);
  }

  /**
   * reel_app_init_paths over an abstract filesystem: `existing` holds the paths that
   * exist, `dirs` the existing directories and `failing` the directories that
   * g_mkdir_with_parents cannot create. The configuration directory is created unless
   * the legacy one is used; the cache directory is created unless the legacy one is
   * used, and then the chosen cache directory and its posters folder. Each failure
   * stops the function with the fields set so far.
   */
  method InitPaths(app: ReelApp, configHome: string, cacheHome: string, existing: set<string>, dirs: set<string>,
                   failing: set<string>) returns (ok: bool)
    modifies app`configPath, app`dbPath, app`cachePath, app`posterCachePath
    ensures var dir := ConfigDirFor(configHome, ConfigDirName, LegacyDirName, existing);
      var newDir := BuildFilename(configHome, ConfigDirName);
      var cache := CacheDirFor(cacheHome, CacheDirName, LegacyDirName, dirs);
      var newCache := BuildFilename(cacheHome, CacheDirName);
      var posters := BuildFilename(cache, PostersDirName);
      var configOk := dir != newDir || newDir !in failing;
      var cacheOk := configOk && (cache != newCache || newCache !in failing) && cache !in failing;
      (ok <==> cacheOk && posters !in failing) &&
      (configOk ==> app.configPath == Some(BuildFilename(dir, ConfigFilename)) &&
                    app.dbPath == Some(BuildFilename(dir, DbFilename))) &&
      (!configOk ==> app.configPath == old(app.configPath) && app.dbPath == old(app.dbPath)) &&
      (configOk && (cache != newCache || newCache !in failing) ==> app.cachePath == Some(cache)) &&
      (!(configOk && (cache != newCache || newCache !in failing)) ==> app.cachePath == old(app.cachePath)) &&
      (cacheOk ==> app.posterCachePath == Some(posters)) &&
      (!cacheOk ==> app.posterCachePath == old(app.posterCachePath))
  {
    var configDir := BuildFilename(configHome, ConfigDirName);
    var useDir := ConfigDirFor(configHome, ConfigDirName, LegacyDirName, existing);
    if useDir == configDir && configDir in failing {
      return false;
    }
    app.configPath := Some(BuildFilename(useDir, ConfigFilename));
    app.dbPath := Some(BuildFilename(useDir, DbFilename));

    var cacheDir := BuildFilename(cacheHome, CacheDirName);
    var useCache := CacheDirFor(cacheHome, CacheDirName, LegacyDirName, dirs);
    if useCache == cacheDir && cacheDir in failing {
      return false;
    }
    app.cachePath := Some(useCache);
    if useCache in failing {
      return false;
    }
    var posters := BuildFilename(useCache, PostersDirName);
    app.posterCachePath := Some(posters);
    if posters in failing {
      return false;
    }
    return true;
  }
}
