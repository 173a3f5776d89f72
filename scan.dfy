/**
 * The directory scanner of src/scanner.c over a directory tree given as a value: season
 * folders become a season row with one episode row per video file, other video files
 * become film rows, and other folders are searched recursively.
 */
module Scan {
  import opened Wrappers
  import opened Text
  import opened Records
  import opened Store
  import Classify
  import Utils

  // ---------------------------------------------------------------- the directory tree

  /** A directory entry: a file, or a directory with its listing. */
  datatype Node = File(name: string) | Dir(name: string, entries: seq<Node>)

  /** Names starting with '.' are skipped by every listing loop. */
  predicate Hidden(name: string) { |name| > 0 && name[0] == '.' }

  /** What a directory listing yields: entry names without '/', each once. */
  predicate Listing(es: seq<Node>)
  {
    (forall i :: 0 <= i < |es| ==> IsEntryName(es[i].name)) &&
    (forall i, j :: 0 <= i < j < |es| ==> es[i].name != es[j].name)
  }

  /** Every listing of the tree is one. */
  predicate WellFormed(es: seq<Node>)
    decreases es
  {
    Listing(es) && forall i :: 0 <= i < |es| ==> es[i].Dir? ==> WellFormed(es[i].entries)
  }

  /** The names of a listing, in listing order. */
  function Names(es: seq<Node>): (r: seq<string>)
    ensures |r| == |es| && forall i :: 0 <= i < |es| ==> r[i] == es[i].name
  {
    seq(|es|, i requires 0 <= i < |es| => es[i].name)
  }

  /** An entry scan_tv_season turns into an episode: a visible file with a video extension. */
  predicate EpisodeEntry(e: Node) { e.File? && !Hidden(e.name) && Classify.IsVideoFile(e.name) }

  /** The paths of the episode files of a season folder's listing. */
  function EpisodeFiles(path: string, es: seq<Node>): set<string>
  {
    set i | 0 <= i < |es| && EpisodeEntry(es[i]) :: BuildFilename(path, es[i].name)
  }

  /** Different entry names give different paths under one directory. */
  lemma ChildInjective(path: string, a: string, b: string)
    requires IsEntryName(a) && IsEntryName(b) && a != b
    ensures BuildFilename(path, a) != BuildFilename(path, b)
  {
    BasenameOfBuild(path, a);
    BasenameOfBuild(path, b);
  }

  /** A path built under a directory is never that directory's own path. */
  lemma ChildIsNotParent(path: string, name: string)
    requires IsEntryName(name)
    ensures BuildFilename(path, name) != path
  {
    var p := BuildFilename(path, name);
    assert p[|p| - 1] == name[|name| - 1];
    assert name[|name| - 1] in name;
    if path != [] && LastNonSlash(path).Some? {
      var e := LastNonSlash(path).value;
      LastNonSlashIs(path, e);
      if e + 1 == |path| {
        assert |p| > |path|;
      } else {
        assert path[|path| - 1] == '/';
      }
    } else if path != [] {
      assert |p| > |path|;
    }
  }

  /** One more entry adds its path when it is an episode file. */
  lemma EpisodeFilesSnoc(path: string, es: seq<Node>, e: Node)
    ensures EpisodeFiles(path, es + [e]) ==
      EpisodeFiles(path, es) + (if EpisodeEntry(e) then {BuildFilename(path, e.name)} else {})
  {
    var r := es + [e];
    forall p | p in EpisodeFiles(path, r)
      ensures p in EpisodeFiles(path, es) + (if EpisodeEntry(e) then {BuildFilename(path, e.name)} else {})
    {
      var i :| 0 <= i < |r| && EpisodeEntry(r[i]) && p == BuildFilename(path, r[i].name);
      if i < |es| { assert r[i] == es[i]; }
    }
    forall p | p in EpisodeFiles(path, es) ensures p in EpisodeFiles(path, r) {
      var i :| 0 <= i < |es| && EpisodeEntry(es[i]) && p == BuildFilename(path, es[i].name);
      assert r[i] == es[i];
    }
    if EpisodeEntry(e) {
      assert r[|es|] == e;
    }
  }

  /** The path of a later entry is not among those of the earlier ones. */
  lemma LaterEntryIsNew(path: string, es: seq<Node>, i: nat)
    requires Listing(es) && i < |es|
    ensures BuildFilename(path, es[i].name) !in EpisodeFiles(path, es[..i])
  {
    var pre := es[..i];
    if BuildFilename(path, es[i].name) in EpisodeFiles(path, pre) {
      var j :| 0 <= j < |pre| && EpisodeEntry(pre[j]) && BuildFilename(path, es[i].name) == BuildFilename(path, pre[j].name);
      assert pre[j] == es[j];
      ChildInjective(path, es[j].name, es[i].name);
    }
  }

  // ---------------------------------------------------------------- episode rows

  /** The episode record scan_tv_season builds for a file: season, path, name as title, number. */
  function EpisodeRecord(seasonId: int, path: string, name: string): (e: Episode)
    ensures e.seasonId == seasonId && e.filePath == Some(BuildFilename(path, name)) && e.title == Some(name)
    ensures e.episodeNumber == Classify.EpisodeNumber(name) && e.plot.None? && e.airDate.None?
  {
    EpisodeNew().(seasonId := seasonId, filePath := Some(BuildFilename(path, name)), title := Some(name),
                  episodeNumber := Classify.EpisodeNumber(name))
  }

  /** What one entry does to the episodes table when writes succeed, and whether it counts. */
  function EpisodeStep(eps: seq<Episode>, seasonId: int, path: string, e: Node): (r: (seq<Episode>, nat))
  {
    if EpisodeEntry(e) && !HasEpisode(eps, BuildFilename(path, e.name)) then
      (eps + [EpisodeRecord(seasonId, path, e.name).(id := NextRowid(EpisodeIds(eps)))], 1)
    else (eps, 0)
  }

  /**
   * The episodes table after the listing loop of scan_tv_season, and the number added: the
   * rows only grow, by one row per count.
   */
  function AddEpisodes(eps: seq<Episode>, seasonId: int, path: string, es: seq<Node>): (r: (seq<Episode>, nat))
    ensures |r.0| == |eps| + r.1 && r.0[..|eps|] == eps
    ensures r.1 <= |es|
    decreases |es|
  {
    if es == [] then (eps, 0)
    else
      var (e1, n1) := AddEpisodes(eps, seasonId, path, es[..|es| - 1]);
      var (e2, n2) := EpisodeStep(e1, seasonId, path, es[|es| - 1]);
      assert e2[..|e1|] == e1;
      (e2, n1 + n2)
  }

  /** The number of episode files of the listing that the table does not hold yet. */
  function Missing(eps: seq<Episode>, path: string, es: seq<Node>): (n: nat)
    ensures n <= |es|
    decreases |es|
  {
    if es == [] then 0
    else
      var last := es[|es| - 1];
      Missing(eps, path, es[..|es| - 1]) +
      (if EpisodeEntry(last) && !HasEpisode(eps, BuildFilename(path, last.name)) then 1 else 0)
  }

  /** After the loop, every episode file of the listing has its row. */
  lemma {:induction false} AddEpisodesCovers(eps: seq<Episode>, seasonId: int, path: string, es: seq<Node>)
    ensures forall p :: p in EpisodeFiles(path, es) ==> HasEpisode(AddEpisodes(eps, seasonId, path, es).0, p)
    ensures forall p :: HasEpisode(eps, p) ==> HasEpisode(AddEpisodes(eps, seasonId, path, es).0, p)
    decreases |es|
  {
    if es != [] {
      var pre, last := es[..|es| - 1], es[|es| - 1];
      assert es == pre + [last];
      AddEpisodesCovers(eps, seasonId, path, pre);
      EpisodeFilesSnoc(path, pre, last);
      var e1 := AddEpisodes(eps, seasonId, path, pre).0;
      var e2 := EpisodeStep(e1, seasonId, path, last).0;
      assert forall p :: HasEpisode(e1, p) ==> HasEpisode(e2, p) by {
        forall p | HasEpisode(e1, p) ensures HasEpisode(e2, p) {
          var i :| 0 <= i < |e1| && e1[i].filePath == Some(p);
          assert e2[i] == e1[i];
        }
      }
      if EpisodeEntry(last) && !HasEpisode(e1, BuildFilename(path, last.name)) {
        assert e2[|e1|].filePath == Some(BuildFilename(path, last.name));
      }
    }
  }

  /** The rows from position `from` on belong to the season and are among the given files. */
  predicate SeasonRows(r: seq<Episode>, from: nat, seasonId: int, files: set<string>)
  {
    forall k :: from <= k < |r| ==> r[k].seasonId == seasonId && r[k].filePath.Some? && r[k].filePath.value in files
  }

  /** Every row the loop adds belongs to the season and is one of its episode files. */
  lemma {:induction false} AddEpisodesRows(eps: seq<Episode>, seasonId: int, path: string, es: seq<Node>)
    ensures SeasonRows(AddEpisodes(eps, seasonId, path, es).0, |eps|, seasonId, EpisodeFiles(path, es))
    decreases |es|
  {
    if es != [] {
      var pre, last := es[..|es| - 1], es[|es| - 1];
      assert es == pre + [last];
      AddEpisodesRows(eps, seasonId, path, pre);
      EpisodeFilesSnoc(path, pre, last);
      var e1 := AddEpisodes(eps, seasonId, path, pre).0;
      var e2 := EpisodeStep(e1, seasonId, path, last).0;
      assert AddEpisodes(eps, seasonId, path, es).0 == e2;
      forall k | |eps| <= k < |e2|
        ensures e2[k].seasonId == seasonId && e2[k].filePath.Some? && e2[k].filePath.value in EpisodeFiles(path, es)
      {
        if k < |e1| {
          assert e2[k] == e1[k];
        } else {
          assert e2[k] == EpisodeRecord(seasonId, path, last.name).(id := NextRowid(EpisodeIds(e1)));
        }
      }
    }
  }

  /** A prefix of an episode list holds a path exactly when the list does, if the added rows do not. */
  lemma HasEpisodeOfExtension(eps: seq<Episode>, r: seq<Episode>, p: string)
    requires |eps| <= |r| && r[..|eps|] == eps
    requires forall k :: |eps| <= k < |r| ==> r[k].filePath != Some(p)
    ensures HasEpisode(r, p) == HasEpisode(eps, p)
  {
    if HasEpisode(r, p) {
      var k :| 0 <= k < |r| && r[k].filePath == Some(p);
      assert r[..|eps|][k] == eps[k];
    }
    if HasEpisode(eps, p) {
      var k :| 0 <= k < |eps| && eps[k].filePath == Some(p);
      assert r[..|eps|][k] == r[k];
    }
  }

  /** The names of a listing stay distinct in its prefixes. */
  lemma ListingPrefix(es: seq<Node>, n: nat)
    requires Listing(es) && n <= |es|
    ensures Listing(es[..n])
  {
    var pre := es[..n];
    forall i, j | 0 <= i < j < |pre| ensures pre[i].name != pre[j].name {
      assert pre[i] == es[i] && pre[j] == es[j];
    }
    forall i | 0 <= i < |pre| ensures IsEntryName(pre[i].name) {
      assert pre[i] == es[i];
    }
  }

  /**
   * With distinct names the loop adds exactly the missing episode files: an earlier row
   * never carries a later entry's path.
   */
  lemma {:induction false} AddEpisodesCount(eps: seq<Episode>, seasonId: int, path: string, es: seq<Node>)
    requires Listing(es)
    ensures AddEpisodes(eps, seasonId, path, es).1 == Missing(eps, path, es)
    decreases |es|
  {
    if es != [] {
      var n := |es| - 1;
      var pre, last := es[..n], es[n];
      ListingPrefix(es, n);
      AddEpisodesCount(eps, seasonId, path, pre);
      AddEpisodesRows(eps, seasonId, path, pre);
      var e1 := AddEpisodes(eps, seasonId, path, pre).0;
      var p := BuildFilename(path, last.name);
      LaterEntryIsNew(path, es, n);
      HasEpisodeOfExtension(eps, e1, p);
      assert HasEpisode(e1, p) == HasEpisode(eps, p);
    }
  }

  /** When the table already holds every episode file, the loop adds nothing. */
  lemma {:induction false} AddEpisodesNothingNew(eps: seq<Episode>, seasonId: int, path: string, es: seq<Node>)
    requires forall p :: p in EpisodeFiles(path, es) ==> HasEpisode(eps, p)
    ensures AddEpisodes(eps, seasonId, path, es) == (eps, 0)
    decreases |es|
  {
    if es != [] {
      var pre, last := es[..|es| - 1], es[|es| - 1];
      assert es == pre + [last];
      EpisodeFilesSnoc(path, pre, last);
      AddEpisodesNothingNew(eps, seasonId, path, pre);
    }
  }

  /** Scanning a season folder a second time adds no episode, whatever season row it uses. */
  lemma ScanSeasonAgainAddsNothing(eps: seq<Episode>, s1: int, s2: int, path: string, es: seq<Node>)
    ensures var once := AddEpisodes(eps, s1, path, es).0;
      AddEpisodes(once, s2, path, es) == (once, 0)
  {
    AddEpisodesCovers(eps, s1, path, es);
    AddEpisodesNothingNew(AddEpisodes(eps, s1, path, es).0, s2, path, es);
  }

  // ---------------------------------------------------------------- the season row

  /** The initial title of a season row: "<show> - Season <n>". */
  function SeasonTitle(show: string, n: int): string
  {
    show + " - Season " + IntToString(n)
  }

  /** A title the repair replaces: NULL or empty. */
  predicate TitleMissing(t: Option<string>) { t.None? || |t.value| == 0 }

  /** The record scan_tv_season inserts for a new season folder. */
  function SeasonRecord(path: string, show: string, n: int, now: int): (f: Film)
    ensures f.filePath == Some(path) && f.title == Some(SeasonTitle(show, n)) && f.year == 0
    ensures f.mediaType == MediaTvSeason && f.seasonNumber == n && f.addedDate == now
    ensures f.matchStatus == Unmatched && f.tmdbId == 0 && f.rating == 0.0 && f.runtimeMinutes == 0
    ensures f.plot.None? && f.posterPath.None? && f.imdbId.None?
  {
    FilmNew().(filePath := Some(path), title := Some(SeasonTitle(show, n)), year := 0,
               mediaType := MediaTvSeason, seasonNumber := n, addedDate := now, matchStatus := Unmatched)
  }

  /**
   * The season row once scan_tv_season has found or created it: a new folder gets the
   * inserted record under the next rowid; a known one keeps its row, with the initial
   * title put in when its title is missing.
   */
  function SeasonRowAfter(films: seq<Film>, path: string, show: string, n: int, now: int): Film
  {
    match GetByPath(films, path)
    case None => Stored(SeasonRecord(path, show, n, now), NextRowid(FilmIds(films)))
    case Some(row) => if TitleMissing(row.title) then row.(title := Some(SeasonTitle(show, n))) else row
  }

  /** In a valid table a row is the one found by its path. */
  lemma FoundByPath(films: seq<Film>, f: Film)
    requires FilmsValid(films) && f in films && f.filePath.Some?
    ensures GetByPath(films, f.filePath.value) == Some(f)
  {
    var g := GetByPath(films, f.filePath.value).value;
    var i :| 0 <= i < |films| && films[i] == f;
    var j :| 0 <= j < |films| && films[j] == g;
    if i < j {
      assert films[i].filePath != films[j].filePath;
    } else if j < i {
      assert films[j].filePath != films[i].filePath;
    }
  }

  /**
   * Rewriting the found row with a record that differs from it only in title, media
   * type and season number changes that row's title and nothing else.
   */
  lemma RepairRow(films: seq<Film>, path: string, s: Film)
    requires FilmsValid(films) && GetByPath(films, path).Some?
    requires var row := GetByPath(films, path).value; s == row.(title := s.title, mediaType := s.mediaType, seasonNumber := s.seasonNumber)
    ensures var row := GetByPath(films, path).value;
      GetByPath(UpdateRows(films, s), path) == Some(row.(title := s.title))
    ensures FilmsValid(UpdateRows(films, s))
    ensures forall f :: (f in UpdateRows(films, s) && f.filePath != Some(path)) <==> (f in films && f.filePath != Some(path))
  {
    var row := GetByPath(films, path).value;
    var r := UpdateRows(films, s);
    UpdateRowsRead(films, s, path);
    var k := FindPath(films, path, 0).value;
    assert films[k] == row;
    assert r[k] == Updated(row, s);
    assert Updated(row, s) == row.(title := s.title);
    forall f ensures (f in r && f.filePath != Some(path)) <==> (f in films && f.filePath != Some(path)) {
      if f in r && f.filePath != Some(path) {
        var i :| 0 <= i < |r| && r[i] == f;
        assert i != k;
      }
      if f in films && f.filePath != Some(path) {
        var i :| 0 <= i < |films| && films[i] == f;
        assert i != k;
        assert films[i].id != s.id;
        assert r[i] == f;
      }
    }
  }

  /**
   * The first part of scan_tv_season: look the folder up by path; insert the season
   * record when it is new (giving up when that fails), otherwise repair the row when it
   * does not read back as this season, filling in a missing title.
   */
  method EnsureSeasonRow(db: Catalogue, path: string, n: int, show: string, now: int) returns (season: Option<Film>)
    requires db.Valid()
    modifies db`films
    ensures db.Valid()
    ensures season.None? <==> !db.writable && GetByPath(old(db.films), path).None?
    ensures !db.writable ==> db.films == old(db.films)
    ensures db.writable ==>
      season.Some? &&
      GetByPath(db.films, path) == Some(SeasonRowAfter(old(db.films), path, show, n, now)) &&
      season.value.id == SeasonRowAfter(old(db.films), path, show, n, now).id
    ensures db.writable ==>
      forall f :: (f in db.films && f.filePath != Some(path)) <==> (f in old(db.films) && f.filePath != Some(path))
  {
    var existing := GetByPath(db.films, path);
    if existing.None? {
      var rec := SeasonRecord(path, show, n, now);
      var ok, id := db.FilmInsert(rec);
      if !ok {
        return None;
      }
      InsertThenGetByPath(old(db.films), rec, path);
      season := Some(rec.(id := id));
      return;
    }
    var s := existing.value;
    if s.mediaType != MediaTvSeason || s.seasonNumber != n {
      s := s.(mediaType := MediaTvSeason, seasonNumber := n);
      if s.title.None? || |s.title.value| == 0 {
        s := s.(title := Some(SeasonTitle(show, n)));
      }
      RepairRow(db.films, path, s);
      var updated := db.FilmUpdate(s);
    }
    season := Some(s);
  }

  // ---------------------------------------------------------------- the episode loop

  /** The ids of the rows whose path is one of the given files. */
  function RemovedIds(films: seq<Film>, files: set<string>): set<int>
  {
    set f | f in films && f.filePath.Some? && f.filePath.value in files :: f.id
  }

  /** A row whose path is one of the given files. */
  predicate OnFile(f: Film, files: set<string>) { f.filePath.Some? && f.filePath.value in files }

  /** A link table after the rows of the given film ids cascaded away. */
  ghost predicate LinksWithout(before: set<(int, int)>, after: set<(int, int)>, ids: set<int>)
  {
    forall l :: l in after <==> l in before && l.0 !in ids
  }

  /** The film_actors table after the rows of the given film ids cascaded away. */
  ghost predicate CastWithout(before: map<(int, int), CastLink>, after: map<(int, int), CastLink>, ids: set<int>)
  {
    (forall k :: k in after <==> k in before && k.0 !in ids) && forall k :: k in after ==> after[k] == before[k]
  }

  /** Deleting by the id of the row found by a path removes exactly the rows on that path. */
  lemma RemoveByPath(films: seq<Film>, p: string)
    requires FilmsValid(films) && GetByPath(films, p).Some?
    ensures var w := GetByPath(films, p).value;
      forall f :: f in RemoveFilm(films, w.id) <==> f in films && f.filePath != Some(p)
  {
    var w := GetByPath(films, p).value;
    forall f | f in films ensures f.id == w.id <==> f.filePath == Some(p) {
      var i :| 0 <= i < |films| && films[i] == f;
      var j :| 0 <= j < |films| && films[j] == w;
      if i != j {
        assert films[i].id != films[j].id && films[i].filePath != films[j].filePath;
      }
    }
  }

  /**
   * The removal in scan_tv_season's listing loop: the film row on an episode file's path,
   * if any, is deleted, and its links cascade.
   */
  method DropFilmOnPath(db: Catalogue, p: string)
    requires db.Valid()
    modifies db`films, db`filmGenres, db`filmActors, db`filmDirectors
    ensures db.Valid()
    ensures !db.writable ==>
      db.films == old(db.films) && db.filmGenres == old(db.filmGenres) &&
      db.filmActors == old(db.filmActors) && db.filmDirectors == old(db.filmDirectors)
    ensures db.writable ==>
      (forall f :: f in db.films <==> f in old(db.films) && !OnFile(f, {p})) &&
      LinksWithout(old(db.filmGenres), db.filmGenres, RemovedIds(old(db.films), {p})) &&
      LinksWithout(old(db.filmDirectors), db.filmDirectors, RemovedIds(old(db.films), {p})) &&
      CastWithout(old(db.filmActors), db.filmActors, RemovedIds(old(db.films), {p}))
  {
    var wrong := GetByPath(db.films, p);
    if wrong.Some? {
      RemoveByPath(db.films, p);
      assert RemovedIds(db.films, {p}) == {wrong.value.id} by {
        forall f | f in db.films && OnFile(f, {p}) ensures f == wrong.value {
          FoundByPath(db.films, f);
        }
      }
      var deleted := db.FilmDelete(wrong.value.id);
    } else {
      assert RemovedIds(db.films, {p}) == {};
    }
  }

  /** The insert in scan_tv_season's listing loop: a new episode row unless the path has one. */
  method AddEpisodeRow(db: Catalogue, seasonId: int, path: string, e: Node) returns (n: nat)
    requires db.Valid() && EpisodeEntry(e)
    modifies db`episodes
    ensures db.Valid()
    ensures !db.writable ==> n == 0 && db.episodes == old(db.episodes)
    ensures db.writable ==> (db.episodes, n) == EpisodeStep(old(db.episodes), seasonId, path, e)
  {
    n := 0;
    var full := BuildFilename(path, e.name);
    if FindEpisodePath(db.episodes, full, 0).None? {
      var ok := db.EpisodeInsert(EpisodeRecord(seasonId, path, e.name));
      if ok {
        n := 1;
      }
    }
  }

  /** The tables scan_tv_season writes, as one value. */
  datatype Tables = Tables(films: seq<Film>, filmGenres: set<(int, int)>, filmDirectors: set<(int, int)>,
                           filmActors: map<(int, int), CastLink>, episodes: seq<Episode>)

  function TablesOf(db: Catalogue): (t: Tables)
    reads db
    ensures t.films == db.films && t.episodes == db.episodes && t.filmGenres == db.filmGenres
    ensures t.filmDirectors == db.filmDirectors && t.filmActors == db.filmActors
  {
    Tables(db.films, db.filmGenres, db.filmDirectors, db.filmActors, db.episodes)
  }

  /**
   * What clearing the files `files` does to the tables: their film rows and those rows'
   * links are gone, and the rows on paths other than the folder's own are as they were.
   */
  ghost predicate Cleared(t0: Tables, t: Tables, path: string, files: set<string>)
  {
    (forall f :: (f in t.films && f.filePath != Some(path)) <==>
                 (f in t0.films && f.filePath != Some(path) && !OnFile(f, files))) &&
    LinksWithout(t0.filmGenres, t.filmGenres, RemovedIds(t0.films, files)) &&
    LinksWithout(t0.filmDirectors, t.filmDirectors, RemovedIds(t0.films, files)) &&
    CastWithout(t0.filmActors, t.filmActors, RemovedIds(t0.films, files))
  }

  /**
   * What one pass of the listing loop does to writable tables: the film rows on the entry's
   * episode file go, with their links, and the episode step is taken.
   */
  ghost predicate EntryEffect(t1: Tables, t2: Tables, path: string, e: Node, seasonId: int, n: nat)
  {
    var gone := EpisodeFiles(path, [e]);
    (t2.episodes, n) == EpisodeStep(t1.episodes, seasonId, path, e) &&
    (forall f :: f in t2.films <==> f in t1.films && !OnFile(f, gone)) &&
    LinksWithout(t1.filmGenres, t2.filmGenres, RemovedIds(t1.films, gone)) &&
    LinksWithout(t1.filmDirectors, t2.filmDirectors, RemovedIds(t1.films, gone)) &&
    CastWithout(t1.filmActors, t2.filmActors, RemovedIds(t1.films, gone))
  }

  /**
   * Where the listing loop stands after the entries `done`: the season row is in place, the
   * episode rows are AddEpisodes' and the visited files are cleared.
   */
  ghost predicate Passed(t0: Tables, t: Tables, path: string, done: seq<Node>, row: Film, added: nat)
  {
    GetByPath(t.films, path) == Some(row) &&
    (t.episodes, added) == AddEpisodes(t0.episodes, row.id, path, done) &&
    Cleared(t0, t, path, EpisodeFiles(path, done))
  }

  /**
   * One pass of scan_tv_season's listing loop: for a visible video file, a film row on
   * its path is deleted (its links cascade), then the episode row is inserted unless one is
   * there; n counts the insert.
   */
  method ScanSeasonEntry(db: Catalogue, path: string, e: Node, seasonId: int) returns (n: nat)
    requires db.Valid() && IsEntryName(e.name)
    modifies db`films, db`filmGenres, db`filmActors, db`filmDirectors, db`episodes
    ensures db.Valid()
    ensures !db.writable ==> n == 0 && TablesOf(db) == old(TablesOf(db))
    ensures db.writable ==> EntryEffect(old(TablesOf(db)), TablesOf(db), path, e, seasonId, n)
  {
    EpisodeFilesSnoc(path, [], e);
    assert [] + [e] == [e];
    n := 0;
    if Hidden(e.name) || !e.File? || !Classify.IsVideoFile(e.name) {
      return;
    }
    var full := BuildFilename(path, e.name);
    assert EpisodeFiles(path, [e]) == {full};
    DropFilmOnPath(db, full);
    n := AddEpisodeRow(db, seasonId, path, e);
  }

  /** Two cascades in a row drop the links of both sets of ids. */
  lemma LinksCompose(a: set<(int, int)>, b: set<(int, int)>, c: set<(int, int)>, i: set<int>, j: set<int>)
    requires LinksWithout(a, b, i) && LinksWithout(b, c, j)
    ensures LinksWithout(a, c, i + j)
  {
  }

  lemma CastCompose(a: map<(int, int), CastLink>, b: map<(int, int), CastLink>, c: map<(int, int), CastLink>,
                    i: set<int>, j: set<int>)
    requires CastWithout(a, b, i) && CastWithout(b, c, j)
    ensures CastWithout(a, c, i + j)
  {
  }

  /**
   * The rows on the next entry's path are still the original ones, since no earlier pass
   * touched that path: removing them now removes the original rows' ids.
   */
  lemma RemovedStep(f0: seq<Film>, cur: seq<Film>, path: string, fi: set<string>, g: set<string>)
    requires forall f :: (f in cur && f.filePath != Some(path)) <==> (f in f0 && f.filePath != Some(path) && !OnFile(f, fi))
    requires path !in g
    requires fi !! g
    ensures RemovedIds(f0, fi) + RemovedIds(cur, g) == RemovedIds(f0, fi + g)
  {
    forall f | f in f0 && OnFile(f, fi + g) ensures f.id in RemovedIds(f0, fi) + RemovedIds(cur, g) {
      if !OnFile(f, fi) {
        assert f.filePath.value in g;
        assert f in cur;
      }
    }
    forall f | f in cur && OnFile(f, g) ensures f.id in RemovedIds(f0, fi + g) {
      assert f in f0;
    }
  }

  /** The episode files of one more entry of a listing: a fresh path, never the folder's own. */
  lemma EntryFilesStep(path: string, es: seq<Node>, i: nat)
    requires Listing(es) && i < |es|
    ensures EpisodeFiles(path, es[..i + 1]) == EpisodeFiles(path, es[..i]) + EpisodeFiles(path, [es[i]])
    ensures path !in EpisodeFiles(path, [es[i]])
    ensures EpisodeFiles(path, es[..i]) !! EpisodeFiles(path, [es[i]])
  {
    assert es[..i + 1] == es[..i] + [es[i]];
    EpisodeFilesSnoc(path, es[..i], es[i]);
    LaterEntryIsNew(path, es, i);
    ChildIsNotParent(path, es[i].name);
    EpisodeFilesSnoc(path, [], es[i]);
    assert [] + [es[i]] == [es[i]];
  }

  /** Clearing the files `files` and then, on the tables that leaves, the files `more`. */
  lemma ClearedStep(t0: Tables, t1: Tables, t2: Tables, path: string, files: set<string>, more: set<string>)
    requires Cleared(t0, t1, path, files)
    requires forall f :: f in t2.films <==> f in t1.films && !OnFile(f, more)
    requires LinksWithout(t1.filmGenres, t2.filmGenres, RemovedIds(t1.films, more))
    requires LinksWithout(t1.filmDirectors, t2.filmDirectors, RemovedIds(t1.films, more))
    requires CastWithout(t1.filmActors, t2.filmActors, RemovedIds(t1.films, more))
    requires path !in more
    requires files !! more
    ensures Cleared(t0, t2, path, files + more)
  {
    RemovedStep(t0.films, t1.films, path, files, more);
    LinksCompose(t0.filmGenres, t1.filmGenres, t2.filmGenres, RemovedIds(t0.films, files), RemovedIds(t1.films, more));
    LinksCompose(t0.filmDirectors, t1.filmDirectors, t2.filmDirectors, RemovedIds(t0.films, files),
                 RemovedIds(t1.films, more));
    CastCompose(t0.filmActors, t1.filmActors, t2.filmActors, RemovedIds(t0.films, files), RemovedIds(t1.films, more));
  }

  /** AddEpisodes on a listing with one more entry takes one more EpisodeStep. */
  lemma AddEpisodesSnoc(eps: seq<Episode>, sid: int, path: string, es: seq<Node>, e: Node, all: seq<Node>,
                        e1: seq<Episode>, n1: nat, e2: seq<Episode>, n2: nat, n: nat)
    requires all == es + [e] && n == n1 + n2
    requires (e1, n1) == AddEpisodes(eps, sid, path, es)
    requires (e2, n2) == EpisodeStep(e1, sid, path, e)
    ensures AddEpisodes(eps, sid, path, all) == (e2, n)
  {
    assert all[..|all| - 1] == es;
  }

  /** One pass of the listing loop keeps the season row: its path is not an entry's. */
  lemma StepKeepsSeason(f1: seq<Film>, f2: seq<Film>, path: string, e: Node, row: Film)
    requires IsEntryName(e.name) && FilmsValid(f2)
    requires GetByPath(f1, path) == Some(row)
    requires forall f :: f in f2 <==> f in f1 && !OnFile(f, EpisodeFiles(path, [e]))
    ensures GetByPath(f2, path) == Some(row)
  {
    ChildIsNotParent(path, e.name);
    EpisodeFilesSnoc(path, [], e);
    assert [] + [e] == [e];
    assert row in f2;
    FoundByPath(f2, row);
  }

  /** The episode rows after one more pass of the listing loop. */
  lemma EpisodesStep(e0: seq<Episode>, e1: seq<Episode>, e2: seq<Episode>, sid: int, path: string,
                     entries: seq<Node>, i: nat, added: nat, k: nat, now: nat)
    requires i < |entries| && now == added + k
    requires (e1, added) == AddEpisodes(e0, sid, path, entries[..i])
    requires (e2, k) == EpisodeStep(e1, sid, path, entries[i])
    ensures (e2, now) == AddEpisodes(e0, sid, path, entries[..i + 1])
  {
    assert entries[..i + 1] == entries[..i] + [entries[i]];
    AddEpisodesSnoc(e0, sid, path, entries[..i], entries[i], entries[..i + 1], e1, added, e2, k, now);
  }

  /** One pass of the listing loop, on entry i, moves Passed on by that entry. */
  lemma PassedStep(t0: Tables, t1: Tables, t2: Tables, path: string, entries: seq<Node>, i: nat,
                   row: Film, added: nat, k: nat, now: nat)
    requires Listing(entries) && i < |entries| && FilmsValid(t2.films)
    requires Passed(t0, t1, path, entries[..i], row, added)
    requires EntryEffect(t1, t2, path, entries[i], row.id, k)
    requires now == added + k
    ensures Passed(t0, t2, path, entries[..i + 1], row, now)
  {
    EpisodesStep(t0.episodes, t1.episodes, t2.episodes, row.id, path, entries, i, added, k, now);
    StepKeepsSeason(t1.films, t2.films, path, entries[i], row);
    EntryFilesStep(path, entries, i);
    ClearedStep(t0, t1, t2, path, EpisodeFiles(path, entries[..i]), EpisodeFiles(path, [entries[i]]));
  }

  /** Before the listing loop nothing is cleared and no episode row is added. */
  lemma PassedStart(t0: Tables, path: string, entries: seq<Node>, row: Film)
    requires GetByPath(t0.films, path) == Some(row)
    ensures Passed(t0, t0, path, entries[..0], row, 0)
  {
    assert entries[..0] == [];
    assert EpisodeFiles(path, []) == {};
    assert RemovedIds(t0.films, {}) == {};
  }

  /** One pass of the listing loop of scan_tv_season, on entry i. */
  method PassEntry(db: Catalogue, path: string, entries: seq<Node>, i: nat, sid: int, ghost row: Film,
                   ghost t0: Tables, added: nat) returns (now: nat)
    requires db.Valid() && Listing(entries) && i < |entries|
    requires db.writable ==> row.id == sid && Passed(t0, TablesOf(db), path, entries[..i], row, added)
    requires !db.writable ==> added == 0 && TablesOf(db) == t0
    modifies db`films, db`filmGenres, db`filmActors, db`filmDirectors, db`episodes
    ensures db.Valid()
    ensures db.writable ==> Passed(t0, TablesOf(db), path, entries[..i + 1], row, now)
    ensures !db.writable ==> now == 0 && TablesOf(db) == t0
  {
    ghost var t1 := TablesOf(db);
    var k := ScanSeasonEntry(db, path, entries[i], sid);
    now := added + k;
    if db.writable {
      PassedStep(t0, t1, TablesOf(db), path, entries, i, row, added, k, now);
    }
  }

  /** The listing loop of scan_tv_season, over the entries of the season folder. */
  method EpisodePass(db: Catalogue, path: string, entries: seq<Node>, sid: int, ghost row: Film)
    returns (added: nat)
    requires db.Valid() && Listing(entries)
    requires db.writable ==> GetByPath(db.films, path) == Some(row) && row.id == sid
    modifies db`films, db`filmGenres, db`filmActors, db`filmDirectors, db`episodes
    ensures db.Valid()
    ensures !db.writable ==> added == 0 && TablesOf(db) == old(TablesOf(db))
    ensures db.writable ==> Passed(old(TablesOf(db)), TablesOf(db), path, entries, row, added)
  {
    ghost var t0 := TablesOf(db);
    added := 0;
    var i := 0;
    if db.writable {
      PassedStart(t0, path, entries, row);
    }
    while i < |entries|
      invariant 0 <= i <= |entries|
      invariant db.Valid()
      invariant !db.writable ==> added == 0 && TablesOf(db) == t0
      invariant db.writable ==> Passed(t0, TablesOf(db), path, entries[..i], row, added)
    {
      added := PassEntry(db, path, entries, i, sid, row, t0, added);
      i := i + 1;
    }
    assert entries[..|entries|] == entries;
  }

  /** After the listing loop every episode file is an episode of the table and no film row. */
  lemma SeasonCovered(t0: Tables, t: Tables, path: string, entries: seq<Node>, row: Film, added: nat)
    requires Listing(entries)
    requires Passed(t0, t, path, entries, row, added)
    ensures forall p :: p in EpisodeFiles(path, entries) ==> HasEpisode(t.episodes, p) && !HasPath(t.films, p)
  {
    AddEpisodesCovers(t0.episodes, row.id, path, entries);
    forall p | p in EpisodeFiles(path, entries) ensures !HasPath(t.films, p) {
      var j :| 0 <= j < |entries| && EpisodeEntry(entries[j]) && p == BuildFilename(path, entries[j].name);
      ChildIsNotParent(path, entries[j].name);
    }
  }

  /** Changing only the row on the folder's own path does not change what clearing removes. */
  lemma ClearedFromSeason(t0: Tables, t1: Tables, t: Tables, path: string, entries: seq<Node>)
    requires Listing(entries)
    requires t1.filmGenres == t0.filmGenres && t1.filmDirectors == t0.filmDirectors
    requires t1.filmActors == t0.filmActors
    requires forall f :: (f in t1.films && f.filePath != Some(path)) <==> (f in t0.films && f.filePath != Some(path))
    requires Cleared(t1, t, path, EpisodeFiles(path, entries))
    ensures Cleared(t0, t, path, EpisodeFiles(path, entries))
  {
    var files := EpisodeFiles(path, entries);
    assert path !in files by {
      if path in files {
        var j :| 0 <= j < |entries| && EpisodeEntry(entries[j]) && path == BuildFilename(path, entries[j].name);
        ChildIsNotParent(path, entries[j].name);
      }
    }
    assert RemovedIds(t1.films, files) == RemovedIds(t0.films, files) by {
      forall f | f in t1.films && OnFile(f, files) ensures f.id in RemovedIds(t0.films, files) {
        assert f.filePath != Some(path);
      }
      forall f | f in t0.films && OnFile(f, files) ensures f.id in RemovedIds(t1.films, files) {
        assert f.filePath != Some(path);
      }
    }
  }

  /**
   * scan_tv_season: the season row is found or created (nothing happens when that
   * fails); then every visible video file of the folder loses any film row on its path and
   * gets an episode row of this season unless it has one. The result counts the episode
   * rows added.
   */
  method ScanTvSeason(db: Catalogue, path: string, entries: seq<Node>, n: int, show: string, now: int)
    returns (added: nat)
    requires db.Valid() && Listing(entries)
    modifies db`films, db`filmGenres, db`filmActors, db`filmDirectors, db`episodes
    ensures db.Valid()
    ensures !db.writable ==> added == 0 && TablesOf(db) == old(TablesOf(db))
    ensures db.writable ==>
      var row := SeasonRowAfter(old(db.films), path, show, n, now);
      GetByPath(db.films, path) == Some(row) &&
      (db.episodes, added) == AddEpisodes(old(db.episodes), row.id, path, entries) &&
      Cleared(old(TablesOf(db)), TablesOf(db), path, EpisodeFiles(path, entries))
    ensures db.writable ==>
      forall p :: p in EpisodeFiles(path, entries) ==> HasEpisode(db.episodes, p) && !HasPath(db.films, p)
  {
    var season := EnsureSeasonRow(db, path, n, show, now);
    if season.None? {
      return 0;
    }
    ghost var row := SeasonRowAfter(old(db.films), path, show, n, now);
    ghost var t1 := TablesOf(db);
    added := EpisodePass(db, path, entries, season.value.id, row);
    if db.writable {
      SeasonCovered(t1, TablesOf(db), path, entries, row, added);
      ClearedFromSeason(old(TablesOf(db)), t1, TablesOf(db), path, entries);
    }
  }

  // ---------------------------------------------------------------- the recursive scan

  /** A path the tables know: a film row or an episode row is on it. */
  predicate TableTracks(t: Tables, p: string) { HasPath(t.films, p) || HasEpisode(t.episodes, p) }

  /**
   * What the scanner may do to the tables: no tracked path is lost, episode rows are only
   * appended, and link rows only disappear (with the cascades of deleted film rows).
   */
  ghost predicate Grows(t0: Tables, t: Tables)
  {
    (forall p :: TableTracks(t0, p) ==> TableTracks(t, p)) &&
    |t0.episodes| <= |t.episodes| && t.episodes[..|t0.episodes|] == t0.episodes &&
    t.filmGenres <= t0.filmGenres && t.filmDirectors <= t0.filmDirectors &&
    (forall k :: k in t.filmActors ==> k in t0.filmActors && t.filmActors[k] == t0.filmActors[k])
  }

  lemma GrowsRefl(t: Tables)
    ensures Grows(t, t)
  {
  }

  lemma GrowsTrans(t0: Tables, t1: Tables, t2: Tables)
    requires Grows(t0, t1) && Grows(t1, t2)
    ensures Grows(t0, t2)
  {
    assert t2.episodes[..|t0.episodes|] == t2.episodes[..|t1.episodes|][..|t0.episodes|];
  }

  /**
   * The rows written between t0 and t lie on the paths `reach`: every film row t0 does not
   * hold and every appended episode row is on one of them.
   */
  ghost predicate WritesWithin(t0: Tables, t: Tables, reach: set<string>)
  {
    (forall f :: f in t.films && f !in t0.films ==> OnFile(f, reach)) &&
    forall k :: |t0.episodes| <= k < |t.episodes| ==> OnEpisodeFile(t.episodes[k], reach)
  }

  predicate OnEpisodeFile(e: Episode, files: set<string>) { e.filePath.Some? && e.filePath.value in files }

  lemma WritesRefl(t: Tables, reach: set<string>)
    ensures WritesWithin(t, t, reach)
  {
  }

  lemma WritesWider(t0: Tables, t: Tables, r1: set<string>, r2: set<string>)
    requires WritesWithin(t0, t, r1) && r1 <= r2
    ensures WritesWithin(t0, t, r2)
  {
  }

  lemma WritesTrans(t0: Tables, t1: Tables, t2: Tables, r1: set<string>, r2: set<string>)
    requires Grows(t0, t1) && Grows(t1, t2) && WritesWithin(t0, t1, r1) && WritesWithin(t1, t2, r2)
    ensures WritesWithin(t0, t2, r1 + r2)
  {
    forall k | |t0.episodes| <= k < |t2.episodes| ensures OnEpisodeFile(t2.episodes[k], r1 + r2) {
      if k < |t1.episodes| {
        assert t2.episodes[k] == t2.episodes[..|t1.episodes|][k];
      }
    }
  }

  /**
   * The paths the scan of one entry of the listing `es` of `path` may write rows on: none
   * for a hidden entry or a file that is not a video; for a video file, the file itself,
   * the folder (as a season row) and the folder's episode files; for a folder, DirReach.
   */
  ghost function EntryReach(path: string, es: seq<Node>, e: Node, depth: int): set<string>
    decreases e, 2
  {
    if Hidden(e.name) then {}
    else if e.Dir? then DirReach(path, e, depth)
    else if Classify.IsVideoFile(e.name) then {path} + EpisodeFiles(path, es)
    else {}
  }

  /** A season folder's own path and episode files; for any other folder, its listing's reach. */
  ghost function DirReach(path: string, e: Node, depth: int): set<string>
    requires e.Dir?
    decreases e, 1
  {
    var full := BuildFilename(path, e.name);
    if SeasonFolder(e.name, e.entries) then {full} + EpisodeFiles(full, e.entries)
    else Reach(full, e.entries, depth + 1)
  }

  /** The paths the scan of the listing `es` of `path` at depth `depth` may write rows on. */
  ghost function Reach(path: string, es: seq<Node>, depth: int): set<string>
    decreases es, 1
  {
    if depth > 10 then {} else ReachUpTo(path, es, |es|, depth)
  }

  /** The reach of the first n entries of a listing. */
  ghost function ReachUpTo(path: string, es: seq<Node>, n: nat, depth: int): set<string>
    requires n <= |es|
    decreases es, 0, n
  {
    if n == 0 then {} else ReachUpTo(path, es, n - 1, depth) + EntryReach(path, es, es[n - 1], depth)
  }

  /** A folder scan_tv_season handles: named as a season, or holding agreeing SxxEyy files. */
  ghost predicate SeasonFolder(name: string, children: seq<Node>)
  {
    Classify.IsSeasonDirectory(name).Some? || Classify.DetectedSeason(Names(children)).Some?
  }

  /** A name the file-level season detection of scan_directory_recursive matches: SxxEyy. */
  predicate SxxEyyName(name: string) { Classify.ParseSxxEyy(Some(name)).Some? }

  /** Every episode file of the listing has an episode row. */
  ghost predicate EpisodesHeld(t: Tables, path: string, es: seq<Node>)
  {
    forall p :: p in EpisodeFiles(path, es) ==> HasEpisode(t.episodes, p)
  }

  /**
   * The listing of `path` is itself a season folder and one of its first n entries is a
   * visible SxxEyy video file: visiting that file has the whole folder scanned as a season.
   */
  ghost predicate SeasonSeen(path: string, es: seq<Node>, n: nat)
    requires n <= |es|
  {
    SeasonFolder(Basename(path), es) && FileSeen(es, n)
  }

  /** One of the first n entries of the listing is a visible SxxEyy video file. */
  ghost predicate FileSeen(es: seq<Node>, n: nat)
    requires n <= |es|
  {
    n > 0 && (FileSeen(es, n - 1) || SeasonFileAt(es, n - 1))
  }

  /** An SxxEyy file at entry i is seen by every later point of the listing. */
  lemma {:induction false} FileSeenFrom(es: seq<Node>, i: nat, n: nat)
    requires i < n <= |es| && SeasonFileAt(es, i)
    ensures FileSeen(es, n)
    decreases n
  {
    if n > i + 1 {
      FileSeenFrom(es, i, n - 1);
    }
  }

  /** Entry j of the listing is a visible SxxEyy video file. */
  predicate SeasonFileAt(es: seq<Node>, j: nat)
    requires j < |es|
  {
    EpisodeEntry(es[j]) && SxxEyyName(es[j].name)
  }

  /**
   * After a scan of the listing `es` of `path` at depth `depth`: every visible video file
   * is tracked, every episode file of a season folder has its episode row, and the other
   * folders are covered one level deeper. Nothing is asked below the depth cap of 10.
   */
  ghost predicate Covered(t: Tables, attached: set<string>, path: string, es: seq<Node>, depth: int)
    decreases es, 1
  {
    depth > 10 || ListingCovered(t, attached, path, es, depth)
  }

  ghost predicate ListingCovered(t: Tables, attached: set<string>, path: string, es: seq<Node>, depth: int)
    decreases es, 0
  {
    (SeasonSeen(path, es, |es|) ==> EpisodesHeld(t, path, es)) &&
    forall i :: 0 <= i < |es| ==> EntryCovered(t, attached, path, es[i], depth)
  }

  ghost predicate EntryCovered(t: Tables, attached: set<string>, path: string, e: Node, depth: int)
    decreases e, 2
  {
    var full := BuildFilename(path, e.name);
    if Hidden(e.name) then true
    else match e
      case File(name) => Classify.IsVideoFile(name) ==> TableTracks(t, full) || full in attached
      case Dir(name, children) =>
        if SeasonFolder(name, children) then EpisodesHeld(t, full, children)
        else Covered(t, attached, full, children, depth + 1)
  }

  /** Episode rows, once there, stay. */
  lemma HeldGrows(t0: Tables, t: Tables, path: string, es: seq<Node>)
    requires Grows(t0, t) && EpisodesHeld(t0, path, es)
    ensures EpisodesHeld(t, path, es)
  {
    forall p | p in EpisodeFiles(path, es) ensures HasEpisode(t.episodes, p) {
      var i :| 0 <= i < |t0.episodes| && t0.episodes[i].filePath == Some(p);
      assert t.episodes[i] == t.episodes[..|t0.episodes|][i];
    }
  }

  /** Coverage survives any later change the scanner makes. */
  lemma {:induction false} CoveredGrows(t0: Tables, t: Tables, attached: set<string>, path: string, es: seq<Node>,
                                        depth: int)
    requires Grows(t0, t) && Covered(t0, attached, path, es, depth)
    ensures Covered(t, attached, path, es, depth)
    decreases es, 1
  {
    if depth <= 10 {
      ListingCoveredGrows(t0, t, attached, path, es, depth);
    }
  }

  lemma {:induction false} ListingCoveredGrows(t0: Tables, t: Tables, attached: set<string>, path: string,
                                               es: seq<Node>, depth: int)
    requires Grows(t0, t) && ListingCovered(t0, attached, path, es, depth)
    ensures ListingCovered(t, attached, path, es, depth)
    decreases es, 0
  {
    if SeasonSeen(path, es, |es|) {
      HeldGrows(t0, t, path, es);
    }
    forall i | 0 <= i < |es| ensures EntryCovered(t, attached, path, es[i], depth) {
      EntryCoveredGrows(t0, t, attached, path, es[i], depth);
    }
  }

  lemma {:induction false} EntryCoveredGrows(t0: Tables, t: Tables, attached: set<string>, path: string, e: Node,
                                             depth: int)
    requires Grows(t0, t) && EntryCovered(t0, attached, path, e, depth)
    ensures EntryCovered(t, attached, path, e, depth)
    decreases e, 2
  {
    if !Hidden(e.name) && e.Dir? {
      var full := BuildFilename(path, e.name);
      if SeasonFolder(e.name, e.entries) {
        HeldGrows(t0, t, full, e.entries);
      } else {
        CoveredGrows(t0, t, attached, full, e.entries, depth + 1);
      }
    }
  }

  /** What scan_tv_season leaves behind is a growth of the tables it started from. */
  lemma SeasonGrows(t0: Tables, t: Tables, path: string, entries: seq<Node>, row: Film, added: nat)
    requires GetByPath(t.films, path) == Some(row)
    requires (t.episodes, added) == AddEpisodes(t0.episodes, row.id, path, entries)
    requires Cleared(t0, t, path, EpisodeFiles(path, entries))
    requires forall p :: p in EpisodeFiles(path, entries) ==> HasEpisode(t.episodes, p)
    ensures Grows(t0, t)
  {
    var files := EpisodeFiles(path, entries);
    forall p | TableTracks(t0, p) ensures TableTracks(t, p) {
      if HasPath(t0.films, p) {
        var i :| 0 <= i < |t0.films| && t0.films[i].filePath == Some(p);
        var f := t0.films[i];
        if p == path {
          assert row in t.films;
        } else if !OnFile(f, files) {
          assert f in t.films;
        }
      } else {
        var i :| 0 <= i < |t0.episodes| && t0.episodes[i].filePath == Some(p);
        assert t.episodes[i] == t.episodes[..|t0.episodes|][i];
      }
    }
  }

  /** scan_tv_season writes only the season row on the folder and rows on its episode files. */
  lemma SeasonWrites(t0: Tables, t: Tables, path: string, entries: seq<Node>, row: Film, added: nat)
    requires (t.episodes, added) == AddEpisodes(t0.episodes, row.id, path, entries)
    requires Cleared(t0, t, path, EpisodeFiles(path, entries))
    ensures WritesWithin(t0, t, {path} + EpisodeFiles(path, entries))
  {
    AddEpisodesRows(t0.episodes, row.id, path, entries);
  }

  /** Appending a film row keeps every tracked path. */
  lemma AppendGrows(t0: Tables, t: Tables, row: Film)
    requires t.films == t0.films + [row]
    requires t.episodes == t0.episodes && t.filmGenres == t0.filmGenres
    requires t.filmDirectors == t0.filmDirectors && t.filmActors == t0.filmActors
    ensures Grows(t0, t)
    ensures row.filePath.Some? ==> HasPath(t.films, row.filePath.value)
  {
    forall p | HasPath(t0.films, p) ensures HasPath(t.films, p) {
      var i :| 0 <= i < |t0.films| && t0.films[i].filePath == Some(p);
      assert t.films[i] == t0.films[i];
    }
    if row.filePath.Some? {
      assert t.films[|t0.films|] == row;
    }
  }

  /**
   * scan_tv_season as the recursive scan uses it: the tables grow, and when writes succeed
   * every episode file of the folder has its row.
   */
  method SeasonScan(db: Catalogue, path: string, entries: seq<Node>, n: int, show: string, now: int)
    returns (added: nat)
    requires db.Valid() && Listing(entries)
    modifies db`films, db`filmGenres, db`filmActors, db`filmDirectors, db`episodes
    ensures db.Valid()
    ensures Grows(old(TablesOf(db)), TablesOf(db))
    ensures !db.writable ==> added == 0 && TablesOf(db) == old(TablesOf(db))
    ensures db.writable ==> EpisodesHeld(TablesOf(db), path, entries)
    ensures EpisodesHeld(old(TablesOf(db)), path, entries) ==> added == 0
    ensures WritesWithin(old(TablesOf(db)), TablesOf(db), {path} + EpisodeFiles(path, entries))
  {
    ghost var t0 := TablesOf(db);
    ghost var row := SeasonRowAfter(db.films, path, show, n, now);
    added := ScanTvSeason(db, path, entries, n, show, now);
    if db.writable {
      SeasonGrows(t0, TablesOf(db), path, entries, row, added);
      SeasonWrites(t0, TablesOf(db), path, entries, row, added);
      if EpisodesHeld(t0, path, entries) {
        AddEpisodesNothingNew(t0.episodes, row.id, path, entries);
      }
    } else {
      GrowsRefl(t0);
    }
  }

  // ---------------------------------------------------------------- the show of a season folder's file

  /**
   * The show name scan_directory_recursive picks for an SxxEyy file of a single-season
   * folder whose basename is dirBase: when that names a season, derived from showBase;
   * otherwise from dirBase, then from the file name; as a last resort the normalised dirBase.
   */
  function ShowFor(dirBase: string, showBase: string, name: string): (show: string)
    ensures Classify.IsSeasonDirectory(dirBase).Some? && |Classify.ShowNameFromDirname(showBase)| > 0 ==>
      show == Classify.ShowNameFromDirname(showBase)
  {
    var derived :=
      if Classify.IsSeasonDirectory(dirBase).Some? then Classify.ShowNameFromDirname(showBase)
      else
        var s := Classify.ShowNameFromDirname(dirBase);
        if |s| > 0 then s else Classify.ShowNameFromEpisodeFilename(name);
    if |derived| > 0 then derived else Utils.Normalized(dirBase)
  }

  /**
   * As written, showBase is the basename of the dirname of the file's path: the season
   * folder itself.
   */
  function SeasonFileShowAsWritten(path: string, name: string): string
  {
    ShowFor(Basename(path), Basename(Dirname(BuildFilename(path, name))), name)
  }

  /** As intended, showBase is the basename of the folder holding the season folder. */
  function SeasonFileShow(path: string, name: string): string
  {
    ShowFor(Basename(path), Basename(Dirname(path)), name)
  }

  /**
   * As written, the files of a season folder get a show name that does not depend on the
   * folder holding it: "/tv/Lost/Season 1" and "/tv/Heroes/Season 1" give the same name.
   * The scanner reaches this case only when a library folder is itself a season folder:
   * a season folder met inside a scan goes to ScanTvSeason with its parent's name.
   */
  lemma AsWrittenShowIgnoresShowFolder(d1: string, d2: string, season: string, n1: string, n2: string)
    requires IsEntryName(season) && IsEntryName(n1) && IsEntryName(n2)
    requires Classify.IsSeasonDirectory(season).Some?
    ensures SeasonFileShowAsWritten(BuildFilename(d1, season), n1) == SeasonFileShowAsWritten(BuildFilename(d2, season), n2)
  {
    SeasonFolderOwnName(d1, season, n1);
    SeasonFolderOwnName(d2, season, n2);
  }

  /** The as-written name of a file in folder d/season is derived from season alone. */
  lemma SeasonFolderOwnName(d: string, season: string, name: string)
    requires IsEntryName(season) && IsEntryName(name)
    requires Classify.IsSeasonDirectory(season).Some?
    ensures SeasonFileShowAsWritten(BuildFilename(d, season), name) == ShowFor(season, season, "")
  {
    var p := BuildFilename(d, season);
    BasenameOfBuild(d, season);
    BuildEndsWithName(d, season);
    DirnameOfBuild(p, name);
    assert Basename(Dirname(BuildFilename(p, name))) == season;
  }

  /**
   * The concrete case: with /tv/Lost/Season 1 and /tv/Heroes/Season 1 added as library
   * folders, their episode files are given one and the same show name.
   */
  lemma AsWrittenLostIsHeroes()
    ensures SeasonFileShowAsWritten(BuildFilename("/tv/Lost", "Season 1"), "Lost.S01E01.mkv") ==
            SeasonFileShowAsWritten(BuildFilename("/tv/Heroes", "Season 1"), "Heroes.S01E01.mkv")
  {
    SeasonOneIsSeason();
    AsWrittenShowIgnoresShowFolder("/tv/Lost", "/tv/Heroes", "Season 1", "Lost.S01E01.mkv", "Heroes.S01E01.mkv");
  }

  lemma SeasonOneIsSeason()
    ensures Classify.IsSeasonDirectory("Season 1").Some?
  {
    var n := "Season 1";
    assert n[..6] == "Season";
    assert Classify.HasSeasonWord(n);
    assert Classify.SkipNonDigits(n, 7) == 7;
    assert Classify.SkipNonDigits(n, 6) == 7;
  }

  /**
   * As intended, the files of a folder named as a season get the name derived from the
   * folder holding it, whenever that derivation is not empty.
   */
  lemma SeasonFileShowFromShowFolder(d: string, season: string, name: string)
    requires IsEntryName(season) && d != [] && (d == "/" || d[|d| - 1] != '/')
    requires Classify.IsSeasonDirectory(season).Some?
    requires |Classify.ShowNameFromDirname(Basename(d))| > 0
    ensures SeasonFileShow(BuildFilename(d, season), name) == Classify.ShowNameFromDirname(Basename(d))
  {
    BasenameOfBuild(d, season);
    DirnameOfBuild(d, season);
    assert Basename(Dirname(BuildFilename(d, season))) == Basename(d);
  }

  // ---------------------------------------------------------------- scan_directory_recursive

  /** The film record the scanner inserts for a video file: parsed title and year, unmatched. */
  function FilmRecord(full: string, name: string, now: int): (f: Film)
    ensures f.filePath == Some(full)
  {
    var parsed := Classify.ParseFilename(name);
    FilmNew().(filePath := Some(full), title := Some(parsed.title), year := parsed.year, addedDate := now,
               matchStatus := Unmatched, mediaType := MediaFilm)
  }

  /**
   * The film branch of scan_directory_recursive: an untracked path gets the record as a
   * film row, counted when the insert succeeds; a tracked one is left alone.
   */
  method AddFilmFile(db: Catalogue, rec: Film) returns (k: nat)
    requires db.Valid() && rec.filePath.Some?
    modifies db`films
    ensures db.Valid()
    ensures Grows(old(TablesOf(db)), TablesOf(db))
    ensures db.writable ==> db.IsFileTracked(rec.filePath.value)
    ensures k == if db.writable && !old(db.IsFileTracked(rec.filePath.value)) then 1 else 0
    ensures k == 1 ==> db.films == old(db.films) + [Stored(rec, NextRowid(FilmIds(old(db.films))))]
    ensures k == 0 ==> db.films == old(db.films)
    ensures TableTracks(old(TablesOf(db)), rec.filePath.value) || rec.filePath.value in db.attachedFiles ==> k == 0
    ensures WritesWithin(old(TablesOf(db)), TablesOf(db), {rec.filePath.value})
  {
    ghost var t0 := TablesOf(db);
    k := 0;
    if db.IsFileTracked(rec.filePath.value) {
      GrowsRefl(t0);
      return;
    }
    var ok, id := db.FilmInsert(rec);
    if ok {
      k := 1;
      AppendGrows(t0, TablesOf(db), Stored(rec, id));
    } else {
      GrowsRefl(t0);
    }
  }

  /**
   * The season a single-season folder implies for one of its SxxEyy files, if it is one:
   * the number its name announces, or else the season all its SxxEyy files agree on; a
   * positive one replaces the file's own.
   */
  method InferredSeason(path: string, entries: seq<Node>, own: nat) returns (r: Option<nat>)
    ensures r.Some? <==> SeasonFolder(Basename(path), entries)
    ensures r.Some? ==>
      var inferred := match Classify.IsSeasonDirectory(Basename(path))
        case Some(n) => n
        case None => Classify.DetectedSeason(Names(entries)).value;
      r.value == if inferred > 0 then inferred else own
  {
    var dirBase := Basename(path);
    var inferred: nat := 0;
    var single := false;
    var sd := Classify.IsSeasonDirectory(dirBase);
    if sd.Some? {
      single, inferred := true, sd.value;
    } else {
      var d := Classify.DetectSeason(Names(entries));
      if d.Some? {
        single, inferred := true, d.value;
      }
    }
    if !single {
      return None;
    }
    r := Some(if inferred > 0 then inferred else own);
  }

  /** A visible video file of a listing is one of its episode files. */
  lemma EntryInFiles(path: string, entries: seq<Node>, i: nat)
    requires i < |entries| && EpisodeEntry(entries[i])
    ensures BuildFilename(path, entries[i].name) in EpisodeFiles(path, entries)
  {
  }

  /**
   * An SxxEyy file of a single-season folder: the whole folder is scanned as the inferred
   * season, under the show name of SeasonFileShow. Other files are not handled here.
   */
  method SeasonFileScan(db: Catalogue, path: string, entries: seq<Node>, i: nat, now: int)
    returns (handled: bool, k: nat)
    requires db.Valid() && Listing(entries) && i < |entries| && EpisodeEntry(entries[i])
    modifies db`films, db`filmGenres, db`filmActors, db`filmDirectors, db`episodes
    ensures db.Valid()
    ensures !handled ==> k == 0 && TablesOf(db) == old(TablesOf(db))
    ensures Grows(old(TablesOf(db)), TablesOf(db))
    ensures !db.writable ==> k == 0 && TablesOf(db) == old(TablesOf(db))
    ensures handled ==> SeasonFolder(Basename(path), entries) && SxxEyyName(entries[i].name)
    ensures SeasonFolder(Basename(path), entries) && SxxEyyName(entries[i].name) ==> handled
    ensures handled && db.writable ==> EpisodesHeld(TablesOf(db), path, entries)
    ensures handled && db.writable ==> TableTracks(TablesOf(db), BuildFilename(path, entries[i].name))
    ensures handled && EpisodesHeld(old(TablesOf(db)), path, entries) ==> k == 0
    ensures WritesWithin(old(TablesOf(db)), TablesOf(db), {path} + EpisodeFiles(path, entries))
  {
    var name := entries[i].name;
    handled, k := false, 0;
    var m := Classify.ParseSxxEyy(Some(name));
    if m.Some? {
      var season := InferredSeason(path, entries, m.value.0);
      if season.Some? {
        handled := true;
        k := SeasonScan(db, path, entries, season.value, SeasonFileShow(path, name), now);
        EntryInFiles(path, entries, i);
        return;
      }
    }
    GrowsRefl(TablesOf(db));
  }

  /**
   * A visible video file of the listing: an SxxEyy file of a single-season folder has the
   * whole folder scanned as that season; any other file is added as a film unless tracked.
   * Nothing is counted when the file is tracked and, for a season, its folder's episodes held.
   */
  method ScanVideoFile(db: Catalogue, path: string, entries: seq<Node>, i: nat, now: int) returns (k: nat)
    requires db.Valid() && Listing(entries) && i < |entries| && EpisodeEntry(entries[i])
    modifies db`films, db`filmGenres, db`filmActors, db`filmDirectors, db`episodes
    ensures db.Valid()
    ensures Grows(old(TablesOf(db)), TablesOf(db))
    ensures !db.writable ==> k == 0 && TablesOf(db) == old(TablesOf(db))
    ensures db.writable ==> db.IsFileTracked(BuildFilename(path, entries[i].name))
    ensures db.writable && SeasonFolder(Basename(path), entries) && SxxEyyName(entries[i].name) ==>
      EpisodesHeld(TablesOf(db), path, entries)
    ensures (SeasonFolder(Basename(path), entries) && SxxEyyName(entries[i].name) &&
             EpisodesHeld(old(TablesOf(db)), path, entries)) ==> k == 0
    ensures (!(SeasonFolder(Basename(path), entries) && SxxEyyName(entries[i].name)) &&
             (TableTracks(old(TablesOf(db)), BuildFilename(path, entries[i].name)) ||
              BuildFilename(path, entries[i].name) in db.attachedFiles)) ==> k == 0
    ensures WritesWithin(old(TablesOf(db)), TablesOf(db), {path} + EpisodeFiles(path, entries))
  {
    var name := entries[i].name;
    var full := BuildFilename(path, name);
    var handled;
    handled, k := SeasonFileScan(db, path, entries, i, now);
    if !handled {
      k := AddFilmFile(db, FilmRecord(full, name, now));
      EntryInFiles(path, entries, i);
      WritesWider(old(TablesOf(db)), TablesOf(db), {full}, {path} + EpisodeFiles(path, entries));
    } else {
      assert SeasonFolder(Basename(path), entries) && SxxEyyName(name);
    }
  }

  /** A season folder is covered once all its episode files are tracked. */
  lemma SeasonEntryCovered(t: Tables, attached: set<string>, path: string, e: Node, depth: int)
    requires e.Dir? && SeasonFolder(e.name, e.entries)
    requires EpisodesHeld(t, BuildFilename(path, e.name), e.entries)
    ensures EntryCovered(t, attached, path, e, depth)
  {
  }

  /** Any other folder is covered once its listing is covered one level deeper. */
  lemma PlainEntryCovered(t: Tables, attached: set<string>, path: string, e: Node, depth: int)
    requires e.Dir? && !SeasonFolder(e.name, e.entries)
    requires Covered(t, attached, BuildFilename(path, e.name), e.entries, depth + 1)
    ensures EntryCovered(t, attached, path, e, depth)
  {
  }

  /**
   * A sub-folder scan_tv_season handles: one named as a season is scanned as that season
   * of the show named by the folder holding it; one whose SxxEyy files agree on a season is
   * scanned as that season of the show its name derives. Other folders are not handled here.
   */
  method SeasonSubdirectory(db: Catalogue, path: string, e: Node, ghost depth: int, now: int) returns (handled: bool, k: nat)
    requires db.Valid() && e.Dir? && Listing(e.entries)
    modifies db`films, db`filmGenres, db`filmActors, db`filmDirectors, db`episodes
    ensures db.Valid()
    ensures handled == SeasonFolder(e.name, e.entries)
    ensures Grows(old(TablesOf(db)), TablesOf(db))
    ensures !handled || !db.writable ==> k == 0 && TablesOf(db) == old(TablesOf(db))
    ensures handled && db.writable ==> EpisodesHeld(TablesOf(db), BuildFilename(path, e.name), e.entries)
    ensures handled && EpisodesHeld(old(TablesOf(db)), BuildFilename(path, e.name), e.entries) ==> k == 0
    ensures handled ==> WritesWithin(old(TablesOf(db)), TablesOf(db), DirReach(path, e, depth))
  {
    var full := BuildFilename(path, e.name);
    handled, k := true, 0;
    var named := Classify.IsSeasonDirectory(e.name);
    if named.Some? {
      k := SeasonScan(db, full, e.entries, named.value, Basename(Dirname(full)), now);
      return;
    }
    var detected := Classify.DetectSeason(Names(e.entries));
    if detected.Some? {
      var show := Classify.ShowNameFromDirname(e.name);
      if |show| == 0 {
        show := Utils.Normalized(e.name);
      }
      k := SeasonScan(db, full, e.entries, detected.value, show, now);
      return;
    }
    handled := false;
    GrowsRefl(TablesOf(db));
  }

  /**
   * A visible sub-folder: a season folder is scanned as a season, any other folder is
   * searched one level deeper.
   */
  method ScanSubdirectory(db: Catalogue, path: string, e: Node, depth: int, now: int) returns (k: nat)
    requires db.Valid() && e.Dir? && WellFormed(e.entries)
    modifies db`films, db`filmGenres, db`filmActors, db`filmDirectors, db`episodes
    ensures db.Valid()
    ensures Grows(old(TablesOf(db)), TablesOf(db))
    ensures !db.writable ==> k == 0 && TablesOf(db) == old(TablesOf(db))
    ensures db.writable ==> EntryCovered(TablesOf(db), db.attachedFiles, path, e, depth)
    ensures !Hidden(e.name) && EntryCovered(old(TablesOf(db)), db.attachedFiles, path, e, depth) ==> k == 0
    ensures WritesWithin(old(TablesOf(db)), TablesOf(db), DirReach(path, e, depth))
    decreases e
  {
    var handled;
    handled, k := SeasonSubdirectory(db, path, e, depth, now);
    if handled {
      if db.writable {
        SeasonEntryCovered(TablesOf(db), db.attachedFiles, path, e, depth);
      }
      return;
    }
    k := ScanDirectory(db, BuildFilename(path, e.name), e.entries, depth + 1, now);
    if db.writable {
      PlainEntryCovered(TablesOf(db), db.attachedFiles, path, e, depth);
    }
  }

  /** One entry of a listing: hidden names are skipped, folders and video files scanned. */
  method ScanEntry(db: Catalogue, path: string, entries: seq<Node>, i: nat, depth: int, now: int) returns (k: nat)
    requires db.Valid() && WellFormed(entries) && i < |entries|
    modifies db`films, db`filmGenres, db`filmActors, db`filmDirectors, db`episodes
    ensures db.Valid()
    ensures Grows(old(TablesOf(db)), TablesOf(db))
    ensures !db.writable ==> k == 0 && TablesOf(db) == old(TablesOf(db))
    ensures db.writable ==> EntryCovered(TablesOf(db), db.attachedFiles, path, entries[i], depth)
    ensures (db.writable && EpisodeEntry(entries[i]) && SeasonFolder(Basename(path), entries) &&
             SxxEyyName(entries[i].name)) ==> EpisodesHeld(TablesOf(db), path, entries)
    ensures ListingCovered(old(TablesOf(db)), db.attachedFiles, path, entries, depth) ==> k == 0
    ensures Hidden(entries[i].name) ==> k == 0 && TablesOf(db) == old(TablesOf(db))
    ensures WritesWithin(old(TablesOf(db)), TablesOf(db), EntryReach(path, entries, entries[i], depth))
    decreases entries, 1
  {
    var e := entries[i];
    k := 0;
    if Hidden(e.name) {
      GrowsRefl(TablesOf(db));
      WritesRefl(TablesOf(db), {});
    } else if e.Dir? {
      if ListingCovered(TablesOf(db), db.attachedFiles, path, entries, depth) {
        assert EntryCovered(TablesOf(db), db.attachedFiles, path, e, depth);
      }
      assert EntryReach(path, entries, e, depth) == DirReach(path, e, depth);
      k := ScanSubdirectory(db, path, e, depth, now);
    } else if Classify.IsVideoFile(e.name) {
      assert EntryReach(path, entries, e, depth) == {path} + EpisodeFiles(path, entries);
      if ListingCovered(TablesOf(db), db.attachedFiles, path, entries, depth) {
        assert EntryCovered(TablesOf(db), db.attachedFiles, path, e, depth);
        if SeasonFolder(Basename(path), entries) && SxxEyyName(e.name) {
          FileSeenFrom(entries, i, |entries|);
        }
      }
      k := ScanVideoFile(db, path, entries, i, now);
    } else {
      GrowsRefl(TablesOf(db));
      WritesRefl(TablesOf(db), {});
    }
  }

  /** The entries before i are covered. */
  ghost predicate CoveredUpTo(t: Tables, attached: set<string>, path: string, entries: seq<Node>, i: nat, depth: int)
    requires i <= |entries|
  {
    forall j :: 0 <= j < i ==> EntryCovered(t, attached, path, entries[j], depth)
  }

  /** Covering entry i keeps the earlier entries covered, as the tables only grew. */
  lemma CoveredUpToStep(t1: Tables, t2: Tables, attached: set<string>, path: string, entries: seq<Node>, i: nat,
                        depth: int)
    requires i < |entries| && CoveredUpTo(t1, attached, path, entries, i, depth) && Grows(t1, t2)
    requires EntryCovered(t2, attached, path, entries[i], depth)
    ensures CoveredUpTo(t2, attached, path, entries, i + 1, depth)
  {
    forall j | 0 <= j < i ensures EntryCovered(t2, attached, path, entries[j], depth) {
      EntryCoveredGrows(t1, t2, attached, path, entries[j], depth);
    }
  }


  /**
   * One pass of scan_directory_recursive's listing loop: entry i is scanned, the tables
   * keep growing from t0 and the entries up to i are covered.
   */
  method DirectoryStep(db: Catalogue, path: string, entries: seq<Node>, i: nat, depth: int, now: int,
                       ghost t0: Tables, added: nat) returns (now_added: nat)
    requires db.Valid() && WellFormed(entries) && i < |entries|
    requires Grows(t0, TablesOf(db))
    requires !db.writable ==> added == 0 && TablesOf(db) == t0
    requires db.writable ==> CoveredUpTo(TablesOf(db), db.attachedFiles, path, entries, i, depth)
    requires db.writable && SeasonSeen(path, entries, i) ==> EpisodesHeld(TablesOf(db), path, entries)
    requires ListingCovered(t0, db.attachedFiles, path, entries, depth) ==> added == 0
    requires WritesWithin(t0, TablesOf(db), ReachUpTo(path, entries, i, depth))
    modifies db`films, db`filmGenres, db`filmActors, db`filmDirectors, db`episodes
    ensures db.Valid()
    ensures Grows(t0, TablesOf(db))
    ensures !db.writable ==> now_added == 0 && TablesOf(db) == t0
    ensures db.writable ==> CoveredUpTo(TablesOf(db), db.attachedFiles, path, entries, i + 1, depth)
    ensures db.writable && SeasonSeen(path, entries, i + 1) ==> EpisodesHeld(TablesOf(db), path, entries)
    ensures ListingCovered(t0, db.attachedFiles, path, entries, depth) ==> now_added == 0
    ensures WritesWithin(t0, TablesOf(db), ReachUpTo(path, entries, i + 1, depth))
    decreases entries, 2
  {
    ghost var t1 := TablesOf(db);
    if ListingCovered(t0, db.attachedFiles, path, entries, depth) {
      ListingCoveredGrows(t0, t1, db.attachedFiles, path, entries, depth);
    }
    var k := ScanEntry(db, path, entries, i, depth, now);
    GrowsTrans(t0, t1, TablesOf(db));
    WritesTrans(t0, t1, TablesOf(db), ReachUpTo(path, entries, i, depth), EntryReach(path, entries, entries[i], depth));
    if db.writable {
      CoveredUpToStep(t1, TablesOf(db), db.attachedFiles, path, entries, i, depth);
      if SeasonSeen(path, entries, i) {
        HeldGrows(t1, TablesOf(db), path, entries);
      }
    }
    now_added := added + k;
  }

  /**
   * scan_directory_recursive over the listing of `path`: nothing below depth 10; otherwise
   * every entry in listing order. The tables only grow, every visible video file of the tree
   * within the depth cap ends up tracked, and the result counts the rows added.
   */
  method ScanDirectory(db: Catalogue, path: string, entries: seq<Node>, depth: int, now: int) returns (added: nat)
    requires db.Valid() && WellFormed(entries)
    modifies db`films, db`filmGenres, db`filmActors, db`filmDirectors, db`episodes
    ensures db.Valid()
    ensures Grows(old(TablesOf(db)), TablesOf(db))
    ensures depth > 10 || !db.writable ==> added == 0 && TablesOf(db) == old(TablesOf(db))
    ensures db.writable ==> Covered(TablesOf(db), db.attachedFiles, path, entries, depth)
    ensures Covered(old(TablesOf(db)), db.attachedFiles, path, entries, depth) ==> added == 0
    ensures WritesWithin(old(TablesOf(db)), TablesOf(db), Reach(path, entries, depth))
    decreases entries, 3
  {
    ghost var t0 := TablesOf(db);
    GrowsRefl(t0);
    WritesRefl(t0, {});
    added := 0;
    if depth > 10 {
      return;
    }
    var i := 0;
    while i < |entries|
      invariant 0 <= i <= |entries|
      invariant db.Valid()
      invariant Grows(t0, TablesOf(db))
      invariant !db.writable ==> added == 0 && TablesOf(db) == t0
      invariant db.writable ==> CoveredUpTo(TablesOf(db), db.attachedFiles, path, entries, i, depth)
      invariant db.writable && SeasonSeen(path, entries, i) ==> EpisodesHeld(TablesOf(db), path, entries)
      invariant ListingCovered(t0, db.attachedFiles, path, entries, depth) ==> added == 0
      invariant WritesWithin(t0, TablesOf(db), ReachUpTo(path, entries, i, depth))
    {
      added := DirectoryStep(db, path, entries, i, depth, now, t0, added);
      i := i + 1;
    }
  }

  /** scanner_scan_directory: the recursive scan from depth 0. */
  method ScanLibrary(db: Catalogue, path: string, entries: seq<Node>, now: int) returns (added: nat)
    requires db.Valid() && WellFormed(entries)
    modifies db`films, db`filmGenres, db`filmActors, db`filmDirectors, db`episodes
    ensures db.Valid()
    ensures Grows(old(TablesOf(db)), TablesOf(db))
    ensures !db.writable ==> added == 0 && TablesOf(db) == old(TablesOf(db))
    ensures db.writable ==> Covered(TablesOf(db), db.attachedFiles, path, entries, 0)
    ensures Covered(old(TablesOf(db)), db.attachedFiles, path, entries, 0) ==> added == 0
    ensures WritesWithin(old(TablesOf(db)), TablesOf(db), Reach(path, entries, 0))
  {
    added := ScanDirectory(db, path, entries, 0, now);
  }

  /**
   * Two scans of the same tree, one after the other: once the first has written its rows,
   * the second finds every file tracked and adds nothing.
   */
  method ScanTwice(db: Catalogue, path: string, entries: seq<Node>, now1: int, now2: int)
    returns (first: nat, second: nat)
    requires db.Valid() && WellFormed(entries)
    modifies db`films, db`filmGenres, db`filmActors, db`filmDirectors, db`episodes
    ensures db.Valid()
    ensures db.writable ==> second == 0
    ensures !db.writable ==> first == 0 && second == 0 && TablesOf(db) == old(TablesOf(db))
  {
    first := ScanLibrary(db, path, entries, now1);
    second := ScanLibrary(db, path, entries, now2);
  }
}
