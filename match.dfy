// The record logic of the match dialog: reset_film_to_unmatched, which clears what the
// scraper filled in and rebuilds a title from the file's path, and the read-modify-write
// sequence of apply_match_thread, which sets the media type, fetches the chosen TMDB entry
// and marks the film as matched by hand.

module Match {
  import opened Wrappers
  import opened Text
  import opened Records
  import opened Store
  import opened App
  import Utils
  import Classify
  import Scan
  import Scraper

  const UnknownShow := "Unknown Show"
  const SpecialsSuffix := " - Specials"

  // ---------------------------------------------------------------- reset_film_to_unmatched

  /** The path the reset works from: the file path, or "" when it is NULL. */
  function PathOrEmpty(filePath: Option<string>): string
  {
    if filePath.Some? then filePath.value else ""
  }

  /**
   * The show name of a TV season: the normalised name of the folder holding the season's
   * path, "Unknown Show" when that normalises to nothing.
   */
  function ResetShowName(filePath: Option<string>): (show: string)
    ensures show != []
    ensures Utils.Normalized(Basename(Dirname(PathOrEmpty(filePath)))) != [] ==>
      show == Utils.Normalized(Basename(Dirname(PathOrEmpty(filePath))))
  {
    var name := Utils.Normalized(Basename(Dirname(PathOrEmpty(filePath))));
    if name == [] then UnknownShow else name
  }

  /** The season number of a reset TV season: a negative number becomes 1. */
  function ResetSeason(n: int): (r: int)
    ensures r >= 0
    ensures n >= 0 ==> r == n
    ensures n < 0 ==> r == 1
  {
    if n < 0 then 1 else n
  }

  /** The coercion of the season number is itself idempotent. */
  lemma ResetSeasonIdempotent(n: int)
    ensures ResetSeason(ResetSeason(n)) == ResetSeason(n)
  {
  }

  /**
   * The title a reset TV season gets: "<show> - Specials" for season 0, otherwise the
   * scanner's "<show> - Season <n>" with a negative number read as 1.
   */
  function ResetTvTitle(filePath: Option<string>, season: int): (t: string)
    ensures season == 0 ==> t == ResetShowName(filePath) + SpecialsSuffix
    ensures season != 0 ==> t == Scan.SeasonTitle(ResetShowName(filePath), ResetSeason(season))
  {
    var show := ResetShowName(filePath);
    if season == 0 then show + SpecialsSuffix else Scan.SeasonTitle(show, ResetSeason(season))
  }

  /**
   * The title and year a reset film gets: those parsed from the file name when the parsed
   * title is non-empty, otherwise the normalised file name and year 0.
   */
  function ResetFilmTitle(filePath: Option<string>): (r: (string, int))
    ensures var base := Basename(PathOrEmpty(filePath));
      var parsed := Classify.ParseFilename(base);
      r == if parsed.title != [] then (parsed.title, parsed.year) else (Utils.Normalized(base), 0)
  {
    var base := Basename(PathOrEmpty(filePath));
    var parsed := Classify.ParseFilename(base);
    if parsed.title != [] then (parsed.title, parsed.year) else (Utils.Normalized(base), 0)
  }

  /**
   * The film fields as reset_film_to_unmatched leaves them: status unmatched, the TMDB id,
   * IMDb id, rating, runtime, plot and poster cleared, and the title and year rebuilt —
   * for a TV season from the show folder and the season number (season 0 is the Specials),
   * for a film from the parsed file name, falling back to the normalised file name with
   * year 0 when the parsed title is empty.
   */
  function ResetFields(f: Film): (r: Film)
    ensures r.id == f.id && r.filePath == f.filePath && r.addedDate == f.addedDate
    ensures r.mediaType == f.mediaType
    ensures r.matchStatus == Unmatched && r.tmdbId == 0 && r.imdbId.None? && r.rating == 0.0
    ensures r.runtimeMinutes == 0 && r.plot.None? && r.posterPath.None? && r.title.Some?
    ensures f.mediaType == MediaTvSeason ==> r.seasonNumber == ResetSeason(f.seasonNumber) && r.year == 0
    ensures f.mediaType != MediaTvSeason ==> r.seasonNumber == f.seasonNumber
  {
    var cleared := f.(matchStatus := Unmatched, tmdbId := 0, imdbId := None, rating := 0.0,
                      runtimeMinutes := 0, plot := None, posterPath := None);
    if f.mediaType == MediaTvSeason then
      cleared.(title := Some(ResetTvTitle(f.filePath, f.seasonNumber)), year := 0,
               seasonNumber := ResetSeason(f.seasonNumber))
    else
      var (title, year) := ResetFilmTitle(f.filePath);
      cleared.(title := Some(title), year := year)
  }

  /**
   * What reset writes depends only on the file path, the media type and the season
   * number: two records that agree on those reset to the same record, up to the id and
   * the date added, which reset keeps.
   */
  lemma ResetDependsOnlyOnIdentity(f: Film, g: Film)
    requires f.filePath == g.filePath && f.mediaType == g.mediaType && f.seasonNumber == g.seasonNumber
    ensures ResetFields(f) == ResetFields(g).(id := f.id, addedDate := f.addedDate)
  {
  }

  /** The Specials and season titles do not change when the season number is reset again. */
  lemma ResetTvTitleSeason(filePath: Option<string>, season: int)
    ensures ResetTvTitle(filePath, ResetSeason(season)) == ResetTvTitle(filePath, season)
  {
  }

  /** Resetting twice is resetting once. */
  lemma ResetIdempotent(f: Film)
    ensures ResetFields(ResetFields(f)) == ResetFields(f)
  {
    if f.mediaType == MediaTvSeason {
      ResetTvTitleSeason(f.filePath, f.seasonNumber);
    }
  }

  /** Resetting a film the scraper matched gives what resetting it before the match gave. */
  lemma ResetUndoesMatch(f: Film, d: Scraper.Details, tmdbId: int, poster: Option<string>)
    ensures ResetFields(Scraper.ApplyDetails(f, d, tmdbId, poster)) == ResetFields(f)
  {
    ResetDependsOnlyOnIdentity(Scraper.ApplyDetails(f, d, tmdbId, poster), f);
  }

  /**
   * A film row as the scanner inserted it for an entry of a library folder resets to
   * itself when the parsed title of the entry is non-empty: the reset restores the title
   * and year the scanner gave it.
   */
  lemma ResetRestoresScannedFilm(dir: string, name: string, now: int, id: int)
    requires IsEntryName(name) && Classify.ParseFilename(name).title != []
    ensures var row := Stored(Scan.FilmRecord(BuildFilename(dir, name), name, now), id);
      ResetFields(row) == row
  {
    BasenameOfBuild(dir, name);
  }

  /**
   * A season row as the scanner inserted it for season n >= 1 of a show folder resets to
   * itself when the scanner's show name is the one the reset derives from the path.
   */
  lemma ResetRestoresScannedSeason(showDir: string, season: string, n: int, now: int, id: int)
    requires IsEntryName(season) && n >= 1
    requires showDir != [] && (showDir == "/" || showDir[|showDir| - 1] != '/')
    requires Utils.Normalized(Basename(showDir)) != []
    ensures var path := BuildFilename(showDir, season);
      var rec := Scan.SeasonRecord(path, Utils.Normalized(Basename(showDir)), n, now).(id := id);
      ResetFields(rec) == rec
  {
    DirnameOfBuild(showDir, season);
  }

  /**
   * At the store: a row the reset rewrote resets to what it already holds, so resetting a
   * film twice leaves the films table as the first reset left it.
   */
  lemma ResetRowTwice(films: seq<Film>, id: int)
    requires FilmsValid(films) && GetById(films, id).Some?
    ensures var once := UpdateRows(films, ResetFields(GetById(films, id).value));
      GetById(once, id).Some? &&
      UpdateRows(once, ResetFields(GetById(once, id).value)) == once
  {
    var row := GetById(films, id).value;
    var rec := ResetFields(row);
    UpdateRowsRead(films, rec, "");
    StoredRowReset(row);
    ResetIdempotent(row);
    UpdateRowsTwice(films, rec);
  }

  /** A stored row is a film of season 0, so writing its reset back gives the reset itself. */
  lemma StoredRowReset(row: Film)
    requires IsRow(row)
    ensures Updated(row, ResetFields(row)) == ResetFields(row)
  {
  }

  /** The title of a reset TV season, and its season number, as the source builds them. */
  method TvTitle(filePath: Option<string>, season: int) returns (title: string, n: int)
    ensures title == ResetTvTitle(filePath, season) && n == ResetSeason(season)
  {
    var show := Utils.Normalized(Basename(Dirname(PathOrEmpty(filePath))));
    if |show| == 0 {
      show := UnknownShow;
    }
    n := season;
    if n == 0 {
      title := show + SpecialsSuffix;
    } else {
      if n < 0 {
        n := 1;
      }
      title := Scan.SeasonTitle(show, n);
    }
  }

  /** The title and year of a reset film, as the source builds them. */
  method FilmTitle(filePath: Option<string>) returns (title: string, year: int)
    ensures (title, year) == ResetFilmTitle(filePath)
  {
    var base := Basename(PathOrEmpty(filePath));
    var parsed := Classify.ParseFilename(base);
    if |parsed.title| > 0 {
      title, year := parsed.title, parsed.year;
    } else {
      title, year := Utils.Normalized(base), 0;
    }
  }

  /** The in-place edits of reset_film_to_unmatched on the record read from the store. */
  method ResetRecord(f: Film) returns (film: Film)
    ensures film == ResetFields(f)
  {
    film := f;
    film := film.(matchStatus := Unmatched, tmdbId := 0, imdbId := None, rating := 0.0,
                  runtimeMinutes := 0, plot := None, posterPath := None);
    film := film.(title := None, year := 0);
    if film.mediaType == MediaTvSeason {
      var title, n := TvTitle(film.filePath, film.seasonNumber);
      film := film.(title := Some(title), seasonNumber := n);
    } else {
      var title, year := FilmTitle(film.filePath);
      film := film.(title := Some(title), year := year);
    }
  }

  /**
   * reset_film_to_unmatched: an unknown id changes nothing; otherwise the film's genre,
   * cast and director links are removed, the genre list is marked dirty and the row is
   * rewritten with the reset fields when the store accepts writes.
   */
  method ResetFilmToUnmatched(app: ReelApp, db: Catalogue, id: int)
    requires db.Valid()
    modifies app`genresDirty, db`films, db`filmGenres, db`filmActors, db`filmDirectors
    ensures db.Valid()
    ensures GetById(old(db.films), id).None? ==> unchanged(db) && app.genresDirty == old(app.genresDirty)
    ensures GetById(old(db.films), id).Some? ==>
      app.genresDirty &&
      db.films == (if db.writable then UpdateRows(old(db.films), ResetFields(GetById(old(db.films), id).value))
                   else old(db.films))
    ensures GetById(old(db.films), id).Some? && db.writable ==>
      db.filmGenres == DropFilmLinks(old(db.filmGenres), id) &&
      db.filmDirectors == DropFilmLinks(old(db.filmDirectors), id) &&
      db.filmActors == DropFilmCast(old(db.filmActors), id)
    ensures !db.writable ==>
      db.filmGenres == old(db.filmGenres) && db.filmDirectors == old(db.filmDirectors) &&
      db.filmActors == old(db.filmActors)
  {
    var found := GetById(db.films, id);
    if found.None? {
      return;
    }
    db.ClearAssociations(id);
    app.genresDirty := true;

    var film := ResetRecord(found.value);
    var written := db.FilmUpdate(film);
  }

  // ---------------------------------------------------------------- apply_match_thread

  /**
   * The record apply_match_thread writes before fetching: as a TV season with a season
   * number of at least 1, or as a film.
   */
  function AsMatched(f: Film, asTv: bool): (r: Film)
    ensures asTv ==> r.mediaType == MediaTvSeason && r.seasonNumber >= 1
    ensures asTv && f.seasonNumber >= 1 ==> r.seasonNumber == f.seasonNumber
    ensures !asTv ==> r.mediaType == MediaFilm && r.seasonNumber == f.seasonNumber
    ensures r.(mediaType := f.mediaType, seasonNumber := f.seasonNumber) == f
  {
    if asTv then
      f.(mediaType := MediaTvSeason, seasonNumber := if f.seasonNumber <= 0 then 1 else f.seasonNumber)
    else
      f.(mediaType := MediaFilm)
  }

  /**
   * The media type and season number are not columns of the films table, so writing the
   * converted record back leaves the table as it was.
   */
  lemma ConversionNotStored(films: seq<Film>, id: int, asTv: bool)
    requires FilmsValid(films) && GetById(films, id).Some?
    ensures UpdateRows(films, AsMatched(GetById(films, id).value, asTv)) == films
  {
    var row := GetById(films, id).value;
    var rec := AsMatched(row, asTv);
    var r := UpdateRows(films, rec);
    var k :| 0 <= k < |films| && films[k] == row;
    forall i | 0 <= i < |films| ensures r[i] == films[i] {
      if films[i].id == id {
        assert i == k;
      }
    }
  }

  /** The first write of apply_match_thread: the converted record, which the table does not keep. */
  method WriteConversion(db: Catalogue, filmId: int, asTv: bool)
    requires db.Valid()
    modifies db`films
    ensures db.Valid() && db.films == old(db.films)
  {
    var film := GetById(db.films, filmId);
    if film.Some? {
      ConversionNotStored(db.films, filmId, asTv);
      var converted := db.FilmUpdate(AsMatched(film.value, asTv));
    }
  }

  /** The fetch of apply_match_thread: the chosen entry's details applied to the film's row. */
  method FetchForMatch(app: ReelApp, db: Catalogue, filmId: int, tmdbId: int, response: Option<Scraper.Details>,
                       downloaded: bool) returns (success: bool)
    requires db.Valid()
    modifies db`films, db`genres, db`filmGenres, db`actors, db`filmActors, db`directors, db`filmDirectors
    ensures db.Valid()
    ensures success <==> app.tmdbApiKey.Some? && response.Some? && GetById(old(db.films), filmId).Some?
    ensures !success ==> unchanged(db)
    ensures success && db.writable ==>
      var d := response.value;
      GetById(db.films, filmId) == Some(Scraper.ApplyDetails(GetById(old(db.films), filmId).value, d, tmdbId,
                                          Scraper.NewPoster(app.posterCachePath, d.posterPath, tmdbId, downloaded)))
    ensures success && !db.writable ==> db.films == old(db.films)
    ensures success ==> var d := response.value;
      var rec := Scraper.ApplyDetails(GetById(old(db.films), filmId).value, d, tmdbId,
                                      Scraper.NewPoster(app.posterCachePath, d.posterPath, tmdbId, downloaded));
      db.films == (if db.writable then UpdateRows(old(db.films), rec) else old(db.films)) &&
      (db.genres, db.filmGenres) ==
        Scraper.GenresAfter((old(db.genres), old(db.filmGenres)), filmId, db.writable, Scraper.GenreItems(d)) &&
      (db.actors, db.filmActors) ==
        Scraper.CastAfter((old(db.actors), old(db.filmActors)), filmId, db.writable, Scraper.CastItems(d),
                          Scraper.CastCount(Scraper.CastItems(d))) &&
      (db.directors, db.filmDirectors) ==
        Scraper.DirectorsAfter((old(db.directors), old(db.filmDirectors)), filmId, db.writable, Scraper.CrewItems(d))
  {
    var url;
    success, url := Scraper.FetchAndUpdate(app, db, filmId, tmdbId, response, downloaded);
    if success && db.writable {
      ghost var row := GetById(old(db.films), filmId).value;
      ghost var rec := Scraper.ApplyDetails(row, response.value, tmdbId,
                         Scraper.NewPoster(app.posterCachePath, response.value.posterPath, tmdbId, downloaded));
      UpdateRowsRead(old(db.films), rec, "");
      assert Updated(row, rec) == rec;
    }
  }

  /** The last write of apply_match_thread: the film read back, with status MANUAL. */
  method MarkManual(db: Catalogue, filmId: int)
    requires db.Valid()
    modifies db`films
    ensures db.Valid()
    ensures db.writable && GetById(old(db.films), filmId).Some? ==>
      GetById(db.films, filmId) == Some(GetById(old(db.films), filmId).value.(matchStatus := Manual))
    ensures !db.writable ==> db.films == old(db.films)
    ensures GetById(old(db.films), filmId).None? ==> db.films == old(db.films)
    ensures GetById(old(db.films), filmId).Some? ==>
      db.films == if db.writable then UpdateRows(old(db.films), GetById(old(db.films), filmId).value.(matchStatus := Manual))
                  else old(db.films)
  {
    var fetched := GetById(db.films, filmId);
    if fetched.Some? {
      var manual := fetched.value.(matchStatus := Manual);
      UpdateRowsRead(db.films, manual, "");
      var marked := db.FilmUpdate(manual);
    }
  }

  /**
   * The fetch of apply_match_thread and, only when it succeeded, the MANUAL status: the
   * film's row holds the applied reply marked MANUAL, the other rows stay, and the genre,
   * cast and director tables are those scraper_fetch_and_update's loops give.
   */
  method FetchAndMark(app: ReelApp, db: Catalogue, filmId: int, tmdbId: int, response: Option<Scraper.Details>,
                      downloaded: bool) returns (success: bool)
    requires db.Valid()
    modifies db`films, db`genres, db`filmGenres, db`actors, db`filmActors, db`directors, db`filmDirectors
    ensures db.Valid()
    ensures success <==> app.tmdbApiKey.Some? && response.Some? && GetById(old(db.films), filmId).Some?
    ensures !success ==> unchanged(db)
    ensures success ==> var d := response.value;
      var rec := Scraper.ApplyDetails(GetById(old(db.films), filmId).value, d, tmdbId,
                                      Scraper.NewPoster(app.posterCachePath, d.posterPath, tmdbId, downloaded));
      db.films == (if db.writable then UpdateRows(old(db.films), rec.(matchStatus := Manual)) else old(db.films)) &&
      (db.genres, db.filmGenres) ==
        Scraper.GenresAfter((old(db.genres), old(db.filmGenres)), filmId, db.writable, Scraper.GenreItems(d)) &&
      (db.actors, db.filmActors) ==
        Scraper.CastAfter((old(db.actors), old(db.filmActors)), filmId, db.writable, Scraper.CastItems(d),
                          Scraper.CastCount(Scraper.CastItems(d))) &&
      (db.directors, db.filmDirectors) ==
        Scraper.DirectorsAfter((old(db.directors), old(db.filmDirectors)), filmId, db.writable, Scraper.CrewItems(d))
  {
    ghost var films0 := db.films;
    success := FetchForMatch(app, db, filmId, tmdbId, response, downloaded);
    if success {
      ghost var films1 := db.films;
      ghost var rec := Scraper.ApplyDetails(GetById(films0, filmId).value, response.value, tmdbId,
                         Scraper.NewPoster(app.posterCachePath, response.value.posterPath, tmdbId, downloaded));
      MarkManual(db, filmId);
      MarkTables(films0, films1, db.films, rec, db.writable);
    }
  }

  /**
   * A thread's own connection to the database: connected reports whether sqlite3_open
   * succeeded. When it did not, the match fails and nothing changes. Otherwise the film is
   * rewritten as a TV season or a film, the chosen TMDB entry is fetched and applied, and,
   * only when that succeeded, the film's status becomes MANUAL.
   */
  method ApplyMatch(app: ReelApp, db: Catalogue, filmId: int, tmdbId: int, asTv: bool, connected: bool,
                    response: Option<Scraper.Details>, downloaded: bool) returns (success: bool)
    requires db.Valid()
    modifies db`films, db`genres, db`filmGenres, db`actors, db`filmActors, db`directors, db`filmDirectors
    ensures db.Valid()
    ensures success <==>
      connected && app.tmdbApiKey.Some? && response.Some? && GetById(old(db.films), filmId).Some?
    ensures !success ==> unchanged(db)
    ensures success && db.writable ==>
      var d := response.value;
      var row := GetById(old(db.films), filmId).value;
      var rec := Scraper.ApplyDetails(row, d, tmdbId,
                                      Scraper.NewPoster(app.posterCachePath, d.posterPath, tmdbId, downloaded));
      GetById(db.films, filmId) == Some(rec.(matchStatus := Manual))
    ensures success && !db.writable ==> db.films == old(db.films)
    ensures success ==> var d := response.value;
      var rec := Scraper.ApplyDetails(GetById(old(db.films), filmId).value, d, tmdbId,
                                      Scraper.NewPoster(app.posterCachePath, d.posterPath, tmdbId, downloaded));
      db.films == (if db.writable then UpdateRows(old(db.films), rec.(matchStatus := Manual)) else old(db.films)) &&
      (db.genres, db.filmGenres) ==
        Scraper.GenresAfter((old(db.genres), old(db.filmGenres)), filmId, db.writable, Scraper.GenreItems(d)) &&
      (db.actors, db.filmActors) ==
        Scraper.CastAfter((old(db.actors), old(db.filmActors)), filmId, db.writable, Scraper.CastItems(d),
                          Scraper.CastCount(Scraper.CastItems(d))) &&
      (db.directors, db.filmDirectors) ==
        Scraper.DirectorsAfter((old(db.directors), old(db.filmDirectors)), filmId, db.writable, Scraper.CrewItems(d))
  {
    if !connected {
      return false;
    }
    WriteConversion(db, filmId, asTv);
    success := FetchAndMark(app, db, filmId, tmdbId, response, downloaded);
    if success && db.writable {
      ghost var row := GetById(old(db.films), filmId).value;
      ghost var rec := Scraper.ApplyDetails(row, response.value, tmdbId,
                         Scraper.NewPoster(app.posterCachePath, response.value.posterPath, tmdbId, downloaded));
      UpdateRowsRead(old(db.films), rec.(matchStatus := Manual), "");
      assert Updated(row, rec.(matchStatus := Manual)) == rec.(matchStatus := Manual);
    }
  }

  /** The films table through the fetch's UPDATE and then the MANUAL one. */
  lemma MarkTables(films0: seq<Film>, films1: seq<Film>, films2: seq<Film>, rec: Film, writable: bool)
    requires FilmsValid(films0) && GetById(films0, rec.id).Some?
    requires films1 == if writable then UpdateRows(films0, rec) else films0
    requires GetById(films1, rec.id).Some? ==>
      films2 == if writable then UpdateRows(films1, GetById(films1, rec.id).value.(matchStatus := Manual)) else films1
    ensures films2 == if writable then UpdateRows(films0, rec.(matchStatus := Manual)) else films0
  {
    if writable {
      MarkAfterUpdate(films0, rec);
    }
  }

  /**
   * Marking the row read back after an update MANUAL is the same as updating with the record
   * already marked: the second UPDATE sets the same nine columns with only the status changed.
   */
  lemma MarkAfterUpdate(films: seq<Film>, rec: Film)
    requires FilmsValid(films) && GetById(films, rec.id).Some?
    ensures var mid := UpdateRows(films, rec);
      GetById(mid, rec.id).Some? &&
      UpdateRows(mid, GetById(mid, rec.id).value.(matchStatus := Manual)) == UpdateRows(films, rec.(matchStatus := Manual))
  {
    var mid := UpdateRows(films, rec);
    UpdateRowsRead(films, rec, "");
    var marked := GetById(mid, rec.id).value.(matchStatus := Manual);
    assert marked == Updated(GetById(films, rec.id).value, rec).(matchStatus := Manual);
    forall i | 0 <= i < |films|
      ensures UpdateRows(mid, marked)[i] == UpdateRows(films, rec.(matchStatus := Manual))[i]
    {
      if films[i].id == rec.id {
        UpdatedTwice(films[i], rec, marked);
      }
    }
  }
}
