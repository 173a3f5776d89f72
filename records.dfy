// The records the catalogue passes around: films (and TV seasons, which share the films
// table), episodes and the filter of the main window, with their constructors and copies.

module Records {
  import opened Wrappers

  /** How a film row was matched to TMDB; the integer codes are the ones stored. */
  datatype MatchStatus = Unmatched | Auto | Manual | Ignored

  function StatusCode(m: MatchStatus): (c: int)
    ensures 0 <= c <= 3
    ensures c == 0 <==> m == Unmatched
  {
    match m
    case Unmatched => 0
    case Auto => 1
    case Manual => 2
    case Ignored => 3
  }

  function StatusOfCode(c: int): (m: Option<MatchStatus>)
    ensures m.Some? <==> 0 <= c <= 3
  {
    if c == 0 then Some(Unmatched)
    else if c == 1 then Some(Auto)
    else if c == 2 then Some(Manual)
    else if c == 3 then Some(Ignored)
    else None
  }

  /** The stored codes identify the statuses: reading a code back gives the status. */
  lemma StatusCodeRoundTrip(m: MatchStatus, c: int)
    ensures StatusOfCode(StatusCode(m)) == Some(m)
    ensures StatusOfCode(c).Some? ==> StatusCode(StatusOfCode(c).value) == c
  {
  }

  /** A row of the catalogue: a film, or a TV season when mediaType says so. */
  datatype MediaType = MediaFilm | MediaTvSeason

  /**
   * A Film record. A NULL C string is None; the cached poster pixbuf is not part of the
   * model, and the rating is kept as an exact real.
   */
  datatype Film = Film(
    id: int,
    filePath: Option<string>,
    title: Option<string>,
    year: int,
    runtimeMinutes: int,
    plot: Option<string>,
    posterPath: Option<string>,
    tmdbId: int,
    imdbId: Option<string>,
    rating: real,
    addedDate: int,
    matchStatus: MatchStatus,
    mediaType: MediaType,
    seasonNumber: int)

  /** An episode of a TV season row. */
  datatype Episode = Episode(
    id: int,
    seasonId: int,
    episodeNumber: int,
    title: Option<string>,
    filePath: Option<string>,
    plot: Option<string>,
    airDate: Option<string>)

  /** The filter of the main window; None is a NULL string. */
  datatype FilterState = FilterState(
    genre: Option<string>,
    yearFrom: int,
    yearTo: int,
    actor: Option<string>,
    director: Option<string>,
    searchText: Option<string>,
    plotText: Option<string>,
    sortBy: Option<string>,
    sortAscending: bool)

  /** film_new: a zero-filled record. */
  function FilmNew(): (f: Film)
    ensures f.id == 0 && f.filePath.None? && f.title.None? && f.year == 0
    ensures f.runtimeMinutes == 0 && f.plot.None? && f.posterPath.None? && f.tmdbId == 0
    ensures f.imdbId.None? && f.rating == 0.0 && f.addedDate == 0
    ensures f.matchStatus == Unmatched && f.mediaType == MediaFilm && f.seasonNumber == 0
  {
    Film(0, None, None, 0, 0, None, None, 0, None, 0.0, 0, Unmatched, MediaFilm, 0)
  }

  /** episode_new: a zero-filled record. */
  function EpisodeNew(): (e: Episode)
    ensures e.id == 0 && e.seasonId == 0 && e.episodeNumber == 0
    ensures e.title.None? && e.filePath.None? && e.plot.None? && e.airDate.None?
  {
    Episode(0, 0, 0, None, None, None, None)
  }

  /** film_copy: NULL gives NULL, otherwise a field-by-field copy. */
  function FilmCopy(f: Option<Film>): (r: Option<Film>)
    ensures r.None? <==> f.None?
    ensures r.Some? ==> r.value == f.value
  {
    match f
    case None => None
    case Some(x) => Some(Film(x.id, x.filePath, x.title, x.year, x.runtimeMinutes, x.plot,
                              x.posterPath, x.tmdbId, x.imdbId, x.rating, x.addedDate,
                              x.matchStatus, x.mediaType, x.seasonNumber))
  }

  /** The all-zero filter that memset leaves behind. */
  function FilterZero(): (z: FilterState)
    ensures z.genre.None? && z.actor.None? && z.director.None? && z.searchText.None?
    ensures z.plotText.None? && z.sortBy.None? && z.yearFrom == 0 && z.yearTo == 0 && !z.sortAscending
  {
    FilterState(None, 0, 0, None, None, None, None, None, false)
  }

  /** filter_state_init: everything zero except sorting by title, ascending. */
  function FilterInit(): (f: FilterState)
    ensures f.genre.None? && f.actor.None? && f.director.None? && f.searchText.None?
    ensures f.plotText.None? && f.yearFrom == 0 && f.yearTo == 0
    ensures f.sortBy == Some("title") && f.sortAscending
  {
    FilterZero().(sortBy := Some("title"), sortAscending := true)
  }

  /** filter_state_clone: a NULL source gives the zero filter, otherwise an equal copy. */
  function FilterClone(src: Option<FilterState>): (r: FilterState)
    ensures src.None? ==> r == FilterZero()
    ensures src.Some? ==> r == src.value
  {
    match src
    case None => FilterZero()
    case Some(s) => FilterState(s.genre, s.yearFrom, s.yearTo, s.actor, s.director, s.searchText,
                                s.plotText, s.sortBy, s.sortAscending)
  }
}
