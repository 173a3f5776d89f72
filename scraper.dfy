// The TMDB matcher: the response buffer of the HTTP client, the shaping of search results,
// the application of a movie's details to its row and links, the background auto-match
// pass and its start/stop control. Network replies are given as parsed records: a key
// absent from a JSON object is None, a key present with JSON null is Some(None).

module Scraper {
  import opened Wrappers
  import opened Text
  import opened Records
  import opened Store
  import opened App

  const ApiBase := "https://api.themoviedb.org/3"
  const ImageBase := "https://image.tmdb.org/t/p"
  /** Search results kept, and cast entries stored, at most. */
  const MaxResults := 10
  const MaxCast := 10

  // ---------------------------------------------------------------- the response buffer

  /** CurlBuffer: a growing byte buffer kept NUL-terminated once anything was written. */
  class CurlBuffer {
    var data: seq<bv8>
    var size: int

    ghost predicate Valid()
      reads this
    {
      0 <= size && ((data == [] && size == 0) || (|data| == size + 1 && data[size] == 0))
    }

    /** The bytes received so far. */
    function Content(): (c: seq<bv8>)
      requires Valid()
      reads this
      ensures |c| == size
    {
      if data == [] then [] else data[..size]
    }

    /** The buffer curl starts from: no storage yet. */
    constructor ()
      ensures Valid() && Content() == [] && data == []
    {
      data := [];
      size := 0;
    }

    /**
     * my_write_callback: the size * nmemb bytes of the chunk are appended, the size grows
     * by as much, a NUL follows the data, and the chunk length is reported as consumed.
     */
    method Write(contents: seq<bv8>, size: nat, nmemb: nat) returns (n: nat)
      requires Valid() && |contents| == size * nmemb
      modifies this
      ensures Valid()
      ensures n == size * nmemb && this.size == old(this.size) + n
      ensures Content() == old(Content()) + contents
      ensures |data| == this.size + 1 && data[this.size] == 0
    {
      n := size * nmemb;
      var received := Content();
      data := received + contents + [0];
      this.size := this.size + n;
      assert data[..this.size] == received + contents;
    }
  }

  // ---------------------------------------------------------------- JSON values

  /** json_object_get_string of a key looked up into a NULL-initialised variable. */
  function StringOf(v: Option<Option<string>>): (r: Option<string>)
    ensures v.None? ==> r.None?
    ensures v.Some? ==> r == v.value
  {
    if v.Some? then v.value else None
  }

  /** json_object_get_int of a key, 0 when the key is absent. */
  function IntOf(v: Option<int>): (r: int)
    ensures v.Some? ==> r == v.value
    ensures v.None? ==> r == 0
  {
    if v.Some? then v.value else 0
  }

  /**
   * The year read from a release_date: its leading integer when the string has at least
   * four characters, otherwise the previous year.
   */
  function YearOf(date: Option<Option<string>>, previous: int): (y: int)
  {
    if date.Some? && date.value.Some? && |date.value.value| >= 4 then Atoi(date.value.value) else previous
  }

  /** A date "YYYY-MM-DD" (or "YYYY" alone) gives YYYY. */
  lemma ReleaseYear(year: nat, rest: string, previous: int)
    requires year >= 1000
    requires rest == [] || rest[0] == '-'
    ensures YearOf(Some(Some(NatToString(year) + rest)), previous) == year
  {
    NatToStringReadBack(year, rest);
    var s := NatToString(year);
    LongPrint(year);
    assert (s + rest)[0] == s[0];
    AtoiOfDigitStart(s + rest);
  }

  /** A number of at least 1000 prints in at least four digits. */
  lemma LongPrint(n: nat)
    requires n >= 1000
    ensures |NatToString(n)| >= 4
  {
    var a := n / 10;
    var b := a / 10;
    var c := b / 10;
    assert |NatToString(n)| == |NatToString(a)| + 1;
    assert |NatToString(a)| == |NatToString(b)| + 1;
    assert |NatToString(b)| == |NatToString(c)| + 1;
  }

  /** A date shorter than four characters, JSON null or absent, keeps the previous year. */
  lemma ShortDateKeepsYear(date: Option<Option<string>>, previous: int)
    requires date.None? || date.value.None? || |date.value.value| < 4
    ensures YearOf(date, previous) == previous
  {
  }

  // ---------------------------------------------------------------- search

  datatype SearchItem = SearchItem(
    id: Option<int>,
    title: Option<Option<string>>,
    releaseDate: Option<Option<string>>,
    posterPath: Option<Option<string>>,
    overview: Option<Option<string>>,
    voteAverage: Option<real>)

  /** The "results" array of a search reply, if the reply has one. */
  datatype SearchResponse = SearchResponse(results: Option<seq<SearchItem>>)

  /** TmdbSearchResult. */
  datatype SearchResult = SearchResult(
    tmdbId: int,
    title: Option<string>,
    year: int,
    posterPath: Option<string>,
    overview: Option<string>,
    voteAverage: real)

  /** A result built from a reply item: each absent key leaves its zeroed field. */
  function ResultOf(item: SearchItem): (r: SearchResult)
    ensures item.id.None? ==> r.tmdbId == 0
    ensures item.title.None? ==> r.title.None?
    ensures item.voteAverage.None? ==> r.voteAverage == 0.0
  {
    SearchResult(IntOf(item.id), StringOf(item.title), YearOf(item.releaseDate, 0), StringOf(item.posterPath),
                 StringOf(item.overview), if item.voteAverage.Some? then item.voteAverage.value else 0.0)
  }

  /** The items of a reply; none when the request or the parse failed or "results" is absent. */
  function ItemsOf(response: Option<SearchResponse>): seq<SearchItem>
  {
    if response.Some? && response.value.results.Some? then response.value.results.value else []
  }

  /** The results the search returns: none without a usable key, else the first ten items shaped. */
  function SearchResults(apiKey: Option<string>, response: Option<SearchResponse>): (r: seq<SearchResult>)
    ensures apiKey.None? || apiKey.value == [] ==> r == []
    ensures |r| <= MaxResults
    ensures apiKey.Some? && apiKey.value != [] ==>
      |r| == (if |ItemsOf(response)| < MaxResults then |ItemsOf(response)| else MaxResults) &&
      forall i :: 0 <= i < |r| ==> r[i] == ResultOf(ItemsOf(response)[i])
  {
    if apiKey.None? || apiKey.value == [] then []
    else
      var items := ItemsOf(response);
      var n := if |items| < MaxResults then |items| else MaxResults;
      seq(n, i requires 0 <= i < n => ResultOf(items[i]))
  }

  /** The "&year=N" part of a search URL: present exactly for a positive year. */
  function YearPart(year: int): (p: string)
    ensures p != [] <==> year > 0
  {
    if year > 0 then "&year=" + IntToString(year) else ""
  }

  function SearchUrl(apiKey: string, encodedQuery: string, year: int): string
  {
    ApiBase + "/search/movie?api_key=" + apiKey + "&query=" + encodedQuery + YearPart(year)
  }

  /** The search URL ends in "&year=N" for a positive year and in the query otherwise. */
  lemma SearchUrlYear(apiKey: string, encodedQuery: string, year: int)
    ensures year > 0 ==> IsSuffix("&year=" + IntToString(year), SearchUrl(apiKey, encodedQuery, year))
    ensures year <= 0 ==> IsSuffix(encodedQuery, SearchUrl(apiKey, encodedQuery, year))
  {
    var base := ApiBase + "/search/movie?api_key=" + apiKey + "&query=" + encodedQuery;
    assert SearchUrl(apiKey, encodedQuery, year) == base + YearPart(year);
    if year <= 0 {
      assert base + YearPart(year) == base;
    }
  }

  /**
   * scraper_search_tmdb: without a key, or with an empty one, no request is made and
   * nothing is returned. Otherwise the request goes to the search URL, with the query as
   * curl escaped it, and at most ten results come back in the reply's order.
   */
  method SearchTmdb(apiKey: Option<string>, encodedQuery: string, year: int, response: Option<SearchResponse>)
    returns (results: seq<SearchResult>, url: Option<string>)
    ensures results == SearchResults(apiKey, response)
    ensures url.Some? <==> apiKey.Some? && apiKey.value != []
    ensures url.Some? ==> url.value == SearchUrl(apiKey.value, encodedQuery, year)
  {
    if apiKey.None? || apiKey.value == [] {
      return [], None;
    }
    url := Some(SearchUrl(apiKey.value, encodedQuery, year));
    results := [];
    if response.None? {
      return;
    }
    if response.value.results.Some? {
      var items := response.value.results.value;
      var i := 0;
      while i < |items| && i < MaxResults
        invariant 0 <= i <= |items| && i <= MaxResults
        invariant |results| == i && forall j :: 0 <= j < i ==> results[j] == ResultOf(items[j])
      {
        results := results + [ResultOf(items[i])];
        i := i + 1;
      }
    }
  }

  // ---------------------------------------------------------------- details

  datatype GenreItem = GenreItem(name: Option<Option<string>>)
  datatype CastItem = CastItem(name: Option<Option<string>>, character: Option<Option<string>>, id: Option<int>)
  datatype CrewItem = CrewItem(job: Option<Option<string>>, name: Option<Option<string>>, id: Option<int>)
  datatype Credits = Credits(cast: Option<seq<CastItem>>, crew: Option<seq<CrewItem>>)

  /** A /movie/{id} reply with its appended credits. */
  datatype Details = Details(
    title: Option<Option<string>>,
    releaseDate: Option<Option<string>>,
    runtime: Option<int>,
    overview: Option<Option<string>>,
    voteAverage: Option<real>,
    imdbId: Option<Option<string>>,
    posterPath: Option<Option<string>>,
    genres: Option<seq<GenreItem>>,
    credits: Option<Credits>)

  function GenreItems(d: Details): seq<GenreItem>
  {
    if d.genres.Some? then d.genres.value else []
  }

  function CastItems(d: Details): seq<CastItem>
  {
    if d.credits.Some? && d.credits.value.cast.Some? then d.credits.value.cast.value else []
  }

  function CrewItems(d: Details): seq<CrewItem>
  {
    if d.credits.Some? && d.credits.value.crew.Some? then d.credits.value.crew.value else []
  }

  function DetailsUrl(tmdbId: int, apiKey: string): string
  {
    ApiBase + "/movie/" + IntToString(tmdbId) + "?api_key=" + apiKey + "&append_to_response=credits"
  }

  /** scraper_download_poster: the w500 image of the reply's poster path. */
  function PosterUrl(posterPath: string): string
  {
    ImageBase + "/w500" + posterPath
  }

  /** The cached poster file of a TMDB id: "<id>.jpg" in the poster cache. */
  function PosterFileOf(cache: string, tmdbId: int): string
  {
    BuildFilename(cache, IntToString(tmdbId) + ".jpg")
  }

  /** The cached poster of a TMDB id lies directly in the poster cache under "<id>.jpg". */
  lemma PosterFileInCache(cache: string, tmdbId: int)
    requires cache != [] && (cache == "/" || cache[|cache| - 1] != '/')
    ensures Dirname(PosterFileOf(cache, tmdbId)) == cache
    ensures Basename(PosterFileOf(cache, tmdbId)) == IntToString(tmdbId) + ".jpg"
  {
    var name := IntToString(tmdbId) + ".jpg";
    var digits := NatToString(if tmdbId < 0 then -tmdbId else tmdbId);
    assert forall i :: 0 <= i < |digits| ==> digits[i] != '/';
    assert forall i :: 0 <= i < |name| ==> name[i] != '/';
    DirnameOfBuild(cache, name);
    BasenameOfBuild(cache, name);
  }

  /**
   * The new poster path: set only when the reply names a poster and its download into
   * the cache succeeded (with no cache the download target cannot be opened).
   */
  function NewPoster(cache: Option<string>, posterPath: Option<Option<string>>, tmdbId: int, downloaded: bool): (p: Option<string>)
    ensures p.Some? ==> downloaded && cache.Some? && StringOf(posterPath).Some?
  {
    if StringOf(posterPath).Some? && downloaded && cache.Some? then Some(PosterFileOf(cache.value, tmdbId)) else None
  }

  /**
   * The film record after the reply's fields are applied: each field present in the
   * reply replaces the record's, absent ones stay; the TMDB id is recorded, the status
   * becomes AUTO, and the poster moves to a newly downloaded file if there is one.
   */
  function ApplyDetails(film: Film, d: Details, tmdbId: int, newPoster: Option<string>): (r: Film)
    ensures r.id == film.id && r.filePath == film.filePath && r.addedDate == film.addedDate
    ensures r.mediaType == film.mediaType && r.seasonNumber == film.seasonNumber
    ensures r.tmdbId == tmdbId && r.matchStatus == Auto
  {
    film.(
      title := if d.title.Some? then d.title.value else film.title,
      year := YearOf(d.releaseDate, film.year),
      runtimeMinutes := if d.runtime.Some? then d.runtime.value else film.runtimeMinutes,
      plot := if d.overview.Some? then d.overview.value else film.plot,
      rating := if d.voteAverage.Some? then d.voteAverage.value else film.rating,
      imdbId := if d.imdbId.Some? then d.imdbId.value else film.imdbId,
      tmdbId := tmdbId,
      matchStatus := Auto,
      posterPath := if newPoster.Some? then newPoster else film.posterPath)
  }

  /** A reply without fields changes nothing but the TMDB id and the status. */
  lemma EmptyDetailsKeep(film: Film, tmdbId: int, genres: Option<seq<GenreItem>>, credits: Option<Credits>)
    ensures ApplyDetails(film, Details(None, None, None, None, None, None, None, genres, credits), tmdbId, None) ==
      film.(tmdbId := tmdbId, matchStatus := Auto)
  {
  }

  /**
   * Each of the seven fields is kept when the reply lacks its key and taken from the
   * reply otherwise (a JSON null clears a string field).
   */
  lemma DetailsFieldByField(film: Film, d: Details, tmdbId: int, newPoster: Option<string>)
    ensures var r := ApplyDetails(film, d, tmdbId, newPoster);
      (r.title == if d.title.None? then film.title else d.title.value) &&
      (r.plot == if d.overview.None? then film.plot else d.overview.value) &&
      (r.imdbId == if d.imdbId.None? then film.imdbId else d.imdbId.value) &&
      (r.runtimeMinutes == if d.runtime.None? then film.runtimeMinutes else d.runtime.value) &&
      (r.rating == if d.voteAverage.None? then film.rating else d.voteAverage.value) &&
      (d.releaseDate.None? ==> r.year == film.year) &&
      (newPoster.None? ==> r.posterPath == film.posterPath)
  {
  }

  /** Applying the same reply twice gives the record applying it once gives. */
  lemma ApplyDetailsIdempotent(film: Film, d: Details, tmdbId: int, newPoster: Option<string>)
    ensures ApplyDetails(ApplyDetails(film, d, tmdbId, newPoster), d, tmdbId, newPoster) ==
      ApplyDetails(film, d, tmdbId, newPoster)
  {
  }

  // ---------------------------------------------------------------- links from the reply

  /** A name table and a link set. */
  type Links = (seq<Named>, set<(int, int)>)

  /** One genre of the reply: a genre with a "name" key is found or created and linked. */
  function GenreStep(t: Links, filmId: int, writable: bool, g: GenreItem): Links
  {
    if g.name.None? then t
    else
      var (rows, gid) := GetOrCreate(t.0, g.name.value, 0, writable);
      (rows, if gid >= 0 && writable then t.1 + {(filmId, gid)} else t.1)
  }

  /** The genre table and links after the genre loop over items, for a film that exists. */
  function GenresAfter(t: Links, filmId: int, writable: bool, items: seq<GenreItem>): Links
    decreases |items|
  {
    if items == [] then t
    else GenreStep(GenresAfter(t, filmId, writable, items[..|items| - 1]), filmId, writable, items[|items| - 1])
  }

  /** A crew entry whose "job" is the string "Director". */
  predicate IsDirector(c: CrewItem) { StringOf(c.job) == Some("Director") }

  /** One crew entry: a director with a non-NULL name is found or created and linked. */
  function DirectorStep(t: Links, filmId: int, writable: bool, c: CrewItem): Links
  {
    if !IsDirector(c) || StringOf(c.name).None? then t
    else
      var (rows, did) := GetOrCreate(t.0, StringOf(c.name), IntOf(c.id), writable);
      (rows, if did >= 0 && writable then t.1 + {(filmId, did)} else t.1)
  }

  function DirectorsAfter(t: Links, filmId: int, writable: bool, items: seq<CrewItem>): Links
    decreases |items|
  {
    if items == [] then t
    else DirectorStep(DirectorsAfter(t, filmId, writable, items[..|items| - 1]), filmId, writable, items[|items| - 1])
  }

  /** An actor table and the cast links. */
  type Cast = (seq<Named>, map<(int, int), CastLink>)

  /** Cast entry i: an actor with a non-NULL name is found or created and linked at order i. */
  function CastStep(t: Cast, filmId: int, writable: bool, c: CastItem, i: int): Cast
  {
    if StringOf(c.name).None? then t
    else
      var (rows, aid) := GetOrCreate(t.0, StringOf(c.name), IntOf(c.id), writable);
      (rows, if aid >= 0 && writable then t.1[(filmId, aid) := CastLink(StringOf(c.character), i)] else t.1)
  }

  /** The actor table and cast links after the first n cast entries. */
  function CastAfter(t: Cast, filmId: int, writable: bool, items: seq<CastItem>, n: nat): Cast
    requires n <= |items|
  {
    if n == 0 then t
    else CastStep(CastAfter(t, filmId, writable, items, n - 1), filmId, writable, items[n - 1], n - 1)
  }

  /** The number of cast entries the loop reads. */
  function CastCount(items: seq<CastItem>): (n: nat)
    ensures n <= |items| && n <= MaxCast
    ensures n == |items| || n == MaxCast
  {
    if |items| < MaxCast then |items| else MaxCast
  }

  /** A row named name is linked to the film. */
  ghost predicate Linked(rows: seq<Named>, links: set<(int, int)>, filmId: int, name: Option<string>)
  {
    exists j :: 0 <= j < |rows| && rows[j].name == name && (filmId, rows[j].id) in links
  }

  /** With writes succeeding, finding or creating succeeds and yields a row of that name. */
  lemma GetOrCreateFinds(rows: seq<Named>, name: Option<string>, tmdbId: int)
    requires NamedValid(rows)
    ensures var (r, id) := GetOrCreate(rows, name, tmdbId, true);
      id >= 1 && NamedValid(r) && |rows| <= |r| && r[..|rows|] == rows &&
      exists j :: 0 <= j < |r| && r[j].name == name && r[j].id == id
  {
    GetOrCreateValid(rows, name, tmdbId, true);
    var (r, id) := GetOrCreate(rows, name, tmdbId, true);
    match FindName(rows, name, 0)
    case Some(k) =>
      assert r[k].name == name && r[k].id == id;
    case None =>
      assert r[|rows|].name == name && r[|rows|].id == id;
  }

  /** A link stays once the table only grows at its end and the links only grow. */
  lemma LinkedGrows(rows: seq<Named>, links: set<(int, int)>, rows': seq<Named>, links': set<(int, int)>,
                    filmId: int, name: Option<string>)
    requires Linked(rows, links, filmId, name)
    requires |rows| <= |rows'| && rows'[..|rows|] == rows && links <= links'
    ensures Linked(rows', links', filmId, name)
  {
    var j :| 0 <= j < |rows| && rows[j].name == name && (filmId, rows[j].id) in links;
    assert rows'[j] == rows[j];
  }

  /**
   * With writes succeeding, every genre of the reply that has a "name" key ends up
   * linked to the film, through a genre row of that name.
   */
  lemma {:induction false} GenresAllLinked(t: Links, filmId: int, items: seq<GenreItem>)
    requires NamedValid(t.0)
    ensures var r := GenresAfter(t, filmId, true, items);
      NamedValid(r.0) && |t.0| <= |r.0| && r.0[..|t.0|] == t.0 && t.1 <= r.1 &&
      forall i :: 0 <= i < |items| && items[i].name.Some? ==> Linked(r.0, r.1, filmId, items[i].name.value)
    decreases |items|
  {
    if items != [] {
      var init := items[..|items| - 1];
      var g := items[|items| - 1];
      GenresAllLinked(t, filmId, init);
      var m := GenresAfter(t, filmId, true, init);
      var r := GenreStep(m, filmId, true, g);
      assert r == GenresAfter(t, filmId, true, items);
      if g.name.Some? {
        GetOrCreateFinds(m.0, g.name.value, 0);
      }
      assert |m.0| <= |r.0| && r.0[..|m.0|] == m.0 && m.1 <= r.1;
      assert r.0[..|t.0|] == m.0[..|t.0|];
      forall i | 0 <= i < |items| && items[i].name.Some? ensures Linked(r.0, r.1, filmId, items[i].name.value) {
        if i < |items| - 1 {
          assert items[i] == init[i];
          LinkedGrows(m.0, m.1, r.0, r.1, filmId, items[i].name.value);
        }
      }
    }
  }

  /**
   * With writes succeeding, every crew entry with job "Director" and a non-NULL name ends
   * up linked to the film through a director row of that name.
   */
  lemma {:induction false} DirectorsAllLinked(t: Links, filmId: int, items: seq<CrewItem>)
    requires NamedValid(t.0)
    ensures var r := DirectorsAfter(t, filmId, true, items);
      NamedValid(r.0) && |t.0| <= |r.0| && r.0[..|t.0|] == t.0 && t.1 <= r.1 &&
      forall i :: 0 <= i < |items| && IsDirector(items[i]) && StringOf(items[i].name).Some? ==>
        Linked(r.0, r.1, filmId, StringOf(items[i].name))
    decreases |items|
  {
    if items != [] {
      var init := items[..|items| - 1];
      var c := items[|items| - 1];
      DirectorsAllLinked(t, filmId, init);
      var m := DirectorsAfter(t, filmId, true, init);
      var r := DirectorStep(m, filmId, true, c);
      assert r == DirectorsAfter(t, filmId, true, items);
      if IsDirector(c) && StringOf(c.name).Some? {
        GetOrCreateFinds(m.0, StringOf(c.name), IntOf(c.id));
      }
      assert |m.0| <= |r.0| && r.0[..|m.0|] == m.0 && m.1 <= r.1;
      assert r.0[..|t.0|] == m.0[..|t.0|];
      forall i | 0 <= i < |items| && IsDirector(items[i]) && StringOf(items[i].name).Some?
        ensures Linked(r.0, r.1, filmId, StringOf(items[i].name))
      {
        if i < |items| - 1 {
          assert items[i] == init[i];
          LinkedGrows(m.0, m.1, r.0, r.1, filmId, StringOf(items[i].name));
        }
      }
    }
  }

  /**
   * Only directors are linked: every link the crew loop adds is to this film, through a
   * row named like some crew entry whose job is "Director".
   */
  lemma {:induction false} DirectorsOnly(t: Links, filmId: int, writable: bool, items: seq<CrewItem>)
    ensures var r := DirectorsAfter(t, filmId, writable, items);
      |t.0| <= |r.0| && r.0[..|t.0|] == t.0 &&
      forall p :: p in r.1 && p !in t.1 ==> p.0 == filmId && DirectorNamed(r.0, p.1, items)
    decreases |items|
  {
    if items != [] {
      var init := items[..|items| - 1];
      var c := items[|items| - 1];
      DirectorsOnly(t, filmId, writable, init);
      var m := DirectorsAfter(t, filmId, writable, init);
      var r := DirectorStep(m, filmId, writable, c);
      assert r == DirectorsAfter(t, filmId, writable, items);
      assert |m.0| <= |r.0| && r.0[..|m.0|] == m.0;
      assert r.0[..|t.0|] == m.0[..|t.0|];
      forall p | p in r.1 && p !in t.1 ensures p.0 == filmId && DirectorNamed(r.0, p.1, items) {
        if p in m.1 {
          var j, i :| 0 <= j < |m.0| && m.0[j].id == p.1 && 0 <= i < |init| && IsDirector(init[i]) &&
            m.0[j].name == StringOf(init[i].name);
          assert r.0[j] == m.0[j] && items[i] == init[i];
        } else {
          var (rows, did) := GetOrCreate(m.0, StringOf(c.name), IntOf(c.id), writable);
          assert p == (filmId, did);
          var k := |items| - 1;
          match FindName(m.0, StringOf(c.name), 0)
          case Some(f) =>
            assert r.0[f].id == did && r.0[f].name == StringOf(items[k].name);
          case None =>
            assert r.0[|m.0|].id == did && r.0[|m.0|].name == StringOf(items[k].name);
        }
      }
    }
  }

  /** Some row with this id is named like a crew entry whose job is "Director". */
  ghost predicate DirectorNamed(rows: seq<Named>, id: int, items: seq<CrewItem>)
  {
    exists j, i :: 0 <= j < |rows| && rows[j].id == id && 0 <= i < |items| && IsDirector(items[i]) &&
      rows[j].name == StringOf(items[i].name)
  }

  /**
   * Every cast link the loop writes is for this film, with a cast order below the
   * number of entries read and the role of the entry at that order; links of other
   * keys keep their values.
   */
  lemma {:induction false} CastOrders(t: Cast, filmId: int, writable: bool, items: seq<CastItem>, n: nat)
    requires n <= |items|
    ensures var r := CastAfter(t, filmId, writable, items, n);
      t.1.Keys <= r.1.Keys &&
      forall k :: k in r.1 ==>
        (k in t.1 && r.1[k] == t.1[k]) ||
        (k.0 == filmId && 0 <= r.1[k].castOrder < n && r.1[k].role == StringOf(items[r.1[k].castOrder].character))
  {
    if n > 0 {
      CastOrders(t, filmId, writable, items, n - 1);
    }
  }

  // ---------------------------------------------------------------- fetch and update

  /** The genre loop of scraper_fetch_and_update. */
  method AddGenres(db: Catalogue, filmId: int, items: seq<GenreItem>)
    requires db.Valid() && HasFilm(db.films, filmId)
    modifies db`genres, db`filmGenres
    ensures db.Valid()
    ensures (db.genres, db.filmGenres) == GenresAfter((old(db.genres), old(db.filmGenres)), filmId, db.writable, items)
  {
    for i := 0 to |items|
      invariant db.Valid()
      invariant (db.genres, db.filmGenres) == GenresAfter((old(db.genres), old(db.filmGenres)), filmId, db.writable, items[..i])
    {
      assert items[..i + 1][..i] == items[..i];
      if items[i].name.Some? {
        var _ := db.GenreAddToFilm(filmId, items[i].name.value);
      }
    }
    assert items[..|items|] == items;
  }

  /** The cast loop: the first ten entries, each named one linked with its index as order. */
  method AddCast(db: Catalogue, filmId: int, items: seq<CastItem>)
    requires db.Valid() && HasFilm(db.films, filmId)
    modifies db`actors, db`filmActors
    ensures db.Valid()
    ensures (db.actors, db.filmActors) == CastAfter((old(db.actors), old(db.filmActors)), filmId, db.writable, items, CastCount(items))
  {
    var i := 0;
    while i < |items| && i < MaxCast
      invariant 0 <= i <= CastCount(items)
      invariant db.Valid()
      invariant (db.actors, db.filmActors) == CastAfter((old(db.actors), old(db.filmActors)), filmId, db.writable, items, i)
    {
      var name := StringOf(items[i].name);
      if name.Some? {
        var _ := db.ActorAddToFilm(filmId, name, StringOf(items[i].character), i, IntOf(items[i].id));
      }
      i := i + 1;
    }
  }

  /** The crew loop: each director with a non-NULL name is linked. */
  method AddDirectors(db: Catalogue, filmId: int, items: seq<CrewItem>)
    requires db.Valid() && HasFilm(db.films, filmId)
    modifies db`directors, db`filmDirectors
    ensures db.Valid()
    ensures (db.directors, db.filmDirectors) ==
      DirectorsAfter((old(db.directors), old(db.filmDirectors)), filmId, db.writable, items)
  {
    for i := 0 to |items|
      invariant db.Valid()
      invariant (db.directors, db.filmDirectors) ==
        DirectorsAfter((old(db.directors), old(db.filmDirectors)), filmId, db.writable, items[..i])
    {
      assert items[..i + 1][..i] == items[..i];
      if IsDirector(items[i]) && StringOf(items[i].name).Some? {
        var _ := db.DirectorAddToFilm(filmId, StringOf(items[i].name), IntOf(items[i].id));
      }
    }
    assert items[..|items|] == items;
  }

  /** The three link loops of scraper_fetch_and_update, over the reply's genres, cast and crew. */
  method AddLinks(db: Catalogue, filmId: int, d: Details)
    requires db.Valid() && HasFilm(db.films, filmId)
    modifies db`genres, db`filmGenres, db`actors, db`filmActors, db`directors, db`filmDirectors
    ensures db.Valid()
    ensures (db.genres, db.filmGenres) == GenresAfter((old(db.genres), old(db.filmGenres)), filmId, db.writable, GenreItems(d))
    ensures (db.actors, db.filmActors) ==
      CastAfter((old(db.actors), old(db.filmActors)), filmId, db.writable, CastItems(d), CastCount(CastItems(d)))
    ensures (db.directors, db.filmDirectors) ==
      DirectorsAfter((old(db.directors), old(db.filmDirectors)), filmId, db.writable, CrewItems(d))
  {
    AddGenres(db, filmId, GenreItems(d));
    AddCast(db, filmId, CastItems(d));
    AddDirectors(db, filmId, CrewItems(d));
  }

  /** An update keeps every row's id, so the film is still there. */
  lemma UpdateKeepsFilm(films: seq<Film>, f: Film, id: int)
    requires HasFilm(films, id)
    ensures HasFilm(UpdateRows(films, f), id)
  {
    var i :| 0 <= i < |films| && films[i].id == id;
    assert UpdateRows(films, f)[i].id == id;
  }

  /**
   * scraper_fetch_and_update. The reply is None when the request or its parse failed;
   * `downloaded` says whether the poster download succeeded. Without a key (an empty
   * one is tried), without a reply or for an unknown film, nothing changes. Otherwise
   * the row is rewritten from the reply and the genre, cast and director loops run.
   */
  method FetchAndUpdate(app: ReelApp, db: Catalogue, filmId: int, tmdbId: int, response: Option<Details>, downloaded: bool)
    returns (ok: bool, url: Option<string>)
    requires db.Valid()
    modifies db`films, db`genres, db`filmGenres, db`actors, db`filmActors, db`directors, db`filmDirectors
    ensures db.Valid()
    ensures url == if app.tmdbApiKey.Some? then Some(DetailsUrl(tmdbId, app.tmdbApiKey.value)) else None
    ensures ok <==> app.tmdbApiKey.Some? && response.Some? && GetById(old(db.films), filmId).Some?
    ensures !ok ==> unchanged(db)
    ensures ok ==> var d := response.value;
      var rec := ApplyDetails(GetById(old(db.films), filmId).value, d, tmdbId,
                              NewPoster(app.posterCachePath, d.posterPath, tmdbId, downloaded));
      db.films == (if db.writable then UpdateRows(old(db.films), rec) else old(db.films)) &&
      (db.genres, db.filmGenres) == GenresAfter((old(db.genres), old(db.filmGenres)), filmId, db.writable, GenreItems(d)) &&
      (db.actors, db.filmActors) ==
        CastAfter((old(db.actors), old(db.filmActors)), filmId, db.writable, CastItems(d), CastCount(CastItems(d))) &&
      (db.directors, db.filmDirectors) ==
        DirectorsAfter((old(db.directors), old(db.filmDirectors)), filmId, db.writable, CrewItems(d))
  {
    if app.tmdbApiKey.None? {
      return false, None;
    }
    url := Some(DetailsUrl(tmdbId, app.tmdbApiKey.value));
    if response.None? {
      return false, url;
    }
    var film := GetById(db.films, filmId);
    if film.None? {
      return false, url;
    }
    var d := response.value;
    var rec := ApplyDetails(film.value, d, tmdbId, NewPoster(app.posterCachePath, d.posterPath, tmdbId, downloaded));
    assert HasFilm(db.films, filmId);
    UpdateKeepsFilm(db.films, rec, filmId);
    var _ := db.FilmUpdate(rec);
    AddLinks(db, filmId, d);
    ok := true;
  }

  // ---------------------------------------------------------------- auto-match

  /**
   * The confidence rule: the top result has the film's year, or the film has no year and
   * the search found exactly one result.
   */
  predicate GoodMatch(results: seq<SearchResult>, filmYear: int)
    requires results != []
  {
    results[0].year == filmYear || (filmYear == 0 && |results| == 1)
  }

  /** A film with a year is matched only to a top result of that year. */
  lemma KnownYearNeedsSameYear(results: seq<SearchResult>, filmYear: int)
    requires results != [] && filmYear != 0
    ensures GoodMatch(results, filmYear) <==> results[0].year == filmYear
  {
  }

  /** A film without a year takes a lone result whatever its year, and otherwise only a yearless top result. */
  lemma UnknownYear(results: seq<SearchResult>)
    requires results != []
    ensures |results| == 1 ==> GoodMatch(results, 0)
    ensures |results| > 1 ==> (GoodMatch(results, 0) <==> results[0].year == 0)
  {
  }

  /** The fetch the pass performs for one unmatched film, if any: (film id, TMDB id). */
  function Attempt(f: Film, apiKey: Option<string>, response: Option<SearchResponse>): (r: seq<(int, int)>)
    ensures |r| <= 1
    ensures r != [] ==> f.title.Some? && r[0].0 == f.id
  {
    if f.title.None? then []
    else
      var rs := SearchResults(apiKey, response);
      if rs != [] && GoodMatch(rs, f.year) then [(f.id, rs[0].tmdbId)] else []
  }

  /** The fetch each film of the pass would make, film by film. */
  function Attempts(films: seq<Film>, apiKey: Option<string>, responses: seq<Option<SearchResponse>>)
    : (r: seq<seq<(int, int)>>)
    requires |responses| == |films|
    ensures |r| == |films|
    ensures forall i :: 0 <= i < |films| ==> r[i] == Attempt(films[i], apiKey, responses[i])
  {
    seq(|films|, i requires 0 <= i < |films| => Attempt(films[i], apiKey, responses[i]))
  }

  /** The first n steps joined in order. */
  function Concat<T>(steps: seq<seq<T>>, n: nat): seq<T>
    requires n <= |steps|
  {
    if n == 0 then [] else Concat(steps, n - 1) + steps[n - 1]
  }

  /** The fetches of the first n films of the pass, in order. */
  function Plan(films: seq<Film>, apiKey: Option<string>, responses: seq<Option<SearchResponse>>, n: nat): seq<(int, int)>
    requires n <= |films| && |responses| == |films|
  {
    Concat(Attempts(films, apiKey, responses), n)
  }

  /** Joining steps of at most one element each gives at most one element per step. */
  lemma {:induction false} ConcatLength<T>(steps: seq<seq<T>>, n: nat)
    requires n <= |steps|
    requires forall i :: 0 <= i < |steps| ==> |steps[i]| <= 1
    ensures |Concat(steps, n)| <= n
  {
    if n > 0 {
      ConcatLength(steps, n - 1);
    }
  }

  /** Joining fewer steps gives a prefix. */
  lemma {:induction false} ConcatPrefix<T>(steps: seq<seq<T>>, m: nat, n: nat)
    requires m <= n <= |steps|
    ensures IsPrefixOf(Concat(steps, m), Concat(steps, n))
    decreases n
  {
    if m < n {
      ConcatPrefix(steps, m, n - 1);
      PrefixExtends(Concat(steps, m), Concat(steps, n - 1), steps[n - 1]);
    } else {
      var p := Concat(steps, m);
      assert p[..|p|] == p;
    }
  }

  /** Joining empty steps gives nothing. */
  lemma {:induction false} ConcatEmpty<T>(steps: seq<seq<T>>, n: nat)
    requires n <= |steps|
    requires forall i :: 0 <= i < |steps| ==> steps[i] == []
    ensures Concat(steps, n) == []
  {
    if n > 0 {
      ConcatEmpty(steps, n - 1);
    }
  }

  /** The pass makes at most one fetch per film visited. */
  lemma PlanLength(films: seq<Film>, apiKey: Option<string>, responses: seq<Option<SearchResponse>>, n: nat)
    requires n <= |films| && |responses| == |films|
    ensures |Plan(films, apiKey, responses, n)| <= n
  {
    ConcatLength(Attempts(films, apiKey, responses), n);
  }

  /** Stopping the pass later only adds fetches: the fetches of a shorter run are a prefix. */
  lemma PlanPrefix(films: seq<Film>, apiKey: Option<string>, responses: seq<Option<SearchResponse>>, m: nat, n: nat)
    requires m <= n <= |films| && |responses| == |films|
    ensures IsPrefixOf(Plan(films, apiKey, responses, m), Plan(films, apiKey, responses, n))
  {
    ConcatPrefix(Attempts(films, apiKey, responses), m, n);
  }

  predicate IsPrefixOf<T(==)>(q: seq<T>, p: seq<T>) { |q| <= |p| && p[..|q|] == q }

  lemma PrefixExtends<T>(q: seq<T>, p: seq<T>, a: seq<T>)
    requires IsPrefixOf(q, p)
    ensures IsPrefixOf(q, p + a)
  {
    assert (p + a)[..|q|] == p[..|q|];
  }

  /** Without a usable key the pass fetches nothing. */
  lemma PlanWithoutKey(films: seq<Film>, responses: seq<Option<SearchResponse>>, n: nat)
    requires n <= |films| && |responses| == |films|
    ensures Plan(films, None, responses, n) == [] && Plan(films, Some([]), responses, n) == []
  {
    ConcatEmpty(Attempts(films, None, responses), n);
    ConcatEmpty(Attempts(films, Some([]), responses), n);
  }

  /** The state of one background pass: it runs while this flag stays set. */
  class ScraperContext {
    var running: bool

    constructor ()
      ensures running
    {
      running := true;
    }
  }

  /**
   * scraper_thread_func: the unmatched films (in path order) are visited until the list
   * ends or the flag is found cleared, which `stopAt` says happens at the check before
   * film stopAt. A titled film is searched for; an accepted top result is fetched.
   * responses, details and downloads give the network's answers film by film, escape
   * the query encoding curl applies. The fetches made are returned.
   */
  method AutoMatch(app: ReelApp, db: Catalogue, escape: string -> string, responses: seq<Option<SearchResponse>>,
                   details: seq<Option<Details>>, downloads: seq<bool>, stopAt: nat)
    returns (fetched: seq<(int, int)>)
    requires db.Valid()
    requires |responses| == |details| == |downloads| == |UnmatchedList(db.films)|
    modifies db`films, db`genres, db`filmGenres, db`actors, db`filmActors, db`directors, db`filmDirectors
    ensures db.Valid()
    ensures var unmatched := UnmatchedList(old(db.films));
      fetched == Plan(unmatched, app.tmdbApiKey, responses, if stopAt < |unmatched| then stopAt else |unmatched|)
  {
    var unmatched := UnmatchedList(db.films);
    fetched := [];
    var i := 0;
    while i < |unmatched| && i < stopAt
      invariant 0 <= i <= |unmatched| && i <= stopAt && db.Valid()
      invariant unmatched == UnmatchedList(old(db.films)) && app.tmdbApiKey == old(app.tmdbApiKey)
      invariant fetched == Plan(unmatched, app.tmdbApiKey, responses, i)
    {
      var step := VisitFilm(app, db, unmatched[i], escape, responses[i], details[i], downloads[i]);
      assert Attempts(unmatched, app.tmdbApiKey, responses)[i] == step;
      fetched := fetched + step;
      i := i + 1;
    }
    assert i == if stopAt < |unmatched| then stopAt else |unmatched|;
  }

  /**
   * One film of the pass: a titled film is searched for by title and year, and an
   * accepted top result is fetched and applied.
   */
  method VisitFilm(app: ReelApp, db: Catalogue, film: Film, escape: string -> string, response: Option<SearchResponse>,
                   details: Option<Details>, downloaded: bool) returns (step: seq<(int, int)>)
    requires db.Valid()
    modifies db`films, db`genres, db`filmGenres, db`actors, db`filmActors, db`directors, db`filmDirectors
    ensures db.Valid()
    ensures step == Attempt(film, app.tmdbApiKey, response)
  {
    step := [];
    if film.title.Some? {
      var results, _ := SearchTmdb(app.tmdbApiKey, escape(film.title.value), film.year, response);
      if results != [] && GoodMatch(results, film.year) {
        var _, _ := FetchAndUpdate(app, db, film.id, results[0].tmdbId, details, downloaded);
        step := [(film.id, results[0].tmdbId)];
      }
    }
  }

  /** The process-wide pointer to the most recently started pass. */
  class ScraperControl {
    var active: ScraperContext?

    constructor ()
      ensures active == null
    {
      active := null;
    }

    /** scraper_start_background: nothing while the active pass runs, else a new running pass. */
    method StartBackground() returns (started: bool)
      modifies this
      ensures started <==> !(old(active) != null && old(active.running))
      ensures !started ==> active == old(active)
      ensures started ==> active != null && fresh(active) && active.running
    {
      if active != null && active.running {
        return false;
      }
      var ctx := new ScraperContext();
      active := ctx;
      started := true;
    }

    /** scraper_stop: the active pass, if any, has its flag cleared. */
    method Stop()
      modifies active
      ensures active == old(active)
      ensures active != null ==> !active.running
    {
      if active != null {
        active.running := false;
      }
    }
  }
}
