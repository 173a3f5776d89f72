// The catalogue store of db.c as in-memory tables. SQLite itself is not modelled: each
// statement is written out as what it does to the rows, and a `writable` flag stands for
// whether statements that write succeed.

module Store {
  import opened Wrappers
  import opened Records

  /** A row of the genres, actors or directors table. genres has no tmdb_id column; its rows keep 0 there. */
  datatype Named = Named(id: int, name: Option<string>, tmdbId: int)

  /** The non-key columns of a film_actors row. */
  datatype CastLink = CastLink(role: Option<string>, castOrder: int)

  // ---------------------------------------------------------------- row ids

  /** The ids of a table, in row order. */
  function FilmIds(films: seq<Film>): (ids: seq<int>)
    ensures |ids| == |films| && forall i :: 0 <= i < |films| ==> ids[i] == films[i].id
  {
    seq(|films|, i requires 0 <= i < |films| => films[i].id)
  }

  function NamedIds(rows: seq<Named>): (ids: seq<int>)
    ensures |ids| == |rows| && forall i :: 0 <= i < |rows| ==> ids[i] == rows[i].id
  {
    seq(|rows|, i requires 0 <= i < |rows| => rows[i].id)
  }

  function EpisodeIds(eps: seq<Episode>): (ids: seq<int>)
    ensures |ids| == |eps| && forall i :: 0 <= i < |eps| ==> ids[i] == eps[i].id
  {
    seq(|eps|, i requires 0 <= i < |eps| => eps[i].id)
  }

  function MaxOf(ids: seq<int>): (m: int)
    requires |ids| > 0
    ensures forall i :: 0 <= i < |ids| ==> ids[i] <= m
    ensures exists i :: 0 <= i < |ids| && ids[i] == m
  {
    if |ids| == 1 then ids[0]
    else
      var m := MaxOf(ids[..|ids| - 1]);
      if m < ids[|ids| - 1] then ids[|ids| - 1] else m
  }

  /**
   * The rowid SQLite gives an INTEGER PRIMARY KEY row inserted without one: 1 in an empty
   * table, otherwise one more than the largest id.
   */
  function NextRowid(ids: seq<int>): (r: int)
    ensures forall i :: 0 <= i < |ids| ==> ids[i] < r
    ensures ids == [] ==> r == 1
    ensures ids != [] ==> exists i :: 0 <= i < |ids| && ids[i] == r - 1
  {
    if ids == [] then 1 else MaxOf(ids) + 1
  }

  // ---------------------------------------------------------------- the films table

  /** A record as it comes back from the films table, which has no media_type or season_number column. */
  predicate IsRow(f: Film) { f.mediaType == MediaFilm && f.seasonNumber == 0 }

  /** The row db_film_insert writes for a record: its columns, under the new id. */
  function Stored(f: Film, id: int): (r: Film)
    ensures IsRow(r) && r.id == id
    ensures r.(id := f.id, mediaType := f.mediaType, seasonNumber := f.seasonNumber) == f
  {
    f.(id := id, mediaType := MediaFilm, seasonNumber := 0)
  }

  /** Constraints of the films table: UNIQUE NOT NULL file_path, distinct positive ids. */
  predicate FilmsValid(films: seq<Film>)
  {
    (forall i :: 0 <= i < |films| ==> films[i].id >= 1 && films[i].filePath.Some? && IsRow(films[i])) &&
    (forall i, j :: 0 <= i < j < |films| ==> films[i].id != films[j].id && films[i].filePath != films[j].filePath)
  }

  /** The first row with the given path (SELECT * FROM films WHERE file_path=?). */
  function FindPath(films: seq<Film>, path: string, from: nat): (r: Option<nat>)
    requires from <= |films|
    ensures r.Some? ==> from <= r.value < |films| && films[r.value].filePath == Some(path)
    ensures r.Some? ==> forall j :: from <= j < r.value ==> films[j].filePath != Some(path)
    ensures r.None? ==> forall j :: from <= j < |films| ==> films[j].filePath != Some(path)
    decreases |films| - from
  {
    if from == |films| then None
    else if films[from].filePath == Some(path) then Some(from)
    else FindPath(films, path, from + 1)
  }

  /** The first row with the given id (SELECT * FROM films WHERE id=?). */
  function FindId(films: seq<Film>, id: int, from: nat): (r: Option<nat>)
    requires from <= |films|
    ensures r.Some? ==> from <= r.value < |films| && films[r.value].id == id
    ensures r.Some? ==> forall j :: from <= j < r.value ==> films[j].id != id
    ensures r.None? ==> forall j :: from <= j < |films| ==> films[j].id != id
    decreases |films| - from
  {
    if from == |films| then None
    else if films[from].id == id then Some(from)
    else FindId(films, id, from + 1)
  }

  /** db_film_get_by_path. */
  function GetByPath(films: seq<Film>, path: string): (r: Option<Film>)
    ensures r.Some? <==> exists i :: 0 <= i < |films| && films[i].filePath == Some(path)
    ensures r.Some? ==> r.value in films && r.value.filePath == Some(path)
  {
    match FindPath(films, path, 0)
    case Some(k) => Some(films[k])
    case None => None
  }

  /** db_film_get_by_id. */
  function GetById(films: seq<Film>, id: int): (r: Option<Film>)
    ensures r.Some? <==> exists i :: 0 <= i < |films| && films[i].id == id
    ensures r.Some? ==> r.value in films && r.value.id == id
  {
    match FindId(films, id, 0)
    case Some(k) => Some(films[k])
    case None => None
  }

  predicate HasFilm(films: seq<Film>, id: int) { exists i :: 0 <= i < |films| && films[i].id == id }

  /**
   * The row after UPDATE films SET title, year, runtime_minutes, plot, poster_path,
   * tmdb_id, imdb_id, rating, match_status WHERE id: those nine columns come from the
   * record, every other column stays.
   */
  function Updated(row: Film, f: Film): (r: Film)
    ensures r.id == row.id && r.filePath == row.filePath && r.addedDate == row.addedDate
    ensures r.mediaType == row.mediaType && r.seasonNumber == row.seasonNumber
    ensures r.title == f.title && r.year == f.year && r.runtimeMinutes == f.runtimeMinutes
    ensures r.plot == f.plot && r.posterPath == f.posterPath && r.tmdbId == f.tmdbId
    ensures r.imdbId == f.imdbId && r.rating == f.rating && r.matchStatus == f.matchStatus
  {
    row.(title := f.title, year := f.year, runtimeMinutes := f.runtimeMinutes, plot := f.plot,
         posterPath := f.posterPath, tmdbId := f.tmdbId, imdbId := f.imdbId, rating := f.rating,
         matchStatus := f.matchStatus)
  }

  /** Two records that agree on the nine updated columns update a row the same way. */
  lemma UpdatedDependsOnNineColumns(row: Film, f: Film, g: Film)
    requires f.title == g.title && f.year == g.year && f.runtimeMinutes == g.runtimeMinutes
    requires f.plot == g.plot && f.posterPath == g.posterPath && f.tmdbId == g.tmdbId
    requires f.imdbId == g.imdbId && f.rating == g.rating && f.matchStatus == g.matchStatus
    ensures Updated(row, f) == Updated(row, g)
  {
  }

  /** Updating is idempotent, and the last update wins. */
  lemma UpdatedTwice(row: Film, f: Film, g: Film)
    ensures Updated(Updated(row, f), f) == Updated(row, f)
    ensures Updated(Updated(row, f), g) == Updated(row, g)
  {
  }

  /** The table after db_film_update: every row with the record's id is updated. */
  function UpdateRows(films: seq<Film>, f: Film): (r: seq<Film>)
    ensures |r| == |films|
    ensures forall i :: 0 <= i < |films| ==> r[i] == if films[i].id == f.id then Updated(films[i], f) else films[i]
  {
    seq(|films|, i requires 0 <= i < |films| => if films[i].id == f.id then Updated(films[i], f) else films[i])
  }

  /** Writing the same record twice leaves the table as writing it once. */
  lemma UpdateRowsTwice(films: seq<Film>, f: Film)
    ensures UpdateRows(UpdateRows(films, f), f) == UpdateRows(films, f)
  {
    var once := UpdateRows(films, f);
    forall i | 0 <= i < |films| ensures UpdateRows(once, f)[i] == once[i] {
      UpdatedTwice(films[i], f, f);
    }
  }

  /**
   * db_film_update keeps the table's constraints, leaves every path where it was, and a
   * read by id afterwards sees the nine columns of the record.
   */
  lemma UpdateRowsRead(films: seq<Film>, f: Film, path: string)
    requires FilmsValid(films)
    ensures FilmsValid(UpdateRows(films, f))
    ensures FindPath(UpdateRows(films, f), path, 0) == FindPath(films, path, 0)
    ensures match GetById(films, f.id)
      case None => GetById(UpdateRows(films, f), f.id).None?
      case Some(row) => GetById(UpdateRows(films, f), f.id) == Some(Updated(row, f))
  {
    var r := UpdateRows(films, f);
    assert forall i :: 0 <= i < |films| ==> r[i].filePath == films[i].filePath && r[i].id == films[i].id;
    SamePathsSameFind(films, r, path, 0);
    SameIdsSameFind(films, r, f.id, 0);
  }

  lemma {:induction false} SamePathsSameFind(a: seq<Film>, b: seq<Film>, path: string, from: nat)
    requires from <= |a| == |b|
    requires forall i :: 0 <= i < |a| ==> a[i].filePath == b[i].filePath
    ensures FindPath(a, path, from) == FindPath(b, path, from)
    decreases |a| - from
  {
    if from < |a| { SamePathsSameFind(a, b, path, from + 1); }
  }

  lemma {:induction false} SameIdsSameFind(a: seq<Film>, b: seq<Film>, id: int, from: nat)
    requires from <= |a| == |b|
    requires forall i :: 0 <= i < |a| ==> a[i].id == b[i].id
    ensures FindId(a, id, from) == FindId(b, id, from)
    decreases |a| - from
  {
    if from < |a| { SameIdsSameFind(a, b, id, from + 1); }
  }

  /** The table after DELETE FROM films WHERE id=?. */
  function RemoveFilm(films: seq<Film>, id: int): (r: seq<Film>)
    ensures forall f :: f in r <==> f in films && f.id != id
    ensures |r| <= |films|
  {
    if films == [] then []
    else (if films[0].id == id then [] else [films[0]]) + RemoveFilm(films[1..], id)
  }

  lemma TailValid(films: seq<Film>)
    requires FilmsValid(films) && films != []
    ensures FilmsValid(films[1..])
  {
    var t := films[1..];
    forall i, j | 0 <= i < j < |t| ensures t[i].id != t[j].id && t[i].filePath != t[j].filePath {
      assert t[i] == films[i + 1] && t[j] == films[j + 1];
    }
  }

  lemma ConsValid(h: Film, t: seq<Film>)
    requires FilmsValid(t) && h.id >= 1 && h.filePath.Some? && IsRow(h)
    requires forall j :: 0 <= j < |t| ==> h.id != t[j].id && h.filePath != t[j].filePath
    ensures FilmsValid([h] + t)
  {
    var r := [h] + t;
    forall i, j | 0 <= i < j < |r| ensures r[i].id != r[j].id && r[i].filePath != r[j].filePath {
      if i == 0 { assert r[j] == t[j - 1]; } else { assert r[i] == t[i - 1] && r[j] == t[j - 1]; }
    }
  }

  /** Deleting keeps the constraints, and no row with that id is left. */
  lemma {:induction false} RemoveFilmValid(films: seq<Film>, id: int)
    requires FilmsValid(films)
    ensures FilmsValid(RemoveFilm(films, id))
    ensures GetById(RemoveFilm(films, id), id).None?
  {
    if films != [] {
      var t := films[1..];
      TailValid(films);
      RemoveFilmValid(t, id);
      var rt := RemoveFilm(t, id);
      if films[0].id != id {
        forall j | 0 <= j < |rt| ensures films[0].id != rt[j].id && films[0].filePath != rt[j].filePath {
          assert rt[j] in t;
          var k :| 0 <= k < |t| && t[k] == rt[j];
          assert t[k] == films[k + 1];
        }
        ConsValid(films[0], rt);
        assert RemoveFilm(films, id) == [films[0]] + rt;
      } else {
        assert RemoveFilm(films, id) == rt;
      }
    }
  }

  /** Appending a row whose id and path are new keeps the constraints. */
  lemma AppendFilmValid(films: seq<Film>, f: Film)
    requires FilmsValid(films)
    requires f.id >= 1 && f.filePath.Some? && IsRow(f)
    requires forall i :: 0 <= i < |films| ==> films[i].id != f.id && films[i].filePath != f.filePath
    ensures FilmsValid(films + [f])
  {
    var r := films + [f];
    forall i, j | 0 <= i < j < |r| ensures r[i].id != r[j].id && r[i].filePath != r[j].filePath {
      if j == |films| { assert r[i] == films[i]; } else { assert r[i] == films[i] && r[j] == films[j]; }
    }
  }

  /**
   * A successful insert is found again by its path, and the row read back has the
   * record's columns under the new id.
   */
  lemma InsertThenGetByPath(films: seq<Film>, f: Film, path: string)
    requires FilmsValid(films) && f.filePath == Some(path) && GetByPath(films, path).None?
    ensures GetByPath(films + [Stored(f, NextRowid(FilmIds(films)))], path) == Some(Stored(f, NextRowid(FilmIds(films))))
  {
    var row := Stored(f, NextRowid(FilmIds(films)));
    var r := films + [row];
    assert forall j :: 0 <= j < |films| ==> r[j] == films[j];
    assert r[|films|].filePath == Some(path);
  }

  // ---------------------------------------------------------------- unmatched films

  /** The rows of SELECT * FROM films WHERE match_status = 0, in table order. */
  function UnmatchedRows(films: seq<Film>): (r: seq<Film>)
    ensures forall f :: f in r <==> f in films && f.matchStatus == Unmatched
    ensures |r| <= |films|
  {
    if films == [] then []
    else (if films[0].matchStatus == Unmatched then [films[0]] else []) + UnmatchedRows(films[1..])
  }

  /** db_films_count_unmatched: COUNT(*) over match_status = 0. */
  function CountUnmatched(films: seq<Film>): (n: nat)
    ensures n <= |films|
  {
    if films == [] then 0
    else (if films[0].matchStatus == Unmatched then 1 else 0) + CountUnmatched(films[1..])
  }

  /** The count and the list select the same rows. */
  lemma {:induction false} CountIsListLength(films: seq<Film>)
    ensures CountUnmatched(films) == |UnmatchedRows(films)|
  {
    if films != [] { CountIsListLength(films[1..]); }
  }

  /** SQLite's BINARY ordering of text: code point by code point, a prefix first. */
  predicate LexLe(a: string, b: string)
  {
    |a| == 0 || (|b| > 0 && (a[0] < b[0] || (a[0] == b[0] && LexLe(a[1..], b[1..]))))
  }

  lemma {:induction false} LexTotal(a: string, b: string)
    ensures LexLe(a, b) || LexLe(b, a)
  {
    if |a| > 0 && |b| > 0 && a[0] == b[0] { LexTotal(a[1..], b[1..]); }
  }

  lemma {:induction false} LexTrans(a: string, b: string, c: string)
    requires LexLe(a, b) && LexLe(b, c)
    ensures LexLe(a, c)
  {
    if |a| > 0 && |b| > 0 && |c| > 0 && a[0] == b[0] && b[0] == c[0] { LexTrans(a[1..], b[1..], c[1..]); }
  }

  function PathKey(f: Film): string { if f.filePath.Some? then f.filePath.value else [] }

  predicate SortedByPath(s: seq<Film>)
  {
    forall i, j :: 0 <= i < j < |s| ==> LexLe(PathKey(s[i]), PathKey(s[j]))
  }

  function InsertByPath(f: Film, s: seq<Film>): (r: seq<Film>)
    ensures multiset(r) == multiset(s) + multiset{f}
  {
    if s == [] then [f]
    else if LexLe(PathKey(f), PathKey(s[0])) then [f] + s
    else
      assert s == [s[0]] + s[1..];
      [s[0]] + InsertByPath(f, s[1..])
  }

  /** A row placed before a sorted list whose every path it precedes keeps the list sorted. */
  lemma ConsSorted(h: Film, t: seq<Film>)
    requires SortedByPath(t)
    requires forall j :: 0 <= j < |t| ==> LexLe(PathKey(h), PathKey(t[j]))
    ensures SortedByPath([h] + t)
  {
    var r := [h] + t;
    forall i, j | 0 <= i < j < |r| ensures LexLe(PathKey(r[i]), PathKey(r[j])) {
      if i == 0 { assert r[j] == t[j - 1]; } else { assert r[i] == t[i - 1] && r[j] == t[j - 1]; }
    }
  }

  lemma SortedTail(s: seq<Film>)
    requires SortedByPath(s) && s != []
    ensures SortedByPath(s[1..])
    ensures forall j :: 0 <= j < |s[1..]| ==> LexLe(PathKey(s[0]), PathKey(s[1..][j]))
  {
    var t := s[1..];
    forall i, j | 0 <= i < j < |t| ensures LexLe(PathKey(t[i]), PathKey(t[j])) {
      assert t[i] == s[i + 1] && t[j] == s[j + 1];
    }
    forall j | 0 <= j < |t| ensures LexLe(PathKey(s[0]), PathKey(t[j])) {
      assert t[j] == s[j + 1];
    }
  }

  /** A path preceding f and every row of t precedes every row of t with f inserted. */
  lemma BelowInsert(h: Film, f: Film, t: seq<Film>)
    requires LexLe(PathKey(h), PathKey(f))
    requires forall j :: 0 <= j < |t| ==> LexLe(PathKey(h), PathKey(t[j]))
    ensures forall j :: 0 <= j < |InsertByPath(f, t)| ==> LexLe(PathKey(h), PathKey(InsertByPath(f, t)[j]))
  {
    var rt := InsertByPath(f, t);
    forall j | 0 <= j < |rt| ensures LexLe(PathKey(h), PathKey(rt[j])) {
      assert rt[j] in multiset(rt);
      if rt[j] != f {
        assert rt[j] in multiset(t);
        var k :| 0 <= k < |t| && t[k] == rt[j];
      }
    }
  }

  lemma {:induction false} InsertByPathSorted(f: Film, s: seq<Film>)
    requires SortedByPath(s)
    ensures SortedByPath(InsertByPath(f, s))
  {
    if s == [] {
    } else if LexLe(PathKey(f), PathKey(s[0])) {
      forall j | 0 <= j < |s| ensures LexLe(PathKey(f), PathKey(s[j])) {
        if j > 0 { LexTrans(PathKey(f), PathKey(s[0]), PathKey(s[j])); }
      }
      ConsSorted(f, s);
    } else {
      LexTotal(PathKey(f), PathKey(s[0]));
      SortedTail(s);
      var t := s[1..];
      InsertByPathSorted(f, t);
      BelowInsert(s[0], f, t);
      ConsSorted(s[0], InsertByPath(f, t));
    }
  }

  /** ORDER BY file_path, as an insertion sort. */
  function SortByPath(s: seq<Film>): (r: seq<Film>)
    ensures multiset(r) == multiset(s)
  {
    if s == [] then []
    else
      assert s == [s[0]] + s[1..];
      InsertByPath(s[0], SortByPath(s[1..]))
  }

  lemma {:induction false} SortByPathSorted(s: seq<Film>)
    ensures SortedByPath(SortByPath(s))
  {
    if s != [] {
      SortByPathSorted(s[1..]);
      InsertByPathSorted(s[0], SortByPath(s[1..]));
    }
  }

  /** db_films_get_unmatched: the unmatched rows ordered by file_path. */
  function UnmatchedList(films: seq<Film>): seq<Film>
  {
    SortByPath(UnmatchedRows(films))
  }

  /**
   * The unmatched list holds exactly the rows with status 0, each once, ordered by path;
   * its length is the unmatched count.
   */
  lemma UnmatchedIs(films: seq<Film>)
    ensures SortedByPath(UnmatchedList(films))
    ensures multiset(UnmatchedList(films)) == multiset(UnmatchedRows(films))
    ensures forall f :: f in UnmatchedList(films) <==> f in films && f.matchStatus == Unmatched
    ensures |UnmatchedList(films)| == CountUnmatched(films)
  {
    SortByPathSorted(UnmatchedRows(films));
    CountIsListLength(films);
    assert |multiset(UnmatchedList(films))| == |multiset(UnmatchedRows(films))|;
    forall f ensures f in UnmatchedList(films) <==> f in UnmatchedRows(films) {
      assert f in UnmatchedList(films) <==> f in multiset(UnmatchedList(films));
      assert f in UnmatchedRows(films) <==> f in multiset(UnmatchedRows(films));
    }
  }

  // ---------------------------------------------------------------- genres, actors, directors

  /** Constraints of a name table: distinct positive ids, and non-NULL names UNIQUE. */
  predicate NamedValid(rows: seq<Named>)
  {
    (forall i :: 0 <= i < |rows| ==> rows[i].id >= 1) &&
    (forall i, j :: 0 <= i < j < |rows| ==> rows[i].id != rows[j].id) &&
    (forall i, j :: 0 <= i < j < |rows| && rows[i].name.Some? ==> rows[i].name != rows[j].name)
  }

  /** SELECT id ... WHERE name = ?: a NULL name compares equal to nothing. */
  function FindName(rows: seq<Named>, name: Option<string>, from: nat): (r: Option<nat>)
    requires from <= |rows|
    ensures r.Some? ==> name.Some? && from <= r.value < |rows| && rows[r.value].name == name
    ensures r.Some? ==> forall j :: from <= j < r.value ==> rows[j].name != name
    ensures r.None? && name.Some? ==> forall j :: from <= j < |rows| ==> rows[j].name != name
    decreases |rows| - from
  {
    if name.None? || from == |rows| then None
    else if rows[from].name == name then Some(from)
    else FindName(rows, name, from + 1)
  }

  /**
   * db_get_or_create_genre / _actor / _director: the id of the row with that name, or a
   * new row (with the given tmdb_id) and its id, or -1 when the insert fails. The table
   * afterwards and the id.
   */
  function GetOrCreate(rows: seq<Named>, name: Option<string>, tmdbId: int, writable: bool): (r: (seq<Named>, int))
    ensures r.0 == rows || (writable && FindName(rows, name, 0).None? && r.0 == rows + [Named(r.1, name, tmdbId)])
    ensures r.0 != rows ==> forall i :: 0 <= i < |rows| ==> rows[i].id < r.1
    ensures FindName(rows, name, 0).Some? ==> r.0 == rows && r.1 == rows[FindName(rows, name, 0).value].id
    ensures FindName(rows, name, 0).None? && !writable ==> r.1 == -1
  {
    match FindName(rows, name, 0)
    case Some(k) => (rows, rows[k].id)
    case None =>
      if writable then
        var id := NextRowid(NamedIds(rows));
        (rows + [Named(id, name, tmdbId)], id)
      else (rows, -1)
  }

  /**
   * Asking again for a non-NULL name that was found or created adds no row and gives the
   * same id, whatever tmdb_id comes with it: the tmdb_id is only recorded on creation.
   */
  lemma GetOrCreateIdempotent(rows: seq<Named>, name: string, t1: int, t2: int, w1: bool, w2: bool)
    requires NamedValid(rows)
    requires GetOrCreate(rows, Some(name), t1, w1).1 != -1
    ensures var (rows1, id1) := GetOrCreate(rows, Some(name), t1, w1);
      GetOrCreate(rows1, Some(name), t2, w2) == (rows1, id1)
  {
    var (rows1, id1) := GetOrCreate(rows, Some(name), t1, w1);
    match FindName(rows, Some(name), 0)
    case Some(k) =>
    case None =>
      assert forall j :: 0 <= j < |rows| ==> rows1[j] == rows[j];
      assert rows1[|rows|].name == Some(name);
  }

  /** A NULL name is never found, so each successful call adds a row. */
  lemma GetOrCreateNullAdds(rows: seq<Named>, tmdbId: int)
    ensures var (rows1, id1) := GetOrCreate(rows, None, tmdbId, true);
      |rows1| == |rows| + 1 && rows1[|rows|] == Named(id1, None, tmdbId)
  {
  }

  /** Finding or creating keeps the table's constraints, and a success is a positive id. */
  lemma GetOrCreateValid(rows: seq<Named>, name: Option<string>, tmdbId: int, writable: bool)
    requires NamedValid(rows)
    ensures NamedValid(GetOrCreate(rows, name, tmdbId, writable).0)
    ensures GetOrCreate(rows, name, tmdbId, writable).1 == -1 || GetOrCreate(rows, name, tmdbId, writable).1 >= 1
  {
    var (r, id) := GetOrCreate(rows, name, tmdbId, writable);
    if r != rows {
      assert id >= 1 by {
        if rows != [] { assert rows[0].id < id; }
      }
      forall i, j | 0 <= i < j < |r| && r[i].name.Some? ensures r[i].name != r[j].name && r[i].id != r[j].id {
        if j == |rows| { assert r[i] == rows[i]; } else { assert r[i] == rows[i] && r[j] == rows[j]; }
      }
    } else if FindName(rows, name, 0).Some? {
      assert rows[FindName(rows, name, 0).value].id >= 1;
    }
  }

  // ---------------------------------------------------------------- episodes

  /** Constraints assumed of the episodes table: distinct positive ids, UNIQUE NOT NULL file_path. */
  predicate EpisodesValid(eps: seq<Episode>)
  {
    (forall i :: 0 <= i < |eps| ==> eps[i].id >= 1 && eps[i].filePath.Some?) &&
    (forall i, j :: 0 <= i < j < |eps| ==> eps[i].id != eps[j].id && eps[i].filePath != eps[j].filePath)
  }

  function FindEpisodePath(eps: seq<Episode>, path: string, from: nat): (r: Option<nat>)
    requires from <= |eps|
    ensures r.Some? ==> from <= r.value < |eps| && eps[r.value].filePath == Some(path)
    ensures r.None? ==> forall j :: from <= j < |eps| ==> eps[j].filePath != Some(path)
    decreases |eps| - from
  {
    if from == |eps| then None
    else if eps[from].filePath == Some(path) then Some(from)
    else FindEpisodePath(eps, path, from + 1)
  }

  predicate HasEpisode(eps: seq<Episode>, path: string) { exists i :: 0 <= i < |eps| && eps[i].filePath == Some(path) }

  // ---------------------------------------------------------------- links

  /** The link rows left when a film's rows cascade away. */
  function DropFilmLinks(links: set<(int, int)>, id: int): (r: set<(int, int)>)
    ensures forall p :: p in r <==> p in links && p.0 != id
  {
    set p | p in links && p.0 != id
  }

  function DropFilmCast(cast: map<(int, int), CastLink>, id: int): (r: map<(int, int), CastLink>)
    ensures forall k :: k in r <==> k in cast && k.0 != id
    ensures forall k :: k in r ==> r[k] == cast[k]
  {
    map k | k in cast && k.0 != id :: cast[k]
  }

  // ---------------------------------------------------------------- the store

  class Catalogue {
    var films: seq<Film>
    var genres: seq<Named>
    var actors: seq<Named>
    var directors: seq<Named>
    var filmGenres: set<(int, int)>
    var filmActors: map<(int, int), CastLink>
    var filmDirectors: set<(int, int)>
    var episodes: seq<Episode>
    /** Paths of the extra files attached to film rows (the film_files table). */
    var attachedFiles: set<string>
    /** Whether statements that write succeed. */
    var writable: bool

    ghost predicate Valid()
      reads this
    {
      FilmsValid(films) && NamedValid(genres) && NamedValid(actors) && NamedValid(directors) &&
      EpisodesValid(episodes)
    }

    /** An empty catalogue, as db_init leaves a new database. */
    constructor (writable: bool)
      ensures Valid() && this.writable == writable
      ensures films == [] && genres == [] && actors == [] && directors == [] && episodes == []
      ensures filmGenres == {} && filmActors == map[] && filmDirectors == {} && attachedFiles == {}
    {
      films := [];
      genres := [];
      actors := [];
      directors := [];
      filmGenres := {};
      filmActors := map[];
      filmDirectors := {};
      episodes := [];
      attachedFiles := {};
      this.writable := writable;
    }

    /**
     * db_is_file_tracked: the path belongs to a film row, an episode row or an attached
     * file.
     */
    predicate IsFileTracked(path: string)
      reads this
    {
      HasPath(films, path) || HasEpisode(episodes, path) || path in attachedFiles
    }

    /**
     * db_film_insert: fails on a NULL or already stored path (UNIQUE NOT NULL) or when
     * the write fails; otherwise appends the record's columns under the next rowid and
     * reports that id.
     */
    method FilmInsert(f: Film) returns (ok: bool, id: int)
      requires Valid()
      modifies this`films
      ensures Valid()
      ensures ok == (writable && f.filePath.Some? && GetByPath(old(films), f.filePath.value).None?)
      ensures ok ==> id == NextRowid(FilmIds(old(films))) && films == old(films) + [Stored(f, id)]
      ensures !ok ==> id == f.id && films == old(films)
    {
      if !writable || f.filePath.None? || GetByPath(films, f.filePath.value).Some? {
        return false, f.id;
      }
      id := NextRowid(FilmIds(films));
      var row := Stored(f, id);
      forall i | 0 <= i < |films| ensures films[i].id != row.id && films[i].filePath != row.filePath {
        assert FilmIds(films)[i] == films[i].id;
      }
      if films != [] { assert FilmIds(films)[0] < id; }
      AppendFilmValid(films, row);
      films := films + [row];
      ok := true;
    }

    /** db_film_update: rewrites the nine columns of the row with the record's id, if any. */
    method FilmUpdate(f: Film) returns (ok: bool)
      requires Valid()
      modifies this`films
      ensures Valid()
      ensures ok == writable
      ensures films == if ok then UpdateRows(old(films), f) else old(films)
    {
      if !writable { return false; }
      UpdateRowsRead(films, f, []);
      films := UpdateRows(films, f);
      ok := true;
    }

    /**
     * db_film_delete: removes the row with that id; with foreign keys on, its genre,
     * actor and director links go with it.
     */
    method FilmDelete(id: int) returns (ok: bool)
      requires Valid()
      modifies this`films, this`filmGenres, this`filmActors, this`filmDirectors
      ensures Valid()
      ensures ok == writable
      ensures ok ==> films == RemoveFilm(old(films), id)
      ensures ok ==> filmGenres == DropFilmLinks(old(filmGenres), id)
      ensures ok ==> filmDirectors == DropFilmLinks(old(filmDirectors), id)
      ensures ok ==> filmActors == DropFilmCast(old(filmActors), id)
      ensures !ok ==> films == old(films) && filmGenres == old(filmGenres) &&
                      filmDirectors == old(filmDirectors) && filmActors == old(filmActors)
    {
      if !writable { return false; }
      var rest := RemoveFilm(films, id);
      RemoveFilmValid(films, id);
      films := rest;
      assert Valid();
      DropLinksOf(id);
      ok := true;
    }

    /** The cascade of a film row's deletion to its genre, actor and director links. */
    method DropLinksOf(id: int)
      modifies this`filmGenres, this`filmActors, this`filmDirectors
      ensures filmGenres == DropFilmLinks(old(filmGenres), id)
      ensures filmDirectors == DropFilmLinks(old(filmDirectors), id)
      ensures filmActors == DropFilmCast(old(filmActors), id)
    {
      filmGenres := DropFilmLinks(filmGenres, id);
      filmDirectors := DropFilmLinks(filmDirectors, id);
      filmActors := DropFilmCast(filmActors, id);
    }

    /** db_film_clear_associations: drops the film's genre, actor and director links. */
    method ClearAssociations(id: int)
      requires Valid()
      modifies this`filmGenres, this`filmActors, this`filmDirectors
      ensures Valid()
      ensures writable ==> filmGenres == DropFilmLinks(old(filmGenres), id)
      ensures writable ==> filmDirectors == DropFilmLinks(old(filmDirectors), id)
      ensures writable ==> filmActors == DropFilmCast(old(filmActors), id)
      ensures !writable ==> filmGenres == old(filmGenres) && filmDirectors == old(filmDirectors) &&
                            filmActors == old(filmActors)
    {
      if writable {
        DropLinksOf(id);
      }
    }

    /** db_get_or_create_genre. */
    method GetOrCreateGenre(name: Option<string>) returns (id: int)
      requires Valid()
      modifies this`genres
      ensures Valid()
      ensures (genres, id) == GetOrCreate(old(genres), name, 0, writable)
    {
      GetOrCreateValid(genres, name, 0, writable);
      var found := SelectByName(genres, name);
      if found.Some? { return genres[found.value].id; }
      if !writable { return -1; }
      id := NextRowid(NamedIds(genres));
      genres := genres + [Named(id, name, 0)];
    }

    /** db_get_or_create_actor. */
    method GetOrCreateActor(name: Option<string>, tmdbId: int) returns (id: int)
      requires Valid()
      modifies this`actors
      ensures Valid()
      ensures (actors, id) == GetOrCreate(old(actors), name, tmdbId, writable)
    {
      GetOrCreateValid(actors, name, tmdbId, writable);
      var found := SelectByName(actors, name);
      if found.Some? { return actors[found.value].id; }
      if !writable { return -1; }
      id := NextRowid(NamedIds(actors));
      actors := actors + [Named(id, name, tmdbId)];
    }

    /** db_get_or_create_director. */
    method GetOrCreateDirector(name: Option<string>, tmdbId: int) returns (id: int)
      requires Valid()
      modifies this`directors
      ensures Valid()
      ensures (directors, id) == GetOrCreate(old(directors), name, tmdbId, writable)
    {
      GetOrCreateValid(directors, name, tmdbId, writable);
      var found := SelectByName(directors, name);
      if found.Some? { return directors[found.value].id; }
      if !writable { return -1; }
      id := NextRowid(NamedIds(directors));
      directors := directors + [Named(id, name, tmdbId)];
    }

    /**
     * db_genre_add_to_film: INSERT OR IGNORE of the (film, genre) link, so a link already
     * there stays single; the film_id foreign key makes it fail for an unknown film.
     */
    method GenreAddToFilm(filmId: int, name: Option<string>) returns (ok: bool)
      requires Valid()
      modifies this`genres, this`filmGenres
      ensures Valid()
      ensures var (g, gid) := GetOrCreate(old(genres), name, 0, writable);
        genres == g &&
        ok == (gid >= 0 && writable && HasFilm(films, filmId)) &&
        filmGenres == if ok then old(filmGenres) + {(filmId, gid)} else old(filmGenres)
    {
      var gid := GetOrCreateGenre(name);
      if gid < 0 || !writable || GetById(films, filmId).None? { return false; }
      filmGenres := filmGenres + {(filmId, gid)};
      ok := true;
    }

    /**
     * db_actor_add_to_film: INSERT OR REPLACE on the (film, actor) key, so re-adding an
     * actor replaces role and cast order in place.
     */
    method ActorAddToFilm(filmId: int, name: Option<string>, role: Option<string>, castOrder: int, tmdbId: int)
      returns (ok: bool)
      requires Valid()
      modifies this`actors, this`filmActors
      ensures Valid()
      ensures var (a, aid) := GetOrCreate(old(actors), name, tmdbId, writable);
        actors == a &&
        ok == (aid >= 0 && writable && HasFilm(films, filmId)) &&
        filmActors == if ok then old(filmActors)[(filmId, aid) := CastLink(role, castOrder)] else old(filmActors)
    {
      var aid := GetOrCreateActor(name, tmdbId);
      if aid < 0 || !writable || GetById(films, filmId).None? { return false; }
      filmActors := filmActors[(filmId, aid) := CastLink(role, castOrder)];
      ok := true;
    }

    /** db_director_add_to_film: INSERT OR IGNORE of the (film, director) link. */
    method DirectorAddToFilm(filmId: int, name: Option<string>, tmdbId: int) returns (ok: bool)
      requires Valid()
      modifies this`directors, this`filmDirectors
      ensures Valid()
      ensures var (d, did) := GetOrCreate(old(directors), name, tmdbId, writable);
        directors == d &&
        ok == (did >= 0 && writable && HasFilm(films, filmId)) &&
        filmDirectors == if ok then old(filmDirectors) + {(filmId, did)} else old(filmDirectors)
    {
      var did := GetOrCreateDirector(name, tmdbId);
      if did < 0 || !writable || GetById(films, filmId).None? { return false; }
      filmDirectors := filmDirectors + {(filmId, did)};
      ok := true;
    }

    /**
     * db_episode_insert, with the episodes table taken to have a UNIQUE NOT NULL
     * file_path: fails on a NULL or known path, otherwise appends under the next rowid.
     */
    method EpisodeInsert(e: Episode) returns (ok: bool)
      requires Valid()
      modifies this`episodes
      ensures Valid()
      ensures ok == (writable && e.filePath.Some? && !HasEpisode(old(episodes), e.filePath.value))
      ensures ok ==> episodes == old(episodes) + [e.(id := NextRowid(EpisodeIds(old(episodes))))]
      ensures !ok ==> episodes == old(episodes)
    {
      if !writable || e.filePath.None? || FindEpisodePath(episodes, e.filePath.value, 0).Some? {
        return false;
      }
      var id := NextRowid(EpisodeIds(episodes));
      var row := e.(id := id);
      var r := episodes + [row];
      forall i, j | 0 <= i < j < |r| ensures r[i].id != r[j].id && r[i].filePath != r[j].filePath {
        if j == |episodes| {
          assert r[i] == episodes[i] && EpisodeIds(episodes)[i] == episodes[i].id;
        } else {
          assert r[i] == episodes[i] && r[j] == episodes[j];
        }
      }
      if episodes != [] { assert EpisodeIds(episodes)[0] < id; }
      episodes := r;
      ok := true;
    }
  }

  predicate HasPath(films: seq<Film>, path: string) { exists i :: 0 <= i < |films| && films[i].filePath == Some(path) }

  /** The SELECT of the get-or-create functions, as the scan over the rows it performs. */
  method SelectByName(rows: seq<Named>, name: Option<string>) returns (r: Option<nat>)
    ensures r == FindName(rows, name, 0)
  {
    if name.None? { return None; }
    var i := 0;
    while i < |rows|
      invariant 0 <= i <= |rows|
      invariant FindName(rows, name, 0) == FindName(rows, name, i)
    {
      if rows[i].name == name { return Some(i); }
      i := i + 1;
    }
    return None;
  }
}
