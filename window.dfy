// The paginated film loader of the main window (window_refresh_films, request_next_page,
// maybe_request_next_page and the idle callbacks that receive the loader thread's results),
// the loader thread's deliveries, and window_refresh_film, which puts one re-read film back
// into the list.
//
// A request the loader thread serves is returned as a value; what the thread later posts
// back reaches the window through the idle methods.

module Window {
  import opened Wrappers
  import opened Records
  import opened Store
  import opened App
  import Grid

  /** The rows window_refresh_films loads synchronously. */
  const FirstPageSize := 80
  /** The rows each later request asks for. */
  const PageSize := 250

  /** A FilmsLoadRequest: its generation, a copy of the filter, the window into the listing. */
  datatype Request = Request(gen: int, filter: FilterState, offset: int, pageSize: int, includeCounts: bool)

  /** What the loader thread posts back for a request: the counts and the page, when any. */
  datatype Delivery = Delivery(counts: Option<(int, int)>, page: Option<seq<Film>>)

  /** The generation after films_refresh_gen++ on a guint. */
  function NextGen(g: int): (r: int)
    requires 0 <= g < GenModulus
    ensures 0 <= r < GenModulus && r != g
    ensures g + 1 < GenModulus ==> r == g + 1
    ensures g + 1 == GenModulus ==> r == 0
  {
    (g + 1) % GenModulus
  }

  /** The generation after n refreshes, one films_refresh_gen++ each. */
  function GenAfter(g: int, n: nat): (r: int)
    requires 0 <= g < GenModulus
    ensures 0 <= r < GenModulus
  {
    if n == 0 then g else NextGen(GenAfter(g, n - 1))
  }

  /** a refreshes and then b more are a + b refreshes. */
  lemma {:induction false} GenAfterAdd(g: int, a: nat, b: nat)
    requires 0 <= g < GenModulus
    ensures GenAfter(GenAfter(g, a), b) == GenAfter(g, a + b)
    decreases b
  {
    if b > 0 {
      GenAfterAdd(g, a, b - 1);
    }
  }

  /** n refreshes move the generation on by n, modulo 2^32. */
  lemma {:induction false} GenAfterWraps(g: int, n: nat)
    requires 0 <= g < GenModulus
    ensures GenAfter(g, n) == (g + n) % GenModulus
  {
    if n > 0 {
      GenAfterWraps(g, n - 1);
      var q := (g + n - 1) / GenModulus;
      assert g + n - 1 == q * GenModulus + GenAfter(g, n - 1);
      assert g + n == q * GenModulus + (GenAfter(g, n - 1) + 1);
    }
  }

  // ---------------------------------------------------------------- pages of the listing

  /**
   * db_films_get_page_db: the rows LIMIT size OFFSET offset of the listing, the rows the
   * filter's query selects in its order.
   */
  function Page(listing: seq<Film>, size: nat, offset: nat): seq<Film>
  {
    if offset >= |listing| then []
    else if offset + size <= |listing| then listing[offset..offset + size]
    else listing[offset..]
  }

  predicate IsPrefixOf(a: seq<Film>, b: seq<Film>) { |a| <= |b| && b[..|a|] == a }

  /**
   * What the window shows agrees with the listing: its films are the listing's first
   * rows, and all of them once the end is reached.
   */
  predicate Agrees(films: seq<Film>, endReached: bool, listing: seq<Film>)
  {
    IsPrefixOf(films, listing) && (endReached ==> films == listing)
  }

  /** A page of a given size is the listing's run of that many rows from the offset, or its rest. */
  lemma PageIsRun(listing: seq<Film>, size: nat, offset: nat)
    ensures var p := Page(listing, size, offset);
      |p| <= size &&
      (offset <= |listing| ==> listing[..offset] + p == listing[..offset + |p|]) &&
      (|p| < size ==> offset + |p| >= |listing|)
  {
    var p := Page(listing, size, offset);
    if offset <= |listing| {
      assert listing[..offset] + p == listing[..offset + |p|];
    }
  }

  /** The first page agrees with the listing, whatever its length. */
  lemma FirstPageAgrees(listing: seq<Film>)
    ensures var p := Page(listing, FirstPageSize, 0);
      Agrees(p, p == [] || |p| < FirstPageSize, listing)
  {
    PageIsRun(listing, FirstPageSize, 0);
    var p := Page(listing, FirstPageSize, 0);
    assert listing[..0] + p == p;
    if |p| < FirstPageSize {
      assert listing[..|p|] == listing;
    }
  }

  /**
   * The next page at the window's offset extends what it shows; an empty page, or one
   * shorter than requested, completes the listing.
   */
  lemma {:induction false} NextPageAgrees(films: seq<Film>, endReached: bool, listing: seq<Film>)
    requires Agrees(films, endReached, listing)
    ensures var p := Page(listing, PageSize, |films|);
      (p == [] ==> Agrees(films, true, listing)) &&
      (p != [] ==> Agrees(films + p, endReached || |p| < PageSize, listing) && !endReached)
  {
    var p := Page(listing, PageSize, |films|);
    PageIsRun(listing, PageSize, |films|);
    assert listing[..|films|] == films;
    if p == [] {
      assert listing[..|listing|] == listing;
    } else {
      assert listing[..|films + p|] == films + p;
      if |p| < PageSize {
        assert listing[..|listing|] == listing;
      }
    }
  }

  /** A full page leaves rows still to load only if the listing is longer. */
  lemma NextPageProgress(films: seq<Film>, listing: seq<Film>)
    requires IsPrefixOf(films, listing) && |films| < |listing|
    ensures Page(listing, PageSize, |films|) != []
  {
  }

  // ---------------------------------------------------------------- the loader thread

  /**
   * films_load_thread on its own connection (connected: db_open_readonly succeeded): the
   * counts when asked for, over the whole table, and the requested page of the listing.
   * The thread's check of the generation before the page query reads a field the window
   * thread writes; it is not modelled, and a stale page is dropped by the page idle anyway.
   */
  function LoadThread(req: Request, table: seq<Film>, listing: seq<Film>, connected: bool): (d: Delivery)
    ensures d.counts.Some? <==> connected && req.includeCounts
    ensures d.counts.Some? ==> d.counts.value == (|table|, CountUnmatched(table))
    ensures d.page.Some? <==> connected && req.pageSize > 0
    ensures d.page.Some? ==> |d.page.value| <= req.pageSize
  {
    Delivery(if connected && req.includeCounts then Some((|table|, CountUnmatched(table))) else None,
             if connected && req.pageSize > 0 then Some(Page(listing, req.pageSize, if req.offset < 0 then 0 else req.offset))
             else None)
  }

  /**
   * A next-page request for the window's films delivers the page that extends them, and
   * the counts-only request of a refresh delivers no page.
   */
  lemma NextRequestDelivers(films: seq<Film>, endReached: bool, f: FilterState, gen: int, table: seq<Film>,
                            listing: seq<Film>)
    requires Agrees(films, endReached, listing)
    ensures var d := LoadThread(Request(gen, f, |films|, PageSize, false), table, listing, true);
      d.counts.None? && d.page == Some(Page(listing, PageSize, |films|))
    ensures LoadThread(Request(gen, f, 0, 0, true), table, listing, true).page.None?
  {
  }

  // ---------------------------------------------------------------- the window side

  /**
   * request_next_page: nothing while a page is loading or once the end is reached;
   * otherwise the window is marked loading and asks for the next page at its offset.
   */
  method RequestNextPage(app: ReelApp) returns (req: Option<Request>)
    modifies app`filmsLoading
    ensures req.Some? <==> !old(app.filmsLoading) && !app.filmsEndReached
    ensures app.filmsLoading == (old(app.filmsLoading) || req.Some?)
    ensures req.Some? ==>
      req.value == Request(app.filmsRefreshGen, FilterClone(Some(app.filter)), app.filmsNextOffset, PageSize, false)
  {
    if app.filmsLoading || app.filmsEndReached {
      return None;
    }
    app.filmsLoading := true;
    req := Some(Request(app.filmsRefreshGen, FilterClone(Some(app.filter)), app.filmsNextOffset, PageSize, false));
  }

  /**
   * maybe_request_next_page: the scroll position is reduced to nearBottom (less than 400
   * pixels left, or nothing to scroll yet); only then is the next page requested.
   */
  method MaybeRequestNextPage(app: ReelApp, nearBottom: bool) returns (req: Option<Request>)
    modifies app`filmsLoading
    ensures req.Some? <==> !old(app.filmsLoading) && !app.filmsEndReached && nearBottom
    ensures app.filmsLoading == (old(app.filmsLoading) || req.Some?)
    ensures req.Some? ==>
      req.value == Request(app.filmsRefreshGen, FilterClone(Some(app.filter)), app.filmsNextOffset, PageSize, false)
  {
    if app.filmsLoading || app.filmsEndReached || !nearBottom {
      return None;
    }
    req := RequestNextPage(app);
  }

  /** The first half of window_refresh_films: a new generation, an empty list and grid. */
  method StartGeneration(app: ReelApp)
    requires app.LoaderValid() && app.GridValid()
    modifies app`filmsRefreshGen, app`filmsLoading, app`filmsEndReached, app`filmsNextOffset, app`films
    modifies app`gridIdleSource, app`gridPending, app`gridShown, app`gridWidgets, app`posters, app`gridPostersLoaded
    ensures app.LoaderValid() && app.GridValid()
    ensures app.filmsRefreshGen == NextGen(old(app.filmsRefreshGen))
    ensures !app.filmsLoading && !app.filmsEndReached && app.films == []
    ensures app.gridPending == [] && !app.gridIdleSource
    ensures app.gridShown == [] && app.posters == map[] && app.gridPostersLoaded == 0
    ensures app.gridWidgets == [] && app.ShownValid()
  {
    app.filmsRefreshGen := NextGen(app.filmsRefreshGen);
    app.filmsLoading := false;
    app.filmsEndReached := false;
    app.filmsNextOffset := 0;
    app.films := [];
    Grid.Clear(app);
    app.gridPostersLoaded := 0;
  }

  /** The synchronous first page: listed, handed to the grid, and the end when it is short. */
  method LoadFirstPage(app: ReelApp, listing: seq<Film>)
    requires app.films == [] && app.gridPending == []
    modifies app`filmsEndReached, app`filmsNextOffset, app`films, app`gridPending, app`gridIdleSource
    ensures app.filmsNextOffset == |app.films|
    ensures app.films == Page(listing, FirstPageSize, 0)
    ensures app.filmsEndReached == (app.films == [] || |app.films| < FirstPageSize)
    ensures Agrees(app.films, app.filmsEndReached, listing)
    ensures app.gridPending == app.films && app.gridIdleSource == (old(app.gridIdleSource) || app.films != [])
  {
    var initial := Page(listing, FirstPageSize, 0);
    if initial != [] {
      app.films := initial;
      Grid.AppendFilms(app, initial);
    }
    app.filmsNextOffset := |initial|;
    app.filmsEndReached := initial == [] || app.filmsNextOffset < FirstPageSize;
    FirstPageAgrees(listing);
  }

  /**
   * window_refresh_films: a new generation, the list and the grid emptied, the first page
   * loaded synchronously and handed to the grid, the end reached when that page is short,
   * a counts-only request for the new generation, and the next page when the grid is
   * near its bottom.
   */
  method RefreshFilms(app: ReelApp, listing: seq<Film>, nearBottom: bool) returns (counts: Request, next: Option<Request>)
    requires app.LoaderValid() && app.GridValid()
    modifies app`filmsRefreshGen, app`filmsLoading, app`filmsEndReached, app`filmsNextOffset, app`films
    modifies app`gridIdleSource, app`gridPending, app`gridShown, app`gridWidgets, app`posters, app`gridPostersLoaded
    ensures app.LoaderValid() && app.GridValid()
    ensures app.filmsRefreshGen == NextGen(old(app.filmsRefreshGen))
    ensures app.films == Page(listing, FirstPageSize, 0)
    ensures app.filmsEndReached == (app.films == [] || |app.films| < FirstPageSize)
    ensures Agrees(app.films, app.filmsEndReached, listing)
    ensures app.gridPending == app.films && app.gridIdleSource == (app.films != [])
    ensures app.gridShown == [] && app.posters == map[] && app.gridPostersLoaded == 0
    ensures app.gridWidgets == [] && app.ShownValid()
    ensures counts == Request(app.filmsRefreshGen, FilterClone(Some(app.filter)), 0, 0, true)
    ensures next.Some? <==> !app.filmsEndReached && nearBottom
    ensures app.filmsLoading == next.Some?
    ensures next.Some? ==>
      next.value == Request(app.filmsRefreshGen, FilterClone(Some(app.filter)), |app.films|, PageSize, false)
  {
    StartGeneration(app);
    LoadFirstPage(app, listing);
    counts := Request(app.filmsRefreshGen, FilterClone(Some(app.filter)), 0, 0, true);
    next := MaybeRequestNextPage(app, nearBottom);
  }

  /**
   * films_page_idle: a page of another generation is dropped; an empty page marks the
   * end; otherwise the rows are appended to the list and to the grid's queue, the offset
   * grows by their number, a short page marks the end, and the next page may be asked for.
   * The page the thread delivers for the window's next-page request keeps the window in
   * agreement with the listing.
   */
  method FilmsPageIdle(app: ReelApp, gen: int, page: seq<Film>, nearBottom: bool, ghost listing: seq<Film>)
    returns (next: Option<Request>)
    requires app.LoaderValid()
    modifies app`films, app`filmsEndReached, app`filmsNextOffset, app`filmsLoading, app`gridPending, app`gridIdleSource
    ensures app.LoaderValid()
    ensures gen != app.filmsRefreshGen ==>
      next.None? && app.films == old(app.films) && app.filmsEndReached == old(app.filmsEndReached) &&
      app.filmsLoading == old(app.filmsLoading) && app.gridPending == old(app.gridPending) &&
      app.gridIdleSource == old(app.gridIdleSource)
    ensures gen == app.filmsRefreshGen && page == [] ==>
      next.None? && app.films == old(app.films) && app.filmsEndReached &&
      app.filmsLoading == old(app.filmsLoading) && app.gridPending == old(app.gridPending) &&
      app.gridIdleSource == old(app.gridIdleSource)
    ensures gen == app.filmsRefreshGen && page != [] ==>
      app.films == old(app.films) + page &&
      app.filmsEndReached == (old(app.filmsEndReached) || |page| < PageSize) &&
      app.gridPending == old(app.gridPending) + page && app.gridIdleSource &&
      (next.Some? <==> !old(app.filmsLoading) && !app.filmsEndReached && nearBottom) &&
      app.filmsLoading == (old(app.filmsLoading) || next.Some?)
    ensures gen == app.filmsRefreshGen && Agrees(old(app.films), old(app.filmsEndReached), listing) &&
            page == Page(listing, PageSize, |old(app.films)|) ==>
      Agrees(app.films, app.filmsEndReached, listing)
  {
    if gen != app.filmsRefreshGen {
      return None;
    }
    if Agrees(app.films, app.filmsEndReached, listing) {
      NextPageAgrees(app.films, app.filmsEndReached, listing);
    }
    if page == [] {
      app.filmsEndReached := true;
      return None;
    }
    app.films := app.films + page;
    Grid.AppendFilms(app, page);
    app.filmsNextOffset := app.filmsNextOffset + |page|;
    if |page| < PageSize {
      app.filmsEndReached := true;
    }
    next := MaybeRequestNextPage(app, nearBottom);
  }

  /** films_counts_idle: the totals of the current generation reach the status bar. */
  method FilmsCountsIdle(app: ReelApp, gen: int, total: int, unmatched: int)
    modifies app`totalFilms, app`unmatchedFilms
    ensures gen == app.filmsRefreshGen ==> app.totalFilms == total && app.unmatchedFilms == unmatched
    ensures gen != app.filmsRefreshGen ==>
      app.totalFilms == old(app.totalFilms) && app.unmatchedFilms == old(app.unmatchedFilms)
  {
    if gen != app.filmsRefreshGen {
      return;
    }
    app.totalFilms := total;
    app.unmatchedFilms := unmatched;
  }

  /**
   * films_done_idle: for the current generation a page request stops the loading state,
   * and a pending genre change refreshes the filter bar (refreshBar) and is cleared.
   */
  method FilmsDoneIdle(app: ReelApp, req: Request) returns (refreshBar: bool)
    modifies app`filmsLoading, app`genresDirty
    ensures app.filmsLoading == if req.gen == app.filmsRefreshGen && req.pageSize > 0 then false else old(app.filmsLoading)
    ensures refreshBar <==> req.gen == app.filmsRefreshGen && old(app.genresDirty)
    ensures app.genresDirty == (old(app.genresDirty) && !refreshBar)
  {
    refreshBar := false;
    if req.gen == app.filmsRefreshGen {
      if req.pageSize > 0 {
        app.filmsLoading := false;
      }
      if app.genresDirty {
        refreshBar := true;
        app.genresDirty := false;
      }
    }
  }

  /**
   * A request answered after a refresh belongs to an older generation: its page and its
   * counts are dropped and its done callback leaves the loading state alone.
   */
  lemma RefreshMakesStale(g: int)
    requires 0 <= g < GenModulus
    ensures NextGen(g) != g && NextGen(NextGen(g)) != NextGen(g)
  {
  }

  // ---------------------------------------------------------------- window_refresh_film

  /**
   * window_refresh_film: the film is read back by id; an unknown id changes nothing.
   * Otherwise the first film of the list with that id is replaced by the row read back
   * (replaced says whether there was one) and grid_update_film puts a new poster widget
   * for it in place of its first shown one; a pending genre change refreshes the filter
   * bar and is cleared.
   */
  method WindowRefreshFilm(app: ReelApp, db: Catalogue, id: int) returns (replaced: bool, refreshBar: bool)
    requires app.GridValid() && app.ShownValid()
    modifies app`films, app`genresDirty
    modifies app`gridShown, app`gridWidgets, app`posters, app`nextPoster, app`gridPostersLoaded
    ensures app.GridValid() && app.ShownValid()
    ensures GetById(db.films, id).None? ==>
      !replaced && !refreshBar && app.films == old(app.films) && app.genresDirty == old(app.genresDirty)
    ensures !replaced || FindId(old(app.gridShown), id, 0).None? ==>
      app.gridShown == old(app.gridShown) && app.gridWidgets == old(app.gridWidgets) &&
      app.posters == old(app.posters) && app.nextPoster == old(app.nextPoster) &&
      app.gridPostersLoaded == old(app.gridPostersLoaded)
    ensures replaced && FindId(old(app.gridShown), id, 0).Some? ==>
      var i := FindId(old(app.gridShown), id, 0).value;
      var gone := old(app.gridWidgets)[i];
      app.gridShown == old(app.gridShown)[i := GetById(db.films, id).value] &&
      app.gridWidgets == old(app.gridWidgets)[i := old(app.nextPoster)] &&
      app.posters == (old(app.posters) - {gone})[old(app.nextPoster) := false] &&
      app.gridPostersLoaded == old(app.gridPostersLoaded) - (if old(app.posters)[gone] then 1 else 0)
    ensures GetById(db.films, id).Some? ==>
      app.films == (match FindId(old(app.films), id, 0)
                    case Some(i) => old(app.films)[i := GetById(db.films, id).value]
                    case None => old(app.films)) &&
      (replaced <==> FindId(old(app.films), id, 0).Some?) &&
      refreshBar == old(app.genresDirty) && !app.genresDirty
  {
    replaced := false;
    refreshBar := false;
    var updated := GetById(db.films, id);
    if updated.None? {
      return;
    }
    var i := 0;
    while i < |app.films| && app.films[i].id != id
      invariant 0 <= i <= |app.films|
      invariant app.films == old(app.films)
      invariant FindId(app.films, id, 0) == FindId(app.films, id, i)
    {
      i := i + 1;
    }
    if i < |app.films| {
      app.films := app.films[i := updated.value];
      replaced := true;
      var _ := Grid.UpdateFilm(app, updated.value);
    }
    if app.genresDirty {
      refreshBar := true;
      app.genresDirty := false;
    }
  }

  /**
   * Putting a re-read film back keeps the list's length and every other entry, and the
   * replaced entry is the first with that id, now reading as the new row.
   */
  lemma RefreshFilmKeepsOthers(films: seq<Film>, id: int, row: Film)
    requires row.id == id
    ensures var r := match FindId(films, id, 0) case Some(i) => films[i := row] case None => films;
      |r| == |films| &&
      (forall j :: 0 <= j < |films| && films[j].id != id ==> r[j] == films[j]) &&
      (FindId(films, id, 0).Some? ==> FindId(r, id, 0) == FindId(films, id, 0) && r[FindId(films, id, 0).value] == row)
  {
    match FindId(films, id, 0)
    case None =>
    case Some(i) =>
      var r := films[i := row];
      assert forall j :: 0 <= j < i ==> r[j] == films[j];
      SameLeadFind(films, r, id, i);
  }

  /** Two lists that agree before index k, which holds id in the second, find id at k alike. */
  lemma {:induction false} SameLeadFind(a: seq<Film>, b: seq<Film>, id: int, k: nat)
    requires k < |a| == |b| && b[k].id == id
    requires FindId(a, id, 0) == Some(k)
    requires forall j :: 0 <= j < k ==> b[j] == a[j]
    ensures FindId(b, id, 0) == Some(k)
  {
    assert forall j :: 0 <= j < k ==> b[j].id != id;
  }
}
