// The filter bar's state logic: update_filter_state (combo boxes and the search entry read
// into app->filter), the sort-order button and the reset button; each handler then
// refreshes the film list.

module Filter {
  import opened Wrappers
  import opened Text
  import opened Records
  import opened App
  import Window

  const AllGenres := "All Genres"
  const DefaultSort := "title"

  /**
   * What update_filter_state reads from the filter bar's widgets: the genre combo's active
   * text, the year combo's active id, the search entry's text and the sort combo's active id.
   */
  datatype Controls = Controls(genreText: Option<string>, yearId: Option<string>, searchText: string,
                               sortId: Option<string>)

  /** The year range a year-combo id selects: a decade, everything up to 1979, or no bound. */
  function DecadeRange(yearId: Option<string>): (r: (int, int))
    ensures r == (0, 0) || r == (0, 1979) || (1980 <= r.0 <= 2020 && r.1 == r.0 + 9 && r.0 % 10 == 0)
  {
    if yearId == Some("2020s") then (2020, 2029)
    else if yearId == Some("2010s") then (2010, 2019)
    else if yearId == Some("2000s") then (2000, 2009)
    else if yearId == Some("1990s") then (1990, 1999)
    else if yearId == Some("1980s") then (1980, 1989)
    else if yearId == Some("older") then (0, 1979)
    else (0, 0)
  }

  /** The decade ids */
  const DecadeIds: seq<string> := ["2020s", "2010s", "2000s", "1990s", "1980s"]

  /**
   * A decade id names the first year of its range: the range runs from the number the id
   * starts with to nine years later.
   */
  lemma DecadeRangeNamesDecade(id: string)
    requires id in DecadeIds
    ensures DecadeRange(Some(id)) == (Atoi(id), Atoi(id) + 9)
  {
    if id == "2020s" {
      DecadeIdReads(id, '2', '0', '2', '0');
    } else if id == "2010s" {
      DecadeIdReads(id, '2', '0', '1', '0');
    } else if id == "2000s" {
      DecadeIdReads(id, '2', '0', '0', '0');
    } else if id == "1990s" {
      DecadeIdReads(id, '1', '9', '9', '0');
    } else {
      DecadeIdReads(id, '1', '9', '8', '0');
    }
  }

  /** One decade id: its range starts at the four-digit number before its "s". */
  lemma DecadeIdReads(id: string, c0: char, c1: char, c2: char, c3: char)
    requires id == [c0, c1, c2, c3, 's']
    requires IsDigit(c0) && IsDigit(c1) && IsDigit(c2) && IsDigit(c3)
    requires DecadeRange(Some(id)).0 == DigitVal(c0) * 1000 + DigitVal(c1) * 100 + DigitVal(c2) * 10 + DigitVal(c3)
    requires DecadeRange(Some(id)).1 == DecadeRange(Some(id)).0 + 9
    ensures DecadeRange(Some(id)) == (Atoi(id), Atoi(id) + 9)
  {
    DecadeIdAtoi(c0, c1, c2, c3);
  }

  /**
   * "older" ends where the oldest decade starts, and an id that is neither a decade nor
   * "older", like a missing id, leaves the years unbounded.
   */
  lemma DecadeRangeOthers(id: string)
    ensures DecadeRange(Some("older")).1 + 1 == DecadeRange(Some("1980s")).0
    ensures id !in DecadeIds && id != "older" ==> DecadeRange(Some(id)) == (0, 0)
    ensures DecadeRange(None) == (0, 0)
  {
    if id !in DecadeIds {
      assert id != DecadeIds[0] && id != DecadeIds[1] && id != DecadeIds[2] && id != DecadeIds[3] && id != DecadeIds[4];
    }
  }

  /** atoi of a decade id is the four-digit number before its "s". */
  lemma DecadeIdAtoi(c0: char, c1: char, c2: char, c3: char)
    requires IsDigit(c0) && IsDigit(c1) && IsDigit(c2) && IsDigit(c3)
    ensures Atoi([c0, c1, c2, c3, 's']) == DigitVal(c0) * 1000 + DigitVal(c1) * 100 + DigitVal(c2) * 10 + DigitVal(c3)
  {
    var id := [c0, c1, c2, c3, 's'];
    AtoiOfDigitStart(id);
    assert DigitRun(id[4..]) == 0;
    assert DigitRun(id[3..]) == 1 + DigitRun(id[4..]);
    assert DigitRun(id[2..]) == 1 + DigitRun(id[3..]);
    assert DigitRun(id[1..]) == 1 + DigitRun(id[2..]);
    assert DigitRun(id) == 4;
    var d4, d3, d2, d1 := id[..4], id[..3], id[..2], id[..1];
    assert d4[..3] == d3 && d3[..2] == d2 && d2[..1] == d1 && d1[..0] == [];
    assert DigitsValue(d1) == DigitVal(c0);
    assert DigitsValue(d2) == DigitsValue(d1) * 10 + DigitVal(c1);
    assert DigitsValue(d3) == DigitsValue(d2) * 10 + DigitVal(c2);
    assert DigitsValue(d4) == DigitsValue(d3) * 10 + DigitVal(c3);
  }

  /** The genre filter: none for a missing or empty text and for "All Genres". */
  function GenreOf(text: Option<string>): (g: Option<string>)
    ensures g.Some? <==> text.Some? && text.value != [] && text.value != AllGenres
    ensures g.Some? ==> g == text
  {
    if text.Some? && |text.value| > 0 && text.value != AllGenres then text else None
  }

  /** The search filter: none for an empty entry. */
  function SearchOf(text: string): (s: Option<string>)
    ensures s.None? <==> text == []
    ensures s.Some? ==> s.value == text
  {
    if |text| > 0 then Some(text) else None
  }

  /** The sort column: the sort combo's id, "title" when none is active. */
  function SortOf(sortId: Option<string>): (s: Option<string>)
    ensures s.Some?
    ensures sortId.Some? ==> s == sortId
    ensures sortId.None? ==> s == Some(DefaultSort)
  {
    Some(if sortId.Some? then sortId.value else DefaultSort)
  }

  /**
   * The filter after update_filter_state: genre, years, search text and sort column come
   * from the controls; actor, director, plot text and the sort direction stay as they were.
   */
  function FromControls(f: FilterState, c: Controls): (r: FilterState)
    ensures r.actor == f.actor && r.director == f.director && r.plotText == f.plotText
    ensures r.sortAscending == f.sortAscending
    ensures r.sortBy.Some?
  {
    var (from, to) := DecadeRange(c.yearId);
    f.(genre := GenreOf(c.genreText), yearFrom := from, yearTo := to, searchText := SearchOf(c.searchText),
       sortBy := SortOf(c.sortId))
  }

  /**
   * Reading the same controls twice gives the filter reading them once gives, and what is
   * read does not depend on the genre, years, search text and sort column read before.
   */
  lemma FromControlsIdempotent(f: FilterState, g: FilterState, c: Controls)
    requires f.actor == g.actor && f.director == g.director && f.plotText == g.plotText
    requires f.sortAscending == g.sortAscending
    ensures FromControls(FromControls(f, c), c) == FromControls(f, c)
    ensures FromControls(f, c) == FromControls(g, c)
  {
  }

  /** The year range update_filter_state sets from the year combo's id. */
  method ReadYears(yearId: Option<string>) returns (from: int, to: int)
    ensures (from, to) == DecadeRange(yearId)
  {
    from, to := 0, 0;
    if yearId.Some? {
      var id := yearId.value;
      if id == "2020s" {
        from, to := 2020, 2029;
      } else if id == "2010s" {
        from, to := 2010, 2019;
      } else if id == "2000s" {
        from, to := 2000, 2009;
      } else if id == "1990s" {
        from, to := 1990, 1999;
      } else if id == "1980s" {
        from, to := 1980, 1989;
      } else if id == "older" {
        to := 1979;
      }
    }
  }

  /**
   * update_filter_state: without the filter bar's widgets nothing changes; otherwise the
   * filter is read from the controls.
   */
  method UpdateFilterState(app: ReelApp, controls: Option<Controls>)
    modifies app`filter
    ensures controls.None? ==> app.filter == old(app.filter)
    ensures controls.Some? ==> app.filter == FromControls(old(app.filter), controls.value)
  {
    if controls.None? {
      return;
    }
    var c := controls.value;
    var genre := None;
    if c.genreText.Some? && |c.genreText.value| > 0 && c.genreText.value != AllGenres {
      genre := c.genreText;
    }
    var from, to := ReadYears(c.yearId);
    app.filter := app.filter.(genre := genre, yearFrom := from, yearTo := to);
    if |c.searchText| > 0 {
      app.filter := app.filter.(searchText := Some(c.searchText));
    } else {
      app.filter := app.filter.(searchText := None);
    }
    app.filter := app.filter.(sortBy := Some(if c.sortId.Some? then c.sortId.value else DefaultSort));
  }

  /** The sort direction after a click on the sort-order button. */
  function Toggled(f: FilterState): (r: FilterState)
    ensures r.sortAscending != f.sortAscending
    ensures r.(sortAscending := f.sortAscending) == f
  {
    f.(sortAscending := !f.sortAscending)
  }

  /** Two clicks on the sort-order button restore the filter. */
  lemma ToggleTwice(f: FilterState)
    ensures Toggled(Toggled(f)) == f
  {
  }

  /**
   * on_sort_order_clicked: the direction is reversed and the list refreshed from the
   * listing of the new filter.
   */
  method SortOrderClicked(app: ReelApp, listing: seq<Film>, nearBottom: bool)
    returns (counts: Window.Request, next: Option<Window.Request>)
    requires app.LoaderValid() && app.GridValid()
    modifies app`filter, app`filmsRefreshGen, app`filmsLoading, app`filmsEndReached, app`filmsNextOffset, app`films
    modifies app`gridIdleSource, app`gridPending, app`gridShown, app`gridWidgets, app`posters, app`gridPostersLoaded
    ensures app.LoaderValid() && app.GridValid()
    ensures app.filter == Toggled(old(app.filter))
    ensures app.filmsRefreshGen == Window.NextGen(old(app.filmsRefreshGen))
    ensures app.films == Window.Page(listing, Window.FirstPageSize, 0)
    ensures counts.filter == app.filter
  {
    app.filter := app.filter.(sortAscending := !app.filter.sortAscending);
    counts, next := Window.RefreshFilms(app, listing, nearBottom);
  }

  /**
   * on_filter_changed and on_search_changed: the filter is read from the controls and the
   * list refreshed from the listing of the new filter.
   */
  method FilterChanged(app: ReelApp, controls: Option<Controls>, listing: seq<Film>, nearBottom: bool)
    returns (counts: Window.Request, next: Option<Window.Request>)
    requires app.LoaderValid() && app.GridValid()
    modifies app`filter, app`filmsRefreshGen, app`filmsLoading, app`filmsEndReached, app`filmsNextOffset, app`films
    modifies app`gridIdleSource, app`gridPending, app`gridShown, app`gridWidgets, app`posters, app`gridPostersLoaded
    ensures app.LoaderValid() && app.GridValid()
    ensures controls.None? ==> app.filter == old(app.filter)
    ensures controls.Some? ==> app.filter == FromControls(old(app.filter), controls.value)
    ensures app.filmsRefreshGen == Window.NextGen(old(app.filmsRefreshGen))
    ensures app.films == Window.Page(listing, Window.FirstPageSize, 0)
    ensures counts.filter == app.filter
  {
    UpdateFilterState(app, controls);
    counts, next := Window.RefreshFilms(app, listing, nearBottom);
  }

  /**
   * The filter bar's widgets: what update_filter_state reads from them, and the active
   * index of each combo box (-1 when none is active).
   */
  datatype Bar = Bar(controls: Controls, genreActive: int, yearActive: int, sortActive: int)

  /**
   * A combo box at index 0 shows its first entry: the genre text "All Genres", the year
   * id "" and the sort id "title".
   */
  predicate BarValid(b: Bar)
  {
    (b.genreActive == 0 ==> b.controls.genreText == Some(AllGenres)) &&
    (b.yearActive == 0 ==> b.controls.yearId == Some("")) &&
    (b.sortActive == 0 ==> b.controls.sortId == Some(DefaultSort))
  }

  /** The bar after filter_bar_reset: each combo box at its first entry, the search empty. */
  function ResetBar(): (b: Bar)
    ensures BarValid(b) && b.controls.searchText == ""
    ensures b.genreActive == 0 && b.yearActive == 0 && b.sortActive == 0
  {
    Bar(Controls(Some(AllGenres), Some(""), "", Some(DefaultSort)), 0, 0, 0)
  }

  /**
   * The signals resetting the bar emits: "changed" for each combo box whose active index
   * moves to 0, and "search-changed" when a nonempty search is cleared (a search entry
   * emits it at once when its text becomes empty).
   */
  function Moves(b: Bar): (n: nat)
    ensures n <= 4
    ensures n == 0 <==> b.genreActive == 0 && b.yearActive == 0 && b.sortActive == 0 && b.controls.searchText == ""
  {
    (if b.genreActive != 0 then 1 else 0) + (if b.yearActive != 0 then 1 else 0) +
    (if b.sortActive != 0 then 1 else 0) + (if b.controls.searchText != "" then 1 else 0)
  }

  /**
   * filter_bar_reset: without the filter bar's widgets nothing happens. Otherwise the genre,
   * year and sort combo boxes go to index 0 and the search entry is emptied, in that order;
   * each of these that changes its control runs its handler (update_filter_state on the
   * controls as they are at that moment, then window_refresh_films). Then the filter goes
   * back to its initial defaults and the list is refreshed once more. `listingOf` gives the
   * database's listing under a filter.
   */
  method Reset(app: ReelApp, bar: Option<Bar>, listingOf: FilterState -> seq<Film>, nearBottom: bool)
    returns (after: Option<Bar>, refreshes: nat, counts: Option<Window.Request>, next: Option<Window.Request>)
    requires app.LoaderValid() && app.GridValid()
    requires bar.Some? ==> BarValid(bar.value)
    modifies app`filter, app`filmsRefreshGen, app`filmsLoading, app`filmsEndReached, app`filmsNextOffset, app`films
    modifies app`gridIdleSource, app`gridPending, app`gridShown, app`gridWidgets, app`posters, app`gridPostersLoaded
    ensures app.LoaderValid() && app.GridValid()
    ensures counts.Some? <==> bar.Some?
    ensures bar.None? ==> unchanged(app) && after.None? && refreshes == 0 && next.None?
    ensures bar.Some? ==>
      after == Some(ResetBar()) && refreshes == Moves(bar.value) + 1 &&
      app.filter == FilterInit() &&
      app.filmsRefreshGen == Window.GenAfter(old(app.filmsRefreshGen), refreshes) &&
      app.films == Window.Page(listingOf(FilterInit()), Window.FirstPageSize, 0) &&
      counts.value.filter == FilterInit() && counts.value.gen == app.filmsRefreshGen
  {
    if bar.None? {
      return None, 0, None, None;
    }
    var b, moved := ResetControls(app, bar.value, listingOf, nearBottom);
    ghost var g1 := app.filmsRefreshGen;
    app.filter := FilterZero();
    app.filter := FilterInit();
    var c;
    c, next := Window.RefreshFilms(app, listingOf(FilterInit()), nearBottom);
    Window.GenAfterAdd(old(app.filmsRefreshGen), moved, 1);
    refreshes := moved + 1;
    counts := Some(c);
    after := Some(b);
  }

  /**
   * The controls of filter_bar_reset put back in order (genre, year, sort, search), each
   * emitting its signal when it changes: the bar ends up reset and the list has been
   * refreshed once per signal.
   */
  method ResetControls(app: ReelApp, b0: Bar, listingOf: FilterState -> seq<Film>, nearBottom: bool)
    returns (b: Bar, moved: nat)
    requires app.LoaderValid() && app.GridValid() && BarValid(b0)
    modifies app`filter, app`filmsRefreshGen, app`filmsLoading, app`filmsEndReached, app`filmsNextOffset, app`films
    modifies app`gridIdleSource, app`gridPending, app`gridShown, app`gridWidgets, app`posters, app`gridPostersLoaded
    ensures app.LoaderValid() && app.GridValid()
    ensures b == ResetBar() && moved == Moves(b0)
    ensures app.filmsRefreshGen == Window.GenAfter(old(app.filmsRefreshGen), moved)
  {
    ghost var g0 := app.filmsRefreshGen;
    var b1 := b0.(controls := b0.controls.(genreText := Some(AllGenres)), genreActive := 0);
    var m1 := Emit(app, b1.controls, b0.genreActive != 0, listingOf, nearBottom);
    var b2 := b1.(controls := b1.controls.(yearId := Some("")), yearActive := 0);
    var m2 := Emit(app, b2.controls, b1.yearActive != 0, listingOf, nearBottom);
    var b3 := b2.(controls := b2.controls.(sortId := Some(DefaultSort)), sortActive := 0);
    var m3 := Emit(app, b3.controls, b2.sortActive != 0, listingOf, nearBottom);
    b := b3.(controls := b3.controls.(searchText := ""));
    var m4 := Emit(app, b.controls, b3.controls.searchText != "", listingOf, nearBottom);
    Window.GenAfterAdd(g0, m1, m2);
    Window.GenAfterAdd(g0, m1 + m2, m3);
    Window.GenAfterAdd(g0, m1 + m2 + m3, m4);
    moved := m1 + m2 + m3 + m4;
  }

  /**
   * One control of the bar put back by filter_bar_reset: when that changes it, its signal
   * runs the handler (update_filter_state on the controls, then window_refresh_films on the
   * listing of the filter read); otherwise nothing happens. n counts the refreshes.
   */
  method Emit(app: ReelApp, controls: Controls, changed: bool, listingOf: FilterState -> seq<Film>, nearBottom: bool)
    returns (n: nat)
    requires app.LoaderValid() && app.GridValid()
    modifies app`filter, app`filmsRefreshGen, app`filmsLoading, app`filmsEndReached, app`filmsNextOffset, app`films
    modifies app`gridIdleSource, app`gridPending, app`gridShown, app`gridWidgets, app`posters, app`gridPostersLoaded
    ensures app.LoaderValid() && app.GridValid()
    ensures n == if changed then 1 else 0
    ensures !changed ==> unchanged(app)
    ensures changed ==> app.filter == FromControls(old(app.filter), controls)
    ensures app.filmsRefreshGen == Window.GenAfter(old(app.filmsRefreshGen), n)
  {
    if !changed {
      return 0;
    }
    var _, _ := FilterChanged(app, Some(controls), listingOf(FromControls(app.filter, controls)), nearBottom);
    n := 1;
  }

  /**
   * The reset filter is what the controls in their reset positions read back: the first
   * genre entry "All Genres", the first year entry with the empty id, an empty search and
   * the first sort id "title".
   */
  lemma ResetMatchesControls()
    ensures FromControls(FilterInit(), ResetBar().controls) == FilterInit()
  {
  }
}
