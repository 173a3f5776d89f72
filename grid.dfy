// The poster grid's bookkeeping: the pending queue drained in chunks by an idle source,
// the counter of posters whose image has been applied, the thumbnail cache next to each
// poster file, and the temp-file-then-rename save of a generated thumbnail.

module Grid {
  import opened Wrappers
  import opened Text
  import opened Records
  import opened Store
  import opened App

  /** The number of poster widgets one run of the idle source creates. */
  const ChunkSize := 40
  const ThumbMarker := "_thumb"
  const ThumbSuffix := "_thumb.jpg"
  /** The name mkstemp fills in: its last six characters are replaced. */
  const TmpTemplate := ".reelvault_tmp_XXXXXX"
  const TmpPrefix := ".reelvault_tmp_"

  // ---------------------------------------------------------------- the poster counter

  /** The set of loaded posters does not change when an unloaded poster is added. */
  lemma LoadedAfterAdd(posters: map<int, bool>, w: int)
    requires w !in posters
    ensures LoadedPosters(posters[w := false]) == LoadedPosters(posters)
  {
  }

  /**
   * create_poster_widget's poster area: a new live widget, numbered nextPoster, without
   * the loaded flag.
   */
  method AddPoster(app: ReelApp) returns (w: int)
    requires app.GridValid()
    modifies app`posters, app`nextPoster
    ensures w == old(app.nextPoster) && app.nextPoster == w + 1
    ensures app.posters == old(app.posters)[w := false]
    ensures LoadedPosters(app.posters) == LoadedPosters(old(app.posters))
    ensures app.GridValid()
  {
    w := app.nextPoster;
    LoadedAfterAdd(app.posters, w);
    app.posters := app.posters[w := false];
    app.nextPoster := w + 1;
  }

  /** poster_area_destroy: a destroyed widget that carried the loaded flag is uncounted. */
  method PosterAreaDestroy(app: ReelApp, w: int)
    requires app.GridValid() && w in app.posters
    modifies app`posters, app`gridPostersLoaded
    ensures app.posters == old(app.posters) - {w}
    ensures app.gridPostersLoaded == old(app.gridPostersLoaded) - (if old(app.posters)[w] then 1 else 0)
    ensures app.GridValid()
  {
    var before := LoadedPosters(app.posters);
    var loaded := app.posters[w];
    app.posters := app.posters - {w};
    assert LoadedPosters(app.posters) == before - {w};
    if loaded {
      app.gridPostersLoaded := app.gridPostersLoaded - 1;
    } else {
      assert before - {w} == before;
    }
  }

  /**
   * poster_apply_idle: when the widget is still alive and an image was decoded, the
   * widget gets the loaded flag, and the counter rises if it did not carry it yet.
   */
  method PosterApplyIdle(app: ReelApp, w: int, pixbuf: bool)
    requires app.GridValid()
    modifies app`posters, app`gridPostersLoaded
    ensures app.posters == if w in old(app.posters) && pixbuf then old(app.posters)[w := true] else old(app.posters)
    ensures app.gridPostersLoaded ==
      old(app.gridPostersLoaded) + (if w in old(app.posters) && pixbuf && !old(app.posters)[w] then 1 else 0)
    ensures app.GridValid()
  {
    if w in app.posters && pixbuf {
      if !app.posters[w] {
        var before := LoadedPosters(app.posters);
        app.posters := app.posters[w := true];
        assert LoadedPosters(app.posters) == before + {w};
        app.gridPostersLoaded := app.gridPostersLoaded + 1;
      } else {
        assert app.posters[w := true] == app.posters;
      }
    }
  }

  // ---------------------------------------------------------------- the pending queue

  /**
   * grid_clear: the idle source is cancelled, the pending queue dropped and every
   * widget destroyed (each destruction running poster_area_destroy).
   */
  method Clear(app: ReelApp)
    requires app.GridValid()
    modifies app`gridIdleSource, app`gridPending, app`gridShown, app`gridWidgets, app`posters, app`gridPostersLoaded
    ensures !app.gridIdleSource && app.gridPending == [] && app.gridShown == [] && app.gridWidgets == []
    ensures app.posters == map[] && app.gridPostersLoaded == 0
    ensures app.GridValid() && app.ShownValid()
  {
    app.gridIdleSource := false;
    app.gridPending := [];
    // the children in the order they were inserted, which is the order of their numbers
    var last := app.nextPoster;
    for w := 0 to last
      invariant !app.gridIdleSource && app.gridPending == [] && app.nextPoster == last
      invariant forall v :: v in app.posters ==> w <= v
      invariant app.GridValid()
    {
      if w in app.posters {
        PosterAreaDestroy(app, w);
      }
    }
    app.gridShown := [];
    app.gridWidgets := [];
    assert forall v :: v !in app.posters;
    assert app.posters == map[];
    assert LoadedPosters(app.posters) == {};
  }

  /** The k widget numbers from `from` on, as create_poster_widget hands them out. */
  function Numbers(from: int, k: nat): (r: seq<int>)
    ensures |r| == k && forall i :: 0 <= i < k ==> r[i] == from + i
  {
    seq(k, i => from + i)
  }

  /** The number of films one run of the idle source takes from a queue of n. */
  function Chunk(n: nat): (k: nat)
    ensures k <= n && k <= ChunkSize
    ensures k == n || k == ChunkSize
  {
    if n < ChunkSize then n else ChunkSize
  }

  /**
   * grid_append_idle: up to ChunkSize films leave the front of the queue, in order, each
   * becoming a new poster widget at the end of the grid. The source removes itself
   * exactly when the queue has run empty.
   */
  method AppendIdle(app: ReelApp) returns (more: bool)
    requires app.GridValid() && app.ShownValid()
    modifies app`gridPending, app`gridShown, app`gridWidgets, app`posters, app`nextPoster, app`gridIdleSource
    ensures var k := Chunk(|old(app.gridPending)|);
      app.gridShown == old(app.gridShown) + old(app.gridPending)[..k] &&
      app.gridPending == old(app.gridPending)[k..] &&
      app.gridWidgets == old(app.gridWidgets) + Numbers(old(app.nextPoster), k)
    ensures app.gridShown + app.gridPending == old(app.gridShown) + old(app.gridPending)
    ensures more <==> app.gridPending != []
    ensures app.gridIdleSource == (old(app.gridIdleSource) && more)
    ensures LoadedPosters(app.posters) == LoadedPosters(old(app.posters))
    ensures app.GridValid() && app.ShownValid()
  {
    var inserted := 0;
    while app.gridPending != [] && inserted < ChunkSize
      invariant 0 <= inserted <= ChunkSize && inserted <= |old(app.gridPending)|
      invariant app.gridIdleSource == old(app.gridIdleSource)
      invariant app.gridShown == old(app.gridShown) + old(app.gridPending)[..inserted]
      invariant app.gridPending == old(app.gridPending)[inserted..]
      invariant app.gridWidgets == old(app.gridWidgets) + Numbers(old(app.nextPoster), inserted)
      invariant app.nextPoster == old(app.nextPoster) + inserted
      invariant LoadedPosters(app.posters) == LoadedPosters(old(app.posters))
      invariant app.GridValid() && app.ShownValid()
      decreases |app.gridPending|
    {
      var film := app.gridPending[0];
      var w := AddPoster(app);
      assert old(app.gridPending)[..inserted + 1] == old(app.gridPending)[..inserted] + [film];
      assert Numbers(old(app.nextPoster), inserted + 1) == Numbers(old(app.nextPoster), inserted) + [w];
      app.gridShown := app.gridShown + [film];
      app.gridWidgets := app.gridWidgets + [w];
      app.gridPending := app.gridPending[1..];
      inserted := inserted + 1;
    }
    assert app.gridShown + app.gridPending == old(app.gridShown) + (old(app.gridPending)[..inserted] + old(app.gridPending)[inserted..]);
    assert old(app.gridPending)[..inserted] + old(app.gridPending)[inserted..] == old(app.gridPending);
    if app.gridPending == [] {
      app.gridIdleSource := false;
      return false;
    }
    return true;
  }

  /**
   * grid_append_films: a nonempty list is queued behind what is pending, and an idle
   * source is installed unless one already is; an empty list changes nothing.
   */
  method AppendFilms(app: ReelApp, films: seq<Film>)
    modifies app`gridPending, app`gridIdleSource
    ensures app.gridPending == old(app.gridPending) + films
    ensures app.gridIdleSource == (old(app.gridIdleSource) || films != [])
  {
    if films == [] {
      assert old(app.gridPending) + films == old(app.gridPending);
      return;
    }
    app.gridPending := app.gridPending + films;
    if !app.gridIdleSource {
      app.gridIdleSource := true;
    }
  }

  /**
   * grid_update_film: the first shown poster with the film's id has its widget destroyed
   * (poster_area_destroy uncounting it when it was loaded), and a new poster widget for the
   * updated film, not loaded yet, takes its place in the flow box. A film that is not
   * shown changes nothing.
   */
  method UpdateFilm(app: ReelApp, film: Film) returns (index: Option<nat>)
    requires app.GridValid() && app.ShownValid()
    modifies app`gridShown, app`gridWidgets, app`posters, app`nextPoster, app`gridPostersLoaded
    ensures index == FindId(old(app.gridShown), film.id, 0)
    ensures index.None? ==>
      app.gridShown == old(app.gridShown) && app.gridWidgets == old(app.gridWidgets) &&
      app.posters == old(app.posters) && app.nextPoster == old(app.nextPoster) &&
      app.gridPostersLoaded == old(app.gridPostersLoaded)
    ensures index.Some? ==>
      var i := index.value;
      var gone := old(app.gridWidgets)[i];
      app.gridShown == old(app.gridShown)[i := film] &&
      app.gridWidgets == old(app.gridWidgets)[i := old(app.nextPoster)] &&
      app.posters == (old(app.posters) - {gone})[old(app.nextPoster) := false] &&
      app.nextPoster == old(app.nextPoster) + 1 &&
      app.gridPostersLoaded == old(app.gridPostersLoaded) - (if old(app.posters)[gone] then 1 else 0)
    ensures app.GridValid() && app.ShownValid()
  {
    var i := 0;
    while i < |app.gridShown| && app.gridShown[i].id != film.id
      invariant 0 <= i <= |app.gridShown| && app.gridShown == old(app.gridShown)
      invariant FindId(app.gridShown, film.id, 0) == FindId(app.gridShown, film.id, i)
    {
      i := i + 1;
    }
    if i == |app.gridShown| {
      return None;
    }
    index := Some(i);
    PosterAreaDestroy(app, app.gridWidgets[i]);
    var w := AddPoster(app);
    app.gridShown := app.gridShown[i := film];
    app.gridWidgets := app.gridWidgets[i := w];
  }

  // ---------------------------------------------------------------- thumbnails

  /**
   * grid_thumb_path_for_original: "_thumb" inserted before the last '.', or no path
   * when there is no '.'.
   */
  function ThumbPathFor(path: Option<string>): (t: Option<string>)
    ensures t.Some? <==> path.Some? && '.' in path.value
  {
    match path
    case None => None
    case Some(p) =>
      match LastIndexOf(p, '.')
      case None => None
      case Some(k) => Some(p[..k] + ThumbMarker + p[k..])
  }

  /** The poster a thumbnail path was made from: "_thumb" taken out before the last '.'. */
  function OriginalOf(t: string): (p: Option<string>)
  {
    match LastIndexOf(t, '.')
    case None => None
    case Some(k) =>
      if k >= |ThumbMarker| && t[k - |ThumbMarker|..k] == ThumbMarker
      then Some(t[..k - |ThumbMarker|] + t[k..])
      else None
  }

  /** A thumbnail path leads back to the poster it was made from. */
  lemma ThumbRoundTrip(p: string)
    requires '.' in p
    ensures OriginalOf(ThumbPathFor(Some(p)).value) == Some(p)
  {
    var k := LastIndexOf(p, '.').value;
    var t := p[..k] + ThumbMarker + p[k..];
    assert ThumbPathFor(Some(p)).value == t;
    var m := k + |ThumbMarker|;
    assert t[m] == p[k];
    forall j | m < j < |t| ensures t[j] != '.' {
      assert t[j] == p[j - |ThumbMarker|];
    }
    LastIndexOfIs(t, '.', m);
    assert t[m - |ThumbMarker|..m] == ThumbMarker;
    assert t[..m - |ThumbMarker|] == p[..k];
    assert t[m..] == p[k..];
    assert p[..k] + p[k..] == p;
  }

  /** The thumbnail of a ".jpg" poster ends in "_thumb.jpg", so it is never thumbnailed again. */
  lemma ThumbOfJpeg(p: string)
    requires IsSuffix(".jpg", p)
    ensures ThumbPathFor(Some(p)).Some? && IsSuffix(ThumbSuffix, ThumbPathFor(Some(p)).value)
  {
    var k := |p| - 4;
    assert p[k] == '.';
    forall j | k < j < |p| ensures p[j] != '.' {
      assert p[j] == p[k..][j - k];
    }
    LastIndexOfIs(p, '.', k);
    var t := p[..k] + ThumbMarker + p[k..];
    assert t[|t| - |ThumbSuffix|..] == ThumbMarker + p[k..];
  }

  /** A file: its content and its modification time. */
  datatype Blob = Blob(data: string, mtime: int)

  /** thumb_is_fresh: both files exist and the thumbnail is not older than the original. */
  predicate ThumbIsFresh(fs: map<string, Blob>, original: Option<string>, thumb: Option<string>)
  {
    original.Some? && thumb.Some? && original.value in fs && thumb.value in fs &&
    fs[thumb.value].mtime >= fs[original.value].mtime
  }

  /**
   * The regenerate decision of poster_load_worker: a requested path that is not itself a
   * thumbnail, has a thumbnail path, and whose thumbnail is missing or stale.
   */
  predicate NeedsThumb(fs: map<string, Blob>, path: string)
  {
    var thumb := ThumbPathFor(Some(path));
    !IsSuffix(ThumbSuffix, path) && thumb.Some? &&
    (thumb.value !in fs || !ThumbIsFresh(fs, Some(path), thumb))
  }

  /**
   * A thumbnail is regenerated exactly when the path is not a thumbnail, contains a '.',
   * and the thumbnail is not fresh.
   */
  lemma NeedsThumbIff(fs: map<string, Blob>, path: string)
    ensures NeedsThumb(fs, path) <==>
      !IsSuffix(ThumbSuffix, path) && '.' in path && !ThumbIsFresh(fs, Some(path), ThumbPathFor(Some(path)))
  {
  }

  /** Once a thumbnail not older than its poster is written, it is not regenerated. */
  lemma SavedThumbIsKept(fs: map<string, Blob>, path: string, thumbData: string, now: int)
    requires path in fs && '.' in path && now >= fs[path].mtime
    requires ThumbPathFor(Some(path)).value != path
    ensures !NeedsThumb(fs[ThumbPathFor(Some(path)).value := Blob(thumbData, now)], path)
  {
  }

  /** The thumbnail path differs from the poster's own: it is six characters longer. */
  lemma ThumbIsOtherFile(path: string)
    requires '.' in path
    ensures ThumbPathFor(Some(path)).value != path
  {
    var k := LastIndexOf(path, '.').value;
    assert |path[..k] + ThumbMarker + path[k..]| == |path| + |ThumbMarker|;
  }

  // ---------------------------------------------------------------- the atomic save

  /** grid_make_tmp_path_in_dir: the template name in the destination's directory. */
  function TmpTemplateFor(dest: Option<string>): (t: Option<string>)
    ensures t.Some? <==> dest.Some?
  {
    match dest
    case None => None
    case Some(d) => Some(BuildFilename(Dirname(d), TmpTemplate))
  }

  /** The name mkstemp makes of the template, given the six characters it chose. */
  function TmpPathFor(dest: string, chosen: string): string
  {
    BuildFilename(Dirname(dest), TmpPrefix + chosen)
  }

  /** The template and the temp file both lie in the destination's directory. */
  lemma TmpInDestDir(dest: string, chosen: string)
    requires '/' !in chosen
    ensures Dirname(TmpTemplateFor(Some(dest)).value) == Dirname(dest)
    ensures Dirname(TmpPathFor(dest, chosen)) == Dirname(dest)
    ensures Basename(TmpPathFor(dest, chosen)) == TmpPrefix + chosen
  {
    DirnameShape(dest);
    DirnameOfBuild(Dirname(dest), TmpTemplate);
    assert '/' !in TmpPrefix;
    assert forall i :: 0 <= i < |TmpPrefix + chosen| ==> (TmpPrefix + chosen)[i] != '/';
    DirnameOfBuild(Dirname(dest), TmpPrefix + chosen);
    BasenameOfBuild(Dirname(dest), TmpPrefix + chosen);
  }

  /**
   * grid_save_pixbuf_jpeg_atomic over a filesystem map. The environment's choices are
   * parameters: the six characters mkstemp picks (it fails when that name exists), whether
   * gdk_pixbuf_save and g_rename succeed, and the time stamp of the writes. The temp file
   * is created empty, written, then renamed onto the destination; on a failed save or
   * rename it is unlinked.
   */
  method SaveJpegAtomic(fs: map<string, Blob>, image: Option<string>, dest: Option<string>, chosen: string,
                        saveOk: bool, renameOk: bool, now: int) returns (fs': map<string, Blob>, written: bool)
    ensures written <==> image.Some? && dest.Some? && TmpPathFor(dest.value, chosen) !in fs && saveOk && renameOk
    ensures written ==> fs' == fs[dest.value := Blob(image.value, now)]
    ensures !written ==> fs' == fs
  {
    if image.None? || dest.None? {
      return fs, false;
    }
    var tmpl := TmpTemplateFor(dest);
    var tmp := TmpPathFor(dest.value, chosen);
    if tmp in fs {
      return fs, false;
    }
    var cur := fs[tmp := Blob("", now)];
    if !saveOk {
      cur := cur - {tmp};
      assert cur == fs;
      return cur, false;
    }
    cur := cur[tmp := Blob(image.value, now)];
    if !renameOk {
      cur := cur - {tmp};
      assert cur == fs;
      return cur, false;
    }
    var moved := cur[tmp];
    cur := (cur - {tmp})[dest.value := moved];
    assert cur == fs[dest.value := Blob(image.value, now)];
    return cur, true;
  }

  /**
   * poster_load_worker: the thumbnail is regenerated when needed (from the scaled image
   * the decoder produced, if any), and the image shown is read from the thumbnail when it
   * exists, otherwise from the poster itself.
   */
  method PosterLoadWorker(fs: map<string, Blob>, path: string, scaled: Option<string>, chosen: string,
                          saveOk: bool, renameOk: bool, now: int) returns (fs': map<string, Blob>, shownFrom: string)
    ensures var thumb := ThumbPathFor(Some(path));
      (NeedsThumb(fs, path) && scaled.Some? && TmpPathFor(thumb.value, chosen) !in fs && saveOk && renameOk ==>
        fs' == fs[thumb.value := Blob(scaled.value, now)]) &&
      (!(NeedsThumb(fs, path) && scaled.Some? && TmpPathFor(thumb.value, chosen) !in fs && saveOk && renameOk) ==>
        fs' == fs)
    ensures var thumb := if IsSuffix(ThumbSuffix, path) then None else ThumbPathFor(Some(path));
      shownFrom == if thumb.Some? && thumb.value in fs' then thumb.value else path
  {
    fs' := fs;
    var thumb: Option<string> := None;
    if !IsSuffix(ThumbSuffix, path) {
      thumb := ThumbPathFor(Some(path));
      if thumb.Some? {
        var needThumb := thumb.value !in fs || !ThumbIsFresh(fs, Some(path), thumb);
        if needThumb && scaled.Some? {
          var written;
          fs', written := SaveJpegAtomic(fs, scaled, thumb, chosen, saveOk, renameOk, now);
        }
      }
    }
    if thumb.Some? && thumb.value in fs' {
      shownFrom := thumb.value;
    } else {
      shownFrom := path;
    }
  }
}
