# ReelVault catalogue core in Dafny

ReelVault is a GTK catalogue of local films and TV seasons, written in C. It walks the user's library folders and files every video it finds: as a film, or as an episode of a TV season. It fills the records in from TMDB, a remote film database, and keeps them in an SQLite catalogue. A grid pages through the catalogue and shows poster thumbnails.

This project models that behaviour in Dafny and proves properties of the model. It follows the C code function by function, except for the parts listed under "## Left out" and the corrected behaviour listed under "## Findings". Code that edits a buffer or a table in place becomes a method over a class or an array, with loop invariants. Such methods are proved against specification functions, and the lemmas are stated about those functions. Pure code becomes functions with lemmas.

Modules, one per source file, leaf first:

- `Wrappers`, `Text` (text.dfy): `Option`, plus the C library and GLib helpers the code relies on. These are character classes, `strstr`, `strrchr`, `atoi`, `printf "%d"`, `g_strstrip`, `g_path_get_basename`/`g_path_get_dirname` and `g_build_filename`.
- `Records` (records.dfy): `Film`, `Episode` and `FilterState`, the match-status codes, and `film_copy`, `filter_state_init` and `filter_state_clone`.
- `App` (app.dfy): the `ReelApp` state the other modules share, and its constructor. It also holds the directory choice of `reel_app_init_paths`.
- `Utils` (utils.dfy): `utils_normalize_title` as an in-place edit of a character array, and `utils_format_runtime`.
- `Classify` (classify.dfy): the filename and directory-name heuristics of scanner.c: video extensions, the year token, season folders, SxxEyy, the "all episodes agree" rule and show names.
- `Config` (config.dfy): the library-path list, and the ';' join and split of `config_load`/`config_save`.
- `Store` (store.dfy): the SQLite catalogue as in-memory tables in a `Catalogue` class, with the CRUD and find-or-create operations of db.c.
- `Query` (query.dfy): the SQL text `db_films_get_all` builds from a filter.
- `Scan` (scan.dfy): `scan_tv_season` and `scan_directory_recursive` over an abstract directory tree.
- `Scraper` (scraper.dfy): the curl buffer, search-result shaping, applying a detail reply to a film, the auto-match pass and the background flag.
- `Match` (match.dfy): `reset_film_to_unmatched` and the writes of `apply_match_thread`.
- `Window` (window.dfy): the paginated loader, with deliveries as events, and `window_refresh_film`.
- `Grid` (grid.dfy): the thumbnail-path rule and freshness test, the temp-then-rename save, the pending queue drain and the loaded-poster counter.
- `Filter` (filter.dfy): the mapping from the filter bar's controls to the filter, the sort-order toggle and the reset.

Some of the code's behaviour, modelled as written:

- A folder named "Specials" is never a season folder. The 'S'-shorthand test of `is_season_directory` comes first and rejects the name, so its Specials branch cannot be reached (`Classify.SpecialsIsNotSeasonDirectory`).
- The films table has no media-type or season-number column. A stored row therefore reads back as a film of season 0. So a reset of a stored row takes the film branch, and neither the TV conversion of `apply_match_thread` nor the scanner's season repair is persisted (`Match.ConversionNotStored`).
- Deleting a film cascades only to the genre, actor and director link tables that the schema declares.
- The refresh counter is an unsigned 32-bit counter that wraps to 0 after its largest value (`Window.NextGen`, `Window.GenAfterWraps`).
- Resetting the filter bar can refresh the list up to five times. Each combo box moved back to its first entry, and a nonempty search being cleared, emits its signal, and the handler refreshes (`Filter.Reset`).

## Model

| member | source | states |
|---|---|---|
| Text.IndexOf | src/utils.c:36 | strstr: the leftmost occurrence of the pattern, and none exactly when the pattern does not occur |
| Text.LastIndexOf | src/grid.c:154 | strrchr: the last position holding the character, and none exactly when it does not occur |
| Text.AtoiOfDigitStart | src/scraper.c:220-225 | when the string starts with a digit, atoi reads exactly its run of leading digits |
| Text.NatToStringReadBack | src/scanner.c:258-259 | a number printed with "%d" and followed by a non-digit is read back as that number |
| Text.DirnameOfBuild | src/scanner.c:361-364 | the directory part of a path built from a directory and an entry name is that directory |
| Text.BasenameOfBuild | src/scanner.c:361-364 | the last component of a path built from a directory and an entry name is that name |
| Text.TrimEnd | src/utils.c:50 | the trailing half of g_strstrip drops exactly the trailing white space |
| Text.Strip | src/utils.c:50 | g_strstrip leaves a piece of the string with no white space at either end |
| Records.StatusCode | src/app.h:35-40 | the stored match-status codes are 0 to 3, and 0 is exactly the unmatched status |
| Records.StatusOfCode | src/app.h:35-40 | a stored code names a status exactly when it is between 0 and 3 |
| Records.StatusCodeRoundTrip | src/app.h:35-40 | reading a stored code back gives the status it was written for, and every valid code is the code of the status it reads as |
| Records.FilmNew | src/main.c:210 | film_new gives a zero-filled record: id 0, NULL strings, unmatched, a film with season 0 |
| Records.EpisodeNew | src/main.c:256 | episode_new gives a zero-filled episode record |
| Records.FilmCopy | src/main.c:229-254 | NULL is copied as NULL, and otherwise every field, media type and season number included, is copied unchanged |
| Records.FilterZero | src/main.c:273 | the memset filter has no string fields, no years and a descending sort flag |
| Records.FilterInit | src/main.c:272-276 | filter_state_init leaves every field cleared except sorting by "title", ascending |
| Records.FilterClone | src/window.c:165-178 | cloning a NULL filter gives the zero filter, and cloning a filter gives an equal one |
| App.ReelApp.constructor | src/main.c:87-92 | reel_app_new: a zeroed state with the initial filter, "xdg-open" as the player command, an empty loader and an empty grid |
| App.ConfigDirChoice | src/main.c:130-162 | for two distinct names, the legacy configuration directory is chosen exactly when the new one holds neither the database nor config.ini and the legacy one holds one of them; the choice is always one of the two |
| App.CacheDirChoice | src/main.c:171-178 | for two distinct names, the legacy cache directory is used exactly when only it exists as a directory |
| App.LegacyIsNew | src/app.h:10-11 | with the names this release ships, the fallback name is the new one, so the new configuration and cache directories are always used |
| App.PathsShareDirectory | src/main.c:161-162 | the database and config.ini are placed side by side in the chosen configuration directory under their own names |
| App.PosterCacheInCache | src/main.c:199 | the poster cache is the "posters" folder inside the chosen cache directory |
| App.InitPaths | src/main.c:126-206 | over an abstract file system, success exactly when no needed directory creation fails; the configuration paths are set once the configuration directory is settled, the cache path and the poster path once the cache directory is settled, the poster path even when creating "posters" then fails, and a failure leaves later fields untouched |
| Utils.StripTagsNonEmpty | src/utils.c:10-17 | every entry of the release-tag table is non-empty, so a tag that is found always shortens the title |
| Utils.ReplaceSeparators | src/utils.c:24-29 | replacing '.' and '_' by spaces keeps the length of the title |
| Utils.TagCut | src/utils.c:35-45 | the tag loop only ever shortens the text: each tag found in what is left ends the text at its first occurrence |
| Utils.TrimDashes | src/utils.c:53-56 | dropping trailing '-' and ' ' leaves a prefix of the text that ends in neither |
| Utils.Capitalize | src/utils.c:59-65 | capitalisation keeps the length of the text |
| Utils.CutLength | src/utils.c:35-45 | the tag loop never cuts beyond the end of the separator-replaced copy |
| Utils.Normalize | src/utils.c:19-21 | a NULL title stays NULL and any other title gives a result |
| Utils.CleanedIsSlice | src/utils.c:24-56 | before capitalisation the title is a contiguous piece of the separator-replaced input that ends at or before the first tag cut |
| Utils.NormalizedLength | src/utils.c:19-68 | the normalised title is never longer than the raw one |
| Utils.NormalizedNoSeparators | src/utils.c:24-29 | no '.' or '_' survives normalisation |
| Utils.CleanedNoSeparators | src/utils.c:24-56 | no '.' or '_' survives the cutting and trimming steps, for any tag table |
| Utils.CapitalizeKeeps | src/utils.c:59-65 | capitalisation introduces no character other than upper-case letters |
| Utils.NormalizedEnd | src/utils.c:50-56 | the normalised title never ends with '-' or ' ' |
| Utils.CapitalizeEnd | src/utils.c:59-65 | capitalisation keeps a text that does not end with '-' or ' ' that way |
| Utils.NormalizedCapitals | src/utils.c:58-65 | every character that starts a word (first, or after a space) is not a lower-case ASCII letter, and every other character is the cleaned text's own |
| Utils.CapitalizeWords | src/utils.c:58-65 | the same word-start rule for the capitalisation step alone, for any text |
| Utils.CutAtFirst | src/utils.c:36-43 | cutting a text at the first occurrence of a non-empty tag leaves a text without that tag |
| Utils.TagCutRemovesTags | src/utils.c:35-45 | after the tag loop none of the tags occurs in what is left of the lower-cased copy |
| Utils.LowerSlice | src/utils.c:32 | lower-casing a piece of the title is the same piece of the lower-cased title, so a cut in the lower-cased copy is a cut in the title |
| Utils.LowerCapitalize | src/utils.c:59-65 | capitalisation is invisible once the text is lower-cased again |
| Utils.NormalizedNoTags | src/utils.c:10-45 | the lower-cased result contains none of the release tags, even inside a word |
| Utils.CleanedNoTags | src/utils.c:35-56 | the lower-cased text after cutting and trimming contains none of the tags of the table used |
| Utils.MatchesAt | src/utils.c:36 | comparing the tag with the buffer character by character at one position decides whether it occurs there |
| Utils.Find | src/utils.c:36 | strstr on the lower-cased buffer returns the first position of the tag, or nothing when it does not occur |
| Utils.LeftmostIsIndexOf | src/utils.c:36 | an occurrence with no earlier occurrence is the one strstr reports |
| Utils.AsciiSpaceRunIs | src/utils.c:50 | the GLib white-space run counted from the front is the one g_strstrip skips |
| Utils.SeparatorsToSpaces | src/utils.c:24-29 | the loop over the copy leaves exactly the separator-replaced title in the buffer |
| Utils.CutAtTags | src/utils.c:35-45 | the loop of strstr calls leaves the terminator where the tag function cuts |
| Utils.TagCutStep | src/utils.c:35-45 | one iteration of the tag loop: cutting at the first tag, then running the rest of the table |
| Utils.SkipLeadingSpace | src/utils.c:50 | the start index after skipping leading white space gives the text without its leading white space |
| Utils.DropTrailingSpace | src/utils.c:50 | the end index after dropping trailing white space gives the text without its trailing white space |
| Utils.StripBounds | src/utils.c:50 | g_strstrip in place: the new bounds delimit the text stripped at both ends |
| Utils.DropTrailingDashes | src/utils.c:53-56 | the while loop's end index gives the text without trailing '-' and ' ' |
| Utils.CapitalizeRange | src/utils.c:58-65 | the cap_next loop in place turns the buffer into the capitalised text |
| Utils.NormalizeTitle | src/utils.c:19-68 | the in-place algorithm on a copy of the input computes the normalised title, and NULL stays NULL |
| Utils.SeparateAndCut | src/utils.c:24-45 | a fresh copy with separators replaced, and the length the tag loop cuts it to |
| Utils.NormalizeWith | src/utils.c:24-65 | the body on a non-NULL input computes the capitalised cleaned title for the given tag table |
| Utils.FormatRuntime | src/utils.c:70-72 | a runtime of zero minutes or less is "Unknown" |
| Utils.FormatRuntimeReadBack | src/utils.c:70-82 | every positive runtime reads back as the same number of minutes, and the text has an hours field exactly when the runtime is at least 60 minutes |
| Utils.MinutesReadBack | src/utils.c:79-80 | "%dm" of a minute count reads back as that count and has no hours field |
| Utils.HoursReadBack | src/utils.c:77-78 | "%dh %dm" with fewer than 60 minutes reads back as hours times 60 plus minutes |
| Classify.Leftmost | src/scanner.c:46 | a search reports a position at or after where it starts |
| Classify.LeftmostIs | src/scanner.c:46 | the position a search reports matches and no earlier one does, and when it reports none no position matches: the leftmost match a regular-expression search returns |
| Classify.ExtensionShape | src/scanner.c:13-14 | every listed video extension is a '.' followed by at least one lower-case character other than '.' |
| Classify.IsVideoFileBySuffix | src/scanner.c:16-27 | a name is a video file exactly when it ends, ignoring ASCII case, with one of the listed extensions |
| Classify.NoDotNoVideo | src/scanner.c:17-19 | a name without '.' is never a video file |
| Classify.YearMatch | src/scanner.c:41-46 | the year pattern's match is the leftmost position at which the year token can match, or there is none |
| Classify.Stem | src/scanner.c:35-38 | the stem keeps a '.' only when the base name has one: the directory and the extension are removed |
| Classify.TitleEnd | src/scanner.c:51-59 | the title text ends at the year match when that match is past the start of the stem, and otherwise runs to the end of the stem |
| Classify.ParseFilenameYear | src/scanner.c:41-49 | the parsed year is 0 exactly when the stem holds no year token, and otherwise is a four-digit value between 1000 and 2999 |
| Classify.YearOfRange | src/scanner.c:42-48 | the same year rule stated on a stem |
| Classify.ParseFilenameTitle | src/scanner.c:51-67 | the parsed title is no longer than the text before the year token (or the whole stem) and holds no '.' or '_' |
| Classify.SpecialsIsNotSeasonDirectory | src/scanner.c:85-96 | a directory named "Specials" in any case is never a season directory: the 'S' shorthand test comes first and fails on the 'p' |
| Classify.ShorthandSeason | src/scanner.c:85-93 | a name of 'S' or 's', then separators ' ', '-', '_' or '.', then a digit announces the season its digit run reads as |
| Classify.SeasonWordNeedsDigit | src/scanner.c:75-84 | a name starting with "Season" or "Series" that has no digit after the word is not a season directory |
| Classify.SxxEyyAtIsPattern | src/scanner.c:149-180 | the SxxEyy scanner matches exactly where the pattern [Ss]\d{1,2}[Ee]\d{1,2} can match, and reports the only possible season group and the longest episode group |
| Classify.FirstSxxEyyIsLeftmost | src/scanner.c:149-180 | the SxxEyy match reported is the one at the leftmost matching position, and none is reported when no position matches |
| Classify.ParseSxxEyy | src/scanner.c:149-180 | a NULL name gives no match, and a matched season and episode are each at most 99 |
| Classify.SxxEyyBound | src/scanner.c:149-180 | with at most two digits per group, every SxxEyy match reads as season and episode numbers up to 99 |
| Classify.EntrySeasons | src/scanner.c:114-124 | each entry of a listing contributes one reading, in listing order |
| Classify.DetectSeason | src/scanner.c:101-147 | the loop over the listing gives the season the whole listing agrees on, or nothing |
| Classify.DisagreementMeansNone | src/scanner.c:126-133 | two marked entries with different seasons mean no season is detected |
| Classify.AgreementMeansSome | src/scanner.c:126-144 | a marked entry that agrees with every other marked entry fixes the detected season |
| Classify.DetectedSeasonIs | src/scanner.c:101-147 | a season s is detected exactly when some entry is marked and every marked entry carries s |
| Classify.EpisodeNumber | src/scanner.c:311-318 | a non-zero episode number comes from the leftmost [Ee]\d+ match, and a name without such a match gets 0 |
| Classify.SeasonMarkAt | src/scanner.c:196 | a match of the season-marker pattern lies inside the text |
| Classify.SeasonWordAt | src/scanner.c:202 | a match of the season-word pattern lies inside the text |
| Classify.SpaceRunAt | src/scanner.c:210 | a match of the repeated-white-space pattern lies inside the text |
| Classify.CollapseFrom | src/scanner.c:210-211 | replacing every run of two or more white-space characters by one space leaves no doubled white space |
| Classify.StripKeepsSingle | src/scanner.c:216 | stripping keeps a text free of doubled white space |
| Classify.DirnameShowNameShape | src/scanner.c:190-216 | the show-name clean-up leaves no doubled white space and no white space at either end |
| Classify.ShowNameFromDirnameShape | src/scanner.c:182-218 | the show name derived from a directory name has no doubled white space and no white space at either end |
| Classify.EpisodeMarkerAt | src/scanner.c:229 | a match of the episode-marker pattern lies inside the text |
| Classify.FirstEpisodeMarker | src/scanner.c:229-234 | the marker found is the leftmost position where the episode-marker pattern matches, or there is none |
| Classify.EpisodeShowNamePiece | src/scanner.c:228-246 | the show name taken from an episode file name is a piece of the normalised name that ends before the first marker when the marker is past the start, with no white space at either end |
| Config.Join | src/config.c:67 | joining no paths gives the empty string |
| Config.Pieces | src/config.c:42 | splitting a non-empty stored value always gives at least one path |
| Config.NoSemicolonNotFound | src/config.c:42 | a path without ';' contains no separator for the split to find |
| Config.FirstSeparator | src/config.c:42 | the split of a joined list finds its first separator right after the first path |
| Config.PiecesOfJoin | src/config.c:37-70 | splitting the join of a non-empty list of paths without ';' gives the list back |
| Config.SplitJoin | src/config.c:37-70 | a path list without ';' whose join is not empty survives being saved and loaded |
| Config.JoinPieces | src/config.c:37-70 | joining the pieces of any stored string gives the string back |
| Config.JoinSplit | src/config.c:37-70 | the other round trip: a stored value survives being split and joined again |
| Config.SavedFile | src/config.c:52-70 | config_save writes the API key and the player command as they are, and the paths key exactly when the list is non-empty |
| Config.SaveThenLoad | src/config.c:37-70 | saving and then loading gives the same library paths back, for any list without ';' other than the single empty path; an empty list is not saved, so loading keeps the paths already held |
| Config.Load | src/config.c:10-50 | an unreadable file fails and changes nothing; otherwise each key that is present replaces its field, and the paths are replaced only by a non-empty value |
| Config.Save | src/config.c:52-88 | the key file written is the saved form of the current state, and the result is whether writing it succeeded |
| Config.SetApiKey | src/config.c:90-93 | the API key becomes the argument, NULL included |
| Config.SetPlayerCommand | src/config.c:95-98 | the player command becomes the argument, NULL included |
| Config.RemoveFirst | src/config.c:122-149 | an absent path leaves the list alone, and a present one makes it one entry shorter |
| Config.FirstIndex | src/config.c:126-132 | the index the search loop stops at holds the path, and no earlier entry does |
| Config.RemoveFirstIs | src/config.c:137-144 | removal takes out exactly the first entry equal to the path and keeps the others in order |
| Config.AddThenRemove | src/config.c:100-149 | adding a new path and then removing it restores the list |
| Config.AddLibraryPath | src/config.c:100-120 | a path already listed is ignored; otherwise it is appended after the existing paths |
| Config.RemoveLibraryPath | src/config.c:122-149 | the new list is the old one without its first entry equal to the path |
| Config.LibraryPathExists | src/window.c:890-899 | the path is reported present exactly when it is a non-empty string listed among the library paths |
| Store.NextRowid | src/db.c:137 | the rowid an INSERT gives is larger than every id in the table: 1 for an empty table, one past the largest id otherwise |
| Store.MaxOf | src/db.c:137 | the largest id of a non-empty table is one of its ids and no id exceeds it |
| Store.Stored | src/db.c:107-142 | the row db_film_insert writes keeps every column of the record, under the new id, with the film type and no season (the table has no columns for those) |
| Store.FindPath | src/db.c:227-244 | the search by file_path finds the first row on the path, or reports that there is none |
| Store.FindId | src/db.c:208-225 | the search by id finds the first row with the id, or reports that there is none |
| Store.GetByPath | src/db.c:227-244 | db_film_get_by_path returns a row exactly when some row is on the path, and the row it returns is on the path |
| Store.GetById | src/db.c:208-225 | db_film_get_by_id returns a row exactly when some row has the id, and the row it returns has the id |
| Store.Updated | src/db.c:144-172 | the UPDATE takes title, year, runtime, plot, poster, TMDB id, IMDb id, rating and match status from the record and keeps id, path, added date, type and season of the row |
| Store.UpdatedDependsOnNineColumns | src/db.c:144-172 | records that agree on the nine updated columns give the same row |
| Store.UpdatedTwice | src/db.c:144-172 | an update repeated changes nothing, and a later update overrides an earlier one |
| Store.UpdateRows | src/db.c:144-172 | UPDATE ... WHERE id rewrites only the rows with the record's id and keeps the table's length |
| Store.UpdateRowsTwice | src/db.c:144-172 | db_film_update is idempotent |
| Store.UpdateRowsRead | src/db.c:144-172 | an update keeps the table valid, keeps every lookup by path, and makes the lookup by id return the updated row |
| Store.SamePathsSameFind | src/db.c:227-244 | the lookup by path depends only on the rows' paths |
| Store.SameIdsSameFind | src/db.c:208-225 | the lookup by id depends only on the rows' ids |
| Store.RemoveFilm | src/db.c:174-187 | DELETE ... WHERE id keeps exactly the rows with another id |
| Store.TailValid | src/db.c:12-14 | the rows after the first of a valid table are still a valid table |
| Store.ConsValid | src/db.c:12-14 | a row with a fresh id and a fresh path before a valid table gives a valid table |
| Store.RemoveFilmValid | src/db.c:174-187 | a delete keeps the table valid, and afterwards no row has the id |
| Store.AppendFilmValid | src/db.c:107-142 | appending a row with a fresh positive id and a fresh non-NULL path keeps the table valid |
| Store.InsertThenGetByPath | src/db.c:107-142 | after an insert on a new path, the lookup by that path returns the stored row |
| Store.UnmatchedRows | src/db.c:326-343 | the rows with match_status 0, exactly |
| Store.CountUnmatched | src/db.c:360-373 | the count of unmatched rows is at most the number of rows |
| Store.CountIsListLength | src/db.c:326-373 | db_films_count_unmatched equals the length of the list db_films_get_unmatched returns |
| Store.LexTotal | src/db.c:328 | the ordering of ORDER BY file_path relates any two paths |
| Store.LexTrans | src/db.c:328 | the ordering of ORDER BY file_path is transitive |
| Store.InsertByPath | src/db.c:328 | inserting a row into a list adds it and keeps every other row |
| Store.ConsSorted | src/db.c:328 | a row no later than every row of a sorted list can go before it |
| Store.SortedTail | src/db.c:328 | the tail of a sorted list is sorted and comes after its head |
| Store.BelowInsert | src/db.c:328 | a row before every row of a list and the inserted one is before every row of the result |
| Store.InsertByPathSorted | src/db.c:328 | inserting into a sorted list keeps it sorted |
| Store.SortByPath | src/db.c:328 | sorting keeps the same rows, counted with repetition |
| Store.SortByPathSorted | src/db.c:328 | the sorted rows are ordered by file path |
| Store.UnmatchedIs | src/db.c:326-343 | db_films_get_unmatched lists exactly the unmatched rows, each once, ordered by file path, as many as the count |
| Store.FindName | src/db.c:377-405 | SELECT id ... WHERE name = ? finds the first row with the name; a NULL name finds nothing, as NULL = NULL is not true in SQL |
| Store.GetOrCreate | src/db.c:377-405 | a name already present gives its id and changes nothing; otherwise a writable database appends a new row under a fresh id and a failing one gives -1 |
| Store.GetOrCreateIdempotent | src/db.c:377-405 | once a name has an id, asking again gives the same id and changes nothing |
| Store.GetOrCreateNullAdds | src/db.c:377-405 | a NULL name is never found, so each call adds a new row |
| Store.GetOrCreateValid | src/db.c:377-405 | the name table stays valid and the result is -1 or a positive id |
| Store.SelectByName | src/db.c:379-390 | the SELECT loop returns what the search by name defines |
| Store.FindEpisodePath | src/scanner.c:304 | the search of the episode table by path finds a row on the path, or reports that there is none; this function is absent from the db.c shown, so its meaning is inferred from its callers |
| Store.DropFilmLinks | src/db.c:32-62 | ON DELETE CASCADE keeps exactly the link rows of other films |
| Store.DropFilmCast | src/db.c:44-50 | ON DELETE CASCADE keeps exactly the cast rows of other films, with their role and order |
| Store.Catalogue.constructor | src/db.c:69-96 | a new database has empty tables |
| Store.Catalogue.FilmInsert | src/db.c:107-142 | the insert succeeds exactly when the database writes and the path is non-NULL and new; then the record is stored under the next rowid and that id is returned; otherwise nothing changes |
| Store.Catalogue.FilmUpdate | src/db.c:144-172 | a writable database applies the update to the rows with the record's id; otherwise nothing changes |
| Store.Catalogue.FilmDelete | src/db.c:174-187 | a writable database deletes the rows with the id and cascades to their genre, actor and director links; otherwise nothing changes |
| Store.Catalogue.ClearAssociations | src/match.c:398 | the film's genre, actor and director links are dropped when the database writes, and the film rows stay; this function is absent from the db.c shown, so its meaning is inferred from its callers |
| Store.Catalogue.GetOrCreateGenre | src/db.c:377-405 | the genre table and id are those GetOrCreate defines, with TMDB id 0 |
| Store.Catalogue.GetOrCreateActor | src/db.c:469-497 | the actor table and id are those GetOrCreate defines |
| Store.Catalogue.GetOrCreateDirector | src/db.c:570-599 | the director table and id are those GetOrCreate defines |
| Store.Catalogue.GenreAddToFilm | src/db.c:407-427 | the genre is found or created; the link is added exactly when that gave an id, the database writes and the film exists |
| Store.Catalogue.ActorAddToFilm | src/db.c:499-522 | the actor is found or created; the cast row with role and order is written, replacing an earlier one, exactly when that gave an id, the database writes and the film exists |
| Store.Catalogue.DirectorAddToFilm | src/db.c:601-621 | the director is found or created; the link is added exactly when that gave an id, the database writes and the film exists |
| Store.Catalogue.EpisodeInsert | src/scanner.c:304-325 | an episode row with a new non-NULL path is appended under the next rowid when the database writes; otherwise nothing changes; this function is absent from the db.c shown, so its meaning is inferred from its callers |
| Query.Optional | src/db.c:253-291 | the condition of a rank appears, once, exactly when the filter asks for it: a non-empty genre, a positive year_from or year_to, a non-empty search text or actor |
| Query.UptoFromFilter | src/db.c:253-291 | every condition of the first n ranks belongs to one of those ranks and carries the filter's own value |
| Query.UptoRanked | src/db.c:253-291 | the conditions come in the order genre, year_from, year_to, title, actor |
| Query.UptoHasRank | src/db.c:253-291 | a rank below n has its condition exactly when the filter asks for it |
| Query.ConditionsOrdered | src/db.c:253-291 | the conditions of a filter are in rank order, carry the filter's values, and a rank is present exactly when the filter asks for it |
| Query.UptoFive | src/db.c:253-291 | the conditions are the five optional ones, one after the other |
| Query.QueryIgnoresDirectorAndPlot | src/db.c:246-306 | the director and plot fields of the filter do not change the query |
| Query.NoFilterQuery | src/db.c:246-306 | with no condition asked for the query is the bare SELECT and its ORDER BY, and a NULL filter gives ORDER BY title ASC |
| Query.NoFilterConditions | src/db.c:253-291 | a filter that asks for nothing gives no condition |
| Query.ClausesSnoc | src/db.c:262-291 | the first clause is introduced by WHERE and every later one by AND |
| Query.ClausesPrefix | src/db.c:262-291 | later clauses do not change the text of the earlier ones |
| Query.AppendOrder | src/db.c:293-306 | ORDER BY year, rating or added date by their names, by title COLLATE NOCASE for any other name, then ASC or DESC; a NULL filter or sort name gives title ASC |
| Query.AppendIf | src/db.c:262-291 | appending a clause when it is wanted adds it to the clauses with WHERE first, AND after, and keeps has_where in step |
| Query.AppendGenreAndYears | src/db.c:253-272 | after the genre join and the two year bounds the text holds exactly the clauses of the first three ranks |
| Query.AppendTitleAndActor | src/db.c:274-291 | the title and actor clauses complete the clauses of all five ranks |
| Query.BuildQuery | src/db.c:246-306 | the statement db_films_get_all prepares is the SELECT, the genre join when a genre is wanted, the wanted conditions in rank order and the ORDER BY part |
| Query.CondsStep | src/db.c:253-291 | one more rank adds its condition's text when wanted and nothing otherwise |
| Query.CondsUpto | src/db.c:253-291 | the conditions after k ranks, ending with all of them |
| Scan.Names | src/scanner.c:289 | the names a listing loop sees are the entries' names in listing order |
| Scan.ChildInjective | src/scanner.c:356 | two different entry names give two different full paths under one directory |
| Scan.ChildIsNotParent | src/scanner.c:356 | the full path of an entry is never the path of the folder that lists it |
| Scan.EpisodeFilesSnoc | src/scanner.c:289-294 | one more entry adds its full path to the season's episode files exactly when it is a visible video file |
| Scan.LaterEntryIsNew | src/scanner.c:289-294 | within one listing, the path of a later entry is not among the earlier entries' paths |
| Scan.EpisodeRecord | src/scanner.c:306-318 | a new episode records the season's id, the file's full path, the file name as its title and the number of its first [Ee]\d+ marker |
| Scan.AddEpisodes | src/scanner.c:286-333 | the listing loop only appends episode rows, one for each count, and counts at most one per entry |
| Scan.Missing | src/scanner.c:304-305 | at most one missing episode per entry |
| Scan.AddEpisodesCovers | src/scanner.c:286-333 | after the loop every episode file of the folder has an episode row, and no earlier row is lost |
| Scan.AddEpisodesRows | src/scanner.c:305-324 | every row the loop adds belongs to this season and is on one of the folder's episode files |
| Scan.HasEpisodeOfExtension | src/scanner.c:304 | the rows added after a list do not change whether a path is found, when none of them is on it |
| Scan.ListingPrefix | src/scanner.c:289 | the entries read so far are still distinct names |
| Scan.AddEpisodesCount | src/scanner.c:322-324 | with distinct entry names, the count returned is exactly the number of episode files that had no row |
| Scan.AddEpisodesNothingNew | src/scanner.c:304-328 | when every episode file already has a row, the loop adds nothing and returns 0 |
| Scan.ScanSeasonAgainAddsNothing | src/scanner.c:286-333 | scanning a season folder a second time adds no episode, whatever season row the second scan uses |
| Scan.SeasonRecord | src/scanner.c:255-264 | a new season folder is entered with its path, the title "<show> - Season <n>", year 0, the TV-season type, season n, the current time and unmatched status |
| Scan.FoundByPath | src/db.c:227-244 | in a valid table a row is the one the lookup by its path finds |
| Scan.RepairRow | src/scanner.c:272-283 | rewriting the found row with only a new title, type and season changes the stored row's title and no other row; the table stays valid |
| Scan.EnsureSeasonRow | src/scanner.c:253-283 | a new folder is inserted with the season record, giving up when the insert fails; a known folder is repaired when it does not read back as this season, with a missing title filled in; no row on another path changes |
| Scan.RemoveByPath | src/scanner.c:297-301 | deleting by the id of the row found on a path removes exactly the rows on that path |
| Scan.DropFilmOnPath | src/scanner.c:297-301 | the film row on an episode file's path is deleted and its genre, actor and director links cascade away; a failing database changes nothing |
| Scan.AddEpisodeRow | src/scanner.c:304-328 | a new episode row is inserted unless the path already has one, and the count says whether it was |
| Scan.TablesOf | src/db.c:11-67 | the tables the scanner writes, read together |
| Scan.ScanSeasonEntry | src/scanner.c:290-330 | one pass of the listing loop removes the film row on the file's path with its links and takes the episode step; a failing database changes nothing |
| Scan.LinksCompose | src/db.c:174-187 | two cascades in a row drop the link rows of both sets of ids |
| Scan.CastCompose | src/db.c:174-187 | the same for the cast links |
| Scan.RemovedStep | src/scanner.c:297-301 | the rows on the next entry's path are still the original ones, so removing them now removes the original rows' ids |
| Scan.EntryFilesStep | src/scanner.c:289-294 | the episode files of one more entry are a path that is new and never the folder's own |
| Scan.ClearedStep | src/scanner.c:297-301 | clearing one set of files and then another clears both |
| Scan.AddEpisodesSnoc | src/scanner.c:304-324 | the loop over one more entry takes one more episode step |
| Scan.StepKeepsSeason | src/scanner.c:297-301 | a pass of the loop never removes the season row, whose path is not an entry's |
| Scan.EpisodesStep | src/scanner.c:304-324 | the episode rows and the count after one more pass |
| Scan.PassedStep | src/scanner.c:289-331 | one pass of the loop advances the loop's invariant by its entry |
| Scan.PassedStart | src/scanner.c:286-288 | before the loop nothing is cleared and nothing added |
| Scan.PassEntry | src/scanner.c:289-331 | one pass of the listing loop keeps the invariant of the loop |
| Scan.EpisodePass | src/scanner.c:286-333 | the listing loop leaves the season row in place, the episode rows AddEpisodes gives, and every visited episode file without its film row |
| Scan.SeasonCovered | src/scanner.c:286-333 | after the loop every episode file is an episode of the table and no film row |
| Scan.ClearedFromSeason | src/scanner.c:253-333 | rewriting only the folder's own row before the loop does not change what the loop clears |
| Scan.ScanTvSeason | src/scanner.c:249-337 | the season row is found or created, nothing happening when that fails; then every visible video file loses any film row on its path and gets an episode row of this season unless it has one; the count is the number added |
| Scan.GrowsRefl | src/scanner.c:339-468 | leaving the tables alone is a growth of them |
| Scan.GrowsTrans | src/scanner.c:339-468 | two growths in a row are one growth |
| Scan.CoveredGrows | src/scanner.c:339-468 | coverage of a listing, episode rows included, survives every later change the scanner makes |
| Scan.EntryCoveredGrows | src/scanner.c:339-468 | the same for one entry |
| Scan.ListingCoveredGrows | src/scanner.c:351-464 | the same for the entries of one listing and the season folder it may be |
| Scan.HeldGrows | src/scanner.c:304-328 | episode rows, once written, stay through every later change the scanner makes |
| Scan.FileSeenFrom | src/scanner.c:384-404 | once an SxxEyy video file of the listing has been visited, it counts as seen at every later point of the listing loop |
| Scan.SeasonGrows | src/scanner.c:249-337 | scan_tv_season loses no tracked path: the episode files it clears get episode rows |
| Scan.AppendGrows | src/scanner.c:455-458 | appending a film row keeps every tracked path and tracks the new one |
| Scan.SeasonScan | src/scanner.c:249-337 | as the recursive scan uses it, scan_tv_season only grows the tables and, with a working database, gives every episode file of the folder an episode row; when they all have one already it counts 0; every row it writes is on the folder or one of its episode files |
| Scan.SeasonWrites | src/scanner.c:289-331 | scan_tv_season writes only the season row on the folder and episode rows on its episode files |
| Scan.ShowFor | src/scanner.c:405-423 | inside a folder named as a season, the show name is the one derived from the given parent name whenever that is not empty |
| Scan.AsWrittenShowIgnoresShowFolder | src/scanner.c:406-409 | as written, the files of a season folder get the same show name whatever folder holds it |
| Scan.SeasonFolderOwnName | src/scanner.c:407-409 | as written, the name is derived from the season folder's own name |
| Scan.AsWrittenLostIsHeroes | src/scanner.c:406-409 | the episode files of /tv/Lost/Season 1 and /tv/Heroes/Season 1 are given one and the same show name |
| Scan.SeasonOneIsSeason | src/scanner.c:75-84 | "Season 1" is read as a season directory |
| Scan.SeasonFileShowFromShowFolder | src/scanner.c:405-411 | as the code beside it on lines 361-364 does, the corrected name comes from the folder holding the season folder, whenever that derivation is not empty |
| Scan.FilmRecord | src/scanner.c:441-453 | the film record of a video file is on its full path |
| Scan.AddFilmFile | src/scanner.c:435-458 | an untracked path is inserted as the film record under the next rowid and counted; a tracked path, or a failed insert, leaves the films alone and counts 0; the only row it writes is on the file's path |
| Scan.InferredSeason | src/scanner.c:395-404 | a file's folder is a single-season folder exactly when its name announces a season or its SxxEyy files agree on one, and a positive inferred season replaces the file's own |
| Scan.EntryInFiles | src/scanner.c:384 | a visible video file of a listing is one of its episode files |
| Scan.SeasonFileScan | src/scanner.c:393-430 | an SxxEyy file is handled exactly when its folder is a single-season folder, and then the whole folder is scanned as that season: the tables only grow, every episode file gets its row, nothing is counted when they all had one, and rows are written only on the folder and its episode files |
| Scan.ScanVideoFile | src/scanner.c:384-461 | a video file ends up tracked, as an episode or as a film, and the tables only grow; it counts 0 when it was tracked already and, if it is an SxxEyy file of a season folder, that folder's episodes all had rows; rows are written only on the folder and its episode files |
| Scan.SeasonEntryCovered | src/scanner.c:358-379 | a season folder is covered once all its episode files have episode rows |
| Scan.PlainEntryCovered | src/scanner.c:380-383 | any other folder is covered once its own listing is covered one level deeper |
| Scan.SeasonSubdirectory | src/scanner.c:358-379 | a sub-folder named as a season or holding agreeing SxxEyy files is scanned as a season; then all its episode files have rows, nothing is counted when they had them before, and rows are written only on that folder and its episode files |
| Scan.ScanSubdirectory | src/scanner.c:358-383 | a visible sub-folder is scanned as a season or searched one level deeper, ends up covered, counts 0 when it was covered before, and writes rows only within its reach |
| Scan.ScanEntry | src/scanner.c:351-463 | one entry of a listing: a hidden name changes nothing and counts 0; folders and video files are scanned and end up covered; an entry of a covered listing counts 0; rows are written only within the entry's reach, which is empty for hidden entries and other files |
| Scan.CoveredUpToStep | src/scanner.c:351-464 | covering one more entry keeps the earlier entries covered, since the tables only grew |
| Scan.DirectoryStep | src/scanner.c:351-464 | one pass of the listing loop covers one more entry, keeps a season folder's episode rows once an SxxEyy file has been visited, keeps the tables growing, adds 0 over a covered listing, and extends the paths written by that entry's reach only |
| Scan.ScanDirectory | src/scanner.c:339-468 | nothing happens below the depth cap of 10; otherwise the tables only grow, the tree within the cap ends up covered (every visible video file tracked, every season folder's episode files with rows), a tree covered before the scan adds 0, and every new film or episode row is on a path of the tree's reach: visible video files within the cap, their folders as seasons, and season folders' episode files |
| Scan.ScanLibrary | src/scanner.c:470-473 | the scan of a library folder from depth 0 covers the tree within ten levels, loses nothing already tracked, adds 0 when the tree was covered before, and writes rows only within the tree's reach |
| Scan.WritesTrans | src/scanner.c:351-464 | the paths written by two scans one after the other are those of the first and those of the second |
| Scan.WritesWider | src/scanner.c:351-464 | writes within some paths are writes within any larger set of paths |
| Scan.ScanTwice | src/scanner.c:470-473 | scanning the same tree twice with a working database: the second scan adds nothing |
| Scraper.CurlBuffer.Content | src/scraper.c:26-29 | the bytes received so far are the first size bytes of the buffer |
| Scraper.CurlBuffer.constructor | src/scraper.c:26-29 | a new buffer holds nothing |
| Scraper.CurlBuffer.Write | src/scraper.c:31-42 | a chunk of size times nmemb bytes is appended to the content, the size grows by that much, a 0 byte follows the content, and the chunk length is returned |
| Scraper.StringOf | src/scraper.c:215-218 | a key that is absent gives no string, a present one gives its value, which may be JSON null |
| Scraper.IntOf | src/scraper.c:151-153 | a present key gives its integer and an absent one leaves 0 |
| Scraper.ReleaseYear | src/scraper.c:220-225 | a date "YYYY-MM-DD", or "YYYY" alone, gives the year YYYY |
| Scraper.LongPrint | src/scraper.c:159 | a year of at least 1000 is written with at least four digits, so it passes the length test |
| Scraper.ShortDateKeepsYear | src/scraper.c:220-225 | a date shorter than four characters, a JSON null or an absent key keeps the year as it was |
| Scraper.ResultOf | src/scraper.c:148-176 | a search result starts zeroed: an absent id, title or vote average leaves it 0, NULL or 0.0 |
| Scraper.SearchResults | src/scraper.c:99-182 | without an API key, or with an empty one, the search returns nothing; otherwise it returns result i for item i of the reply, for the first ten items, in order |
| Scraper.YearPart | src/scraper.c:112-119 | the "&year=N" part is present exactly for a positive year |
| Scraper.SearchUrlYear | src/scraper.c:112-119 | the search URL ends in "&year=N" for a positive year, and in the escaped query otherwise |
| Scraper.SearchTmdb | src/scraper.c:99-182 | the results are those SearchResults defines, and a URL is requested exactly when the key is usable |
| Scraper.PosterFileInCache | src/scraper.c:338-350 | the downloaded poster of a TMDB id is "<id>.jpg" directly inside the poster cache |
| Scraper.NewPoster | src/scraper.c:249-256 | the poster path changes only when the reply names a poster and its download succeeded |
| Scraper.ApplyDetails | src/scraper.c:212-256 | the record keeps its id, path, added date, type and season, and gets the TMDB id and the automatic status |
| Scraper.EmptyDetailsKeep | src/scraper.c:212-256 | a reply without any of the fields changes only the TMDB id and the status |
| Scraper.DetailsFieldByField | src/scraper.c:215-256 | each of title, overview, IMDb id, runtime and vote average is taken from the reply when its key is there and kept otherwise; an absent date keeps the year and a poster not downloaded keeps the poster path |
| Scraper.ApplyDetailsIdempotent | src/scraper.c:212-256 | applying the same reply twice gives the record that applying it once gives |
| Scraper.CastCount | src/scraper.c:280 | the cast loop reads the first ten entries, or all when there are fewer |
| Scraper.GetOrCreateFinds | src/db.c:377-405 | with working writes, finding or creating a name gives a positive id of a row with that name, and earlier rows stay |
| Scraper.LinkedGrows | src/scraper.c:261-328 | a film's link to a name survives later additions |
| Scraper.GenresAllLinked | src/scraper.c:261-271 | with working writes, after the genre loop every genre of the reply with a "name" key is linked to the film |
| Scraper.DirectorsAllLinked | src/scraper.c:303-328 | with working writes, after the crew loop every crew entry whose job is "Director" and whose name is not NULL is linked to the film as a director |
| Scraper.DirectorsOnly | src/scraper.c:303-328 | every director link the crew loop adds is for this film and names a crew entry whose job is "Director" |
| Scraper.CastOrders | src/scraper.c:276-301 | every cast row the cast loop writes is for this film, with cast order i below the number of entries read and the role of entry i |
| Scraper.AddGenres | src/scraper.c:261-271 | the genre loop leaves the genre table and links that GenresAfter defines |
| Scraper.AddCast | src/scraper.c:276-301 | the cast loop leaves the actor table and cast rows that CastAfter defines for the first ten entries |
| Scraper.AddDirectors | src/scraper.c:303-328 | the crew loop leaves the director table and links that DirectorsAfter defines |
| Scraper.AddLinks | src/scraper.c:261-329 | the three loops leave the genre, cast and director tables that their own definitions give |
| Scraper.UpdateKeepsFilm | src/scraper.c:259 | the film still exists after its update |
| Scraper.FetchAndUpdate | src/scraper.c:184-336 | without a key, without a reply or for an unknown film the result is FALSE and nothing changes; otherwise the reply is applied to the film's row and its genres, cast and directors are added, and the result is TRUE whether or not the update wrote |
| Scraper.KnownYearNeedsSameYear | src/scraper.c:389-395 | a film with a year is matched exactly when the top result has that year |
| Scraper.UnknownYear | src/scraper.c:389-395 | a film without a year takes a lone result whatever its year; with several results it takes the top one only when that has no year either |
| Scraper.Attempt | src/scraper.c:375-402 | a film makes at most one fetch, only when it has a title, and for its own id |
| Scraper.Attempts | src/scraper.c:374-406 | the fetch of each film of the pass, film by film |
| Scraper.ConcatLength | src/scraper.c:374-406 | steps of at most one fetch each give at most one fetch per step |
| Scraper.ConcatPrefix | src/scraper.c:374-406 | the fetches of fewer steps are a prefix of those of more |
| Scraper.ConcatEmpty | src/scraper.c:374-406 | steps with no fetch give no fetch |
| Scraper.PlanLength | src/scraper.c:374-406 | the pass makes at most one fetch per film it visits |
| Scraper.PlanPrefix | src/scraper.c:374 | a pass stopped earlier made a prefix of the fetches of a pass stopped later |
| Scraper.PrefixExtends | src/scraper.c:374-406 | a prefix stays a prefix when more is appended |
| Scraper.PlanWithoutKey | src/scraper.c:99-103 | without a usable key the pass fetches nothing |
| Scraper.ScraperContext.constructor | src/scraper.c:422-424 | a new pass starts with running set |
| Scraper.AutoMatch | src/scraper.c:368-412 | the pass over the unmatched films, in file-path order, stopping once running is cleared, makes exactly the fetches the plan gives for the films it visited |
| Scraper.VisitFilm | src/scraper.c:375-405 | one film of the pass makes the fetch Attempt gives |
| Scraper.ScraperControl.constructor | src/scraper.c:414 | no pass is active at start |
| Scraper.ScraperControl.StartBackground | src/scraper.c:416-428 | while the active pass runs nothing happens; otherwise a new running pass becomes the active one |
| Scraper.ScraperControl.Stop | src/scraper.c:430-435 | the active pass, if any, has its running flag cleared |
| Match.ResetShowName | src/match.c:419-428 | the show name of a reset TV season is never empty: the normalised name of the folder holding the file, or "Unknown Show" when that normalises to nothing |
| Match.ResetSeason | src/match.c:430-434 | a negative season number becomes 1, and 0 or a positive number stays |
| Match.ResetSeasonIdempotent | src/match.c:433-434 | coercing the season number twice is coercing it once |
| Match.ResetTvTitle | src/match.c:430-437 | season 0 gives "<show> - Specials"; any other season gives "<show> - Season N" with the coerced number |
| Match.ResetFilmTitle | src/match.c:440-451 | a film gets the title and year parsed from its file name when the title is not empty, and otherwise the normalised file name with year 0 |
| Match.ResetFields | src/match.c:401-453 | the reset keeps id, path, added date and type; it clears status, TMDB id, IMDb id, rating, runtime, plot and poster; a TV season gets year 0 and the coerced season number, a film keeps its season number; the title is always set |
| Match.ResetDependsOnlyOnIdentity | src/match.c:401-453 | the reset depends only on the path, the type and the season number |
| Match.ResetTvTitleSeason | src/match.c:430-437 | the title does not change when the season number is coerced again |
| Match.ResetIdempotent | src/match.c:389-457 | resetting twice is resetting once |
| Match.ResetUndoesMatch | src/match.c:401-453 | resetting a film the scraper matched gives what resetting it before the match gave |
| Match.ResetRestoresScannedFilm | src/match.c:439-453 | a film the scanner entered, with a parsed title, reads back unchanged after a reset |
| Match.ResetRestoresScannedSeason | src/match.c:418-438 | a season the scanner entered reads back unchanged after a reset |
| Match.ResetRowTwice | src/match.c:389-457 | resetting a stored row twice gives the table that resetting it once gives |
| Match.StoredRowReset | src/match.c:455 | a stored row is a film of season 0, so writing its reset back stores the reset itself |
| Match.TvTitle | src/match.c:418-438 | the steps of the TV branch give ResetTvTitle and the coerced season |
| Match.FilmTitle | src/match.c:439-453 | the steps of the film branch give ResetFilmTitle |
| Match.ResetRecord | src/match.c:401-453 | the in-place edits give ResetFields |
| Match.ResetFilmToUnmatched | src/match.c:389-457 | an unknown id changes nothing; a known film has its links cleared, genres marked dirty and its reset written back |
| Match.AsMatched | src/match.c:100-117 | matching as TV sets the TV-season type with a season of at least 1, keeping a positive one; matching as a film sets the film type; nothing else changes |
| Match.ConversionNotStored | src/match.c:100-117 | the update does not write type or season, so the conversion of apply_match_thread leaves the table as it was |
| Match.WriteConversion | src/match.c:100-117 | the conversion step leaves the films table as it was |
| Match.FetchForMatch | src/match.c:119 | the fetch succeeds exactly when there is a key, a reply and the film; then the films table is the UPDATE of the applied reply, every other row kept, and the genre, cast and director tables are those the three loops of scraper_fetch_and_update give; on failure nothing changes |
| Match.MarkManual | src/match.c:122-129 | the film read back is written with status MANUAL, every other row kept; an absent film or a failing database leaves the table as it was |
| Match.FetchAndMark | src/match.c:119-129 | the fetch, then MANUAL only on success: the table is one UPDATE with the applied reply marked MANUAL, and the link tables are the fetch's |
| Match.MarkTables | src/match.c:119-129 | the fetch's UPDATE followed by the MANUAL UPDATE of the row read back is one UPDATE with the marked record |
| Match.MarkAfterUpdate | src/match.c:122-129 | marking the row read back after an update is updating with the record already marked |
| Match.ApplyMatch | src/match.c:84-135 | the apply succeeds exactly when the database opens and the fetch succeeds; then the film holds the reply's details with status MANUAL, every other row is kept, and the genre, cast and director tables are those of the fetch; on failure nothing changes |
| Window.NextGen | src/window.c:600 | films_refresh_gen++ on an unsigned 32-bit counter gives a different generation: one more, or 0 after the largest value |
| Window.GenAfter | src/window.c:600 | n refreshes in a row give a generation in the counter's range |
| Window.GenAfterAdd | src/window.c:600 | a refreshes and then b more move the generation as a + b refreshes do |
| Window.GenAfterWraps | src/window.c:600 | n refreshes move the generation on by n modulo 2^32 |
| Window.PageIsRun | src/window.c:619-631 | a page is at most its size and continues the listing from its offset; a short page reaches the listing's end |
| Window.FirstPageAgrees | src/window.c:619-631 | the first page is the start of the listing, and all of it when it is empty or shorter than 80 |
| Window.NextPageAgrees | src/window.c:204-228 | a page delivered at the current offset keeps the list the start of the listing: an empty page means the list was already all of it, a short page makes it all of it |
| Window.NextPageProgress | src/window.c:649-666 | while the list is shorter than the listing, the next page is not empty |
| Window.LoadThread | src/window.c:247-288 | an opened database posts the total and unmatched counts when asked for them and a page of at most the requested size when the size is positive; a database that does not open posts neither |
| Window.NextRequestDelivers | src/window.c:247-288 | a page request at the list's length delivers the next page of the listing and no counts; the counts-only request delivers no page |
| Window.RequestNextPage | src/window.c:649-666 | nothing happens while loading or after the end; otherwise loading is set and a request for 250 rows from the next offset, with the current generation and a copy of the filter, is issued |
| Window.MaybeRequestNextPage | src/window.c:668-688 | the same request, issued only when the grid is near its bottom |
| Window.StartGeneration | src/window.c:597-617 | the generation moves on, loading and end are cleared, the list and the grid are emptied (no shown poster left) and the loaded count is 0 |
| Window.LoadFirstPage | src/window.c:619-631 | the first 80 rows become the list and go to the grid; the offset is their number, and the end is reached when the page is empty or shorter than 80 |
| Window.RefreshFilms | src/window.c:597-647 | a refresh starts a new generation with the first page of the listing, issues one counts-only request for that generation, and then asks for the next page when the grid is near its bottom |
| Window.FilmsPageIdle | src/window.c:204-228 | a page of an earlier generation changes nothing; an empty page sets the end; otherwise the rows are appended to the list and the grid, the offset stays the list's length, and a page shorter than 250 sets the end; the list keeps agreeing with the listing |
| Window.FilmsCountsIdle | src/window.c:191-202 | the totals of the current generation are shown and those of an earlier one are dropped |
| Window.FilmsDoneIdle | src/window.c:230-245 | loading is cleared only by the end of a page request of the current generation, and the filter bar is refreshed once when genres are dirty |
| Window.RefreshMakesStale | src/window.c:191-210 | after a refresh the generation of any earlier request differs from the current one, so its deliveries are dropped |
| Window.WindowRefreshFilm | src/window.c:706-736 | an unknown id changes nothing; otherwise the first list element with the id is replaced by the stored row, a row not in the list is dropped, and dirty genres refresh the filter bar; when replaced, the first shown poster of the id is destroyed (uncounted if loaded) and a new unloaded poster shows the stored row in its place, and the grid's bookkeeping stays valid |
| Window.RefreshFilmKeepsOthers | src/window.c:714-723 | the replacement keeps the list's length and every element with another id, and puts the row where the id was first found |
| Window.SameLeadFind | src/window.c:714-723 | the id is still first found at the same place after the replacement |
| Grid.LoadedAfterAdd | src/grid.c:262-303 | a new widget starts without the loaded flag, so the set of loaded widgets stays the same |
| Grid.AddPoster | src/grid.c:262-303 | creating a poster widget registers a new unloaded widget and leaves the loaded count as it was |
| Grid.PosterAreaDestroy | src/grid.c:51-58 | destroying a widget removes it and lowers grid_posters_loaded by one exactly when it carried the loaded flag, so the count still equals the number of loaded live widgets |
| Grid.PosterApplyIdle | src/grid.c:161-185 | a delivered poster on a live widget sets its loaded flag; the count rises only on the widget's first successful apply, and a missing image or a destroyed widget changes nothing |
| Grid.Clear | src/grid.c:421-436 | grid_clear cancels the idle source, empties the pending queue and destroys every widget, which brings the loaded count to 0 and leaves no shown poster |
| Grid.Chunk | src/grid.c:441-450 | one run takes at most 40 films, and all that are left when fewer remain |
| Grid.AppendIdle | src/grid.c:438-468 | one run moves the first min(40, pending) films, in order, from the pending queue to the grid, each in a new widget numbered in order; it stops and clears the source exactly when the queue becomes empty, and every shown film keeps its own live widget |
| Grid.Numbers | src/grid.c:443-455 | the widgets of one run are numbered consecutively from the next free number |
| Grid.UpdateFilm | src/grid.c:480-503 | the first shown poster with the film's id is found; its widget is destroyed, lowering the loaded count exactly when it was loaded, and a new unloaded widget for the updated film takes its place; a film not shown changes nothing; the grid's bookkeeping stays valid |
| Grid.AppendFilms | src/grid.c:470-478 | films are added to the end of the queue, and an idle source is scheduled when none was and the list is not empty |
| Grid.ThumbPathFor | src/grid.c:151-159 | a poster path has a thumbnail path exactly when it is non-NULL and contains '.': the part before the last '.', "_thumb", then the rest |
| Grid.ThumbRoundTrip | src/grid.c:151-159 | taking "_thumb" out of a thumbnail path gives back the poster path |
| Grid.ThumbOfJpeg | src/grid.c:151-159 | the thumbnail of a ".jpg" poster ends in "_thumb.jpg", so the worker never makes a thumbnail of a thumbnail |
| Grid.NeedsThumbIff | src/grid.c:200-219 | a thumbnail is made exactly when the path does not end in "_thumb.jpg", has a thumbnail path, and that thumbnail is missing or older than the poster |
| Grid.SavedThumbIsKept | src/grid.c:187-219 | once a thumbnail no older than its poster is written, it is not regenerated |
| Grid.ThumbIsOtherFile | src/grid.c:151-159 | the thumbnail path is never the poster's own path |
| Grid.TmpTemplateFor | src/grid.c:60-69 | there is a template exactly when there is a destination |
| Grid.TmpInDestDir | src/grid.c:60-69 | the template and the temp file lie in the destination's directory, and the temp file is named ".reelvault_tmp_" and the six characters mkstemp chose |
| Grid.SaveJpegAtomic | src/grid.c:71-102 | the destination is written exactly when there is an image and a destination, mkstemp finds a free name, and the save and the rename succeed; otherwise the file system is as before, the temp file unlinked |
| Grid.PosterLoadWorker | src/grid.c:187-244 | the thumbnail is written exactly when one is needed and the scaled image is saved and renamed; the poster is shown from the thumbnail when one exists afterwards and the path is not itself a thumbnail, from the path otherwise |
| Filter.DecadeRange | src/filter.c:196-221 | a year-combo id selects no bound, everything up to 1979, or a decade of ten years starting at a multiple of ten between 1980 and 2020 |
| Filter.DecadeRangeNamesDecade | src/filter.c:202-217 | each decade id selects the ten years from the number it starts with: 2020s gives 2020-2029 and so on down to 1980s |
| Filter.DecadeIdReads | src/filter.c:202-217 | a decade id's range starts at the four-digit number before its "s" |
| Filter.DecadeRangeOthers | src/filter.c:199-221 | "older" ends the year before the 1980s start; any other id and no id leave both bounds 0 |
| Filter.DecadeIdAtoi | src/filter.c:202-217 | the number a decade id starts with is its four digits |
| Filter.GenreOf | src/filter.c:185-194 | the genre filter is the combo's text unless that is missing, empty or "All Genres", when it is NULL |
| Filter.SearchOf | src/filter.c:223-229 | the search filter is NULL for an empty entry and the entry's text otherwise |
| Filter.SortOf | src/filter.c:231-234 | the sort column is the active sort id, and "title" when none is active |
| Filter.FromControls | src/filter.c:174-235 | the update keeps actor, director, plot text and sort direction, and always sets a sort column |
| Filter.FromControlsIdempotent | src/filter.c:174-235 | reading the same controls twice is reading them once, and the result does not depend on the genre, years, search text or sort column read before |
| Filter.ReadYears | src/filter.c:196-221 | the bounds the if-chain sets are those DecadeRange gives |
| Filter.UpdateFilterState | src/filter.c:174-235 | without the bar's widgets the filter stays; otherwise it becomes the one the controls give |
| Filter.Toggled | src/filter.c:254 | a click flips the sort direction and changes nothing else |
| Filter.ToggleTwice | src/filter.c:251-254 | two clicks restore the filter |
| Filter.SortOrderClicked | src/filter.c:251-267 | the sort direction is flipped and the films are refreshed under the new filter |
| Filter.FilterChanged | src/filter.c:237-249 | the filter is read from the controls and the films are refreshed under it |
| Filter.ResetBar | src/filter.c:162-165 | after the reset every combo box is at index 0 showing its first entry and the search is empty |
| Filter.Moves | src/filter.c:162-165 | the reset emits at most four signals, and none exactly when every combo box is at index 0 and the search is empty |
| Filter.Emit | src/filter.c:237-249 | a control the reset changes runs its handler: the filter is read from the controls and the list refreshed once; a control that stays put changes nothing |
| Filter.ResetControls | src/filter.c:162-165 | resetting the four controls in order leaves the bar reset and refreshes the list once per signal emitted |
| Filter.Reset | src/filter.c:152-172 | without the bar's widgets nothing changes and nothing is requested; otherwise the bar ends up reset, the list is refreshed once per signal the reset emits and then once more, the filter is the initial one, the films are the first page under it and the last counts request is for the final generation |
| Filter.ResetMatchesControls | src/filter.c:162-172 | the reset bar's controls, read back, give the initial filter again |

## Left out

- Threads, `g_idle_add`, the thread pool and its task queue: every background result is an event handed to the method that handles it on the owning thread.
- The read of `films_refresh_gen` from the loader thread (src/window.c:268) is a race: the model's loader thread always honours the page request.
- GTK widgets, drawing, dialogs, themes and the status bar: the filter bar's widgets are a `Filter.Bar` value (what `update_filter_state` reads, and each combo box's active index), and the scroll position test of `maybe_request_next_page` is a `nearBottom` flag because its arithmetic is floating point.
- `create_poster_widget`'s layout and drawing, and the image-load task it queues: a new widget is a number in `posters` without the loaded flag (`Grid.AddPoster`). Its later result is `Grid.PosterApplyIdle`.
- GTK's own signal rules are taken as given. `gtk_combo_box_set_active` emits "changed" only when the active index moves. A search entry emits "search-changed" at once when its text becomes empty (`Filter.Moves`).
- Classify: the regular expressions' `\d`, `\s` and `\w` are read as ASCII classes. GLib may also match non-ASCII digits, spaces and letters there; the model does not cover them.
- The network, curl and json-c: a search or detail reply is an abstract record (absent keys, JSON null), a failed request or parse is `None`, and a poster download is a success flag.
- The escaping of the search query (`curl_easy_escape`) is a parameter.
- The 250 ms pause between searches is left out: it is timing only.
- The SQLite engine: the tables are sequences, sets and maps, and a failing statement is the `writable` flag of `Store.Catalogue`.
- Opening a database (`db_init`, `sqlite3_open`, `db_open_readonly`) is not modelled: a thread's own connection is a `connected` flag (`Match.ApplyMatch`, `Window.LoadThread`), and `Store.Catalogue.constructor` is a new, empty database.
- Statement preparation errors that are not writes are left out. So are the read-only connection of the loader thread and `db_films_get_page_db`, which are not part of this model: the rows a page query returns are the `listing` parameter.
- The filter's SQL text is built, but not run: what rows the statement selects is left to the `listing` parameter.
- The string interpolation of the filter values into the SQL (no quoting) is modelled as plain concatenation.
- `db_episode_insert`, `db_episode_get_by_path`, `db_is_file_tracked` and `db_film_clear_associations` are absent from the db.c this model reads: their meaning is inferred from their callers. An episode path is unique, a tracked path is a path of a film row, an episode row or an attached file, and clearing drops the film's link rows.
- The episodes and film_files tables are not in the schema shown, so their cascade on a film delete is not modelled.
- Directory listings are given in some order as parameters, and file tests, modification times, the environment and the clock (`now`) are parameters.
- Image decoding, scaling and JPEG encoding: an image is a value, and the save and the rename are success flags.
- Floating point: ratings and vote averages are `real` values that are copied, never computed with.
- C integer widths: `atoi` is the value of the leading digits without overflow, and `guint` wrap-around is modelled only for the refresh counter.
- Memory management (`g_free`, reference counts) and the leak of `plot_text` in `filter_state_free_members`. This includes one aliasing effect: `grid_append_films` queues a shallow copy of the film list (src/grid.c:474), and `window_refresh_film` frees the old record in place (src/window.c:718-719). A film still waiting in `grid_pending` is then a dangling pointer, where the model's queue keeps the old record as a value.
- A NULL `app`, widget or directory argument where the source returns early for it is not a separate case, except where the model's value can be NULL (`Option`).
- The INI syntax of GLib's key files: a key file is a map from key to value.
- `config.h` and `app.h` ship the legacy directory name equal to the new one, so the legacy branch of `reel_app_init_paths` picks the same folder (`App.LegacyIsNew`). The choice rule is proved for any two distinct names.
- The lifetime of `ScraperContext`: it is freed while `active_scraper` still points to it (src/scraper.c:409). The model keeps the object after its pass ends, with its flag as the pass left it. The pass's own check of the flag is the `stopAt` parameter of `Scraper.AutoMatch`: the index of the first check that finds the flag cleared.
- Scraper.AutoMatch: states the fetches the pass makes, film by film, and that the catalogue stays valid, but not the catalogue after several updates in a row. Each single fetch is stated fully by `Scraper.FetchAndUpdate`.
- Filter.SortOrderClicked: states the new filter, the generation, the first page and the counts request. The rest of the refresh is stated by `Window.RefreshFilms`. The same holds for `Filter.FilterChanged` and `Filter.Emit`. `Filter.Reset` states the number of refreshes and the final state, but not the requests of the intermediate refreshes its signals cause.
- Scan.ScanDirectory: states that the tables only grow, that every visible video file within the depth cap ends up tracked, that rows are written only on paths in `Scan.Reach`, and that nothing changes below the cap or with a failing database. It does not state the exact number returned; neither does Scan.ScanLibrary, the depth-0 call of src/scanner.c:470-473, which returns that same number.
- Scan.SeasonFileScan: uses the corrected show name `Scan.SeasonFileShow` (see "## Findings"), not the name src/scanner.c:405-411 computes (`Scan.SeasonFileShowAsWritten`). This matters only when a library folder is itself season-named, since scan_directory_recursive sends nested season folders to scan_tv_season (src/scanner.c:361-378) and recurses only into folders that are not seasons; for an SxxEyy file in such a library folder, the season row gets the name of the folder holding it, where the code uses the season folder's own.

## Findings

| source | as written | input that shows it | evidently intended | confidence | as-written member | corrected member |
|---|---|---|---|---|---|---|
| src/scanner.c:405-411 | for an SxxEyy file inside a folder named like a season, the show name is derived from the basename of the dirname of the file's full path, which is the season folder itself | adding /tv/Lost/Season 1 and /tv/Heroes/Season 1 as library folders: Lost.S01E01.mkv and Heroes.S01E01.mkv are filed under the same show name. Only a library folder that is itself a season folder reaches this branch; a season folder found inside a scanned folder goes to scan_tv_season at line 367 with its parent's name, and line 382 recurses only into folders that are neither named nor detected as seasons | the name of the folder that holds the season folder, as the directory branch at lines 361-364 derives it | not executed | Scan.SeasonFileShowAsWritten, with Scan.AsWrittenLostIsHeroes and Scan.AsWrittenShowIgnoresShowFolder | Scan.SeasonFileShow, with Scan.SeasonFileShowFromShowFolder |

