/** The library inventory: `ScrapeRadarrMovies` and `ScrapeSonarrShows`
    rebuild the `DownloadedMovies` and `DownloadedShows` tables from Radarr's
    and Sonarr's full libraries. This module builds the rows; the store
    replaces the tables with them. */
module Inventory {
  import opened Wrappers
  import opened Text

  /** Sonarr's statistics for one season. */
  datatype SeasonStatistics = SeasonStatistics(episodeFileCount: int, episodeCount: int, totalEpisodeCount: int, sizeOnDisk: int)

  /** A season of a series; `statistics` is `None` when Sonarr sends none. */
  datatype SonarrSeason = SonarrSeason(seasonNumber: int, monitored: bool, statistics: Option<SeasonStatistics>)

  /** Sonarr's statistics for a whole series. */
  datatype SeriesStatistics = SeriesStatistics(sizeOnDisk: int)

  /** One series of Sonarr's library: `firstAired` (an instant) and
      `statistics` may be absent, and `seasons` is `None` when the list is
      null. */
  datatype SonarrShow = SonarrShow(
    title: string,
    imdbId: Option<string>,
    tvdbId: int,
    monitored: bool,
    firstAired: Option<int>,
    statistics: Option<SeriesStatistics>,
    seasons: Option<seq<SonarrSeason>>)

  /** One movie of Radarr's library. */
  datatype RadarrMovie = RadarrMovie(id: int, title: Option<string>, hasFile: bool, releaseYear: int, imdbId: Option<string>, tmdbId: int, monitored: bool, runtime: int, path: Option<string>)

  /** A `DownloadedMovies` row. */
  datatype DownloadedMovie = DownloadedMovie(id: int, title: string, hasFile: bool, releaseYear: int, imdbId: Option<string>, tmdbId: int, monitored: bool, runtime: int, physicalPath: string)

  /** A `DownloadedShows` row: a parent row (`kind` "show") or a season row
      (`kind` "season"). A season row leaves `releaseDate` at the column's
      default, written `None`. */
  datatype DownloadedShow = DownloadedShow(
    kind: string,
    title: string,
    hasFile: bool,
    amountOfSeasons: Option<int>,
    seasonNumber: Option<int>,
    episodesInSeason: Option<int>,
    episodesDownloaded: Option<int>,
    imdbId: Option<string>,
    tvdbId: int,
    monitored: bool,
    releaseDate: Option<int>)

  // ---------------------------------------------------------------------
  // Movies
  // ---------------------------------------------------------------------

  /** The row for one Radarr movie: a null title or path becomes "". */
  function MovieRow(m: RadarrMovie): DownloadedMovie {
    DownloadedMovie(m.id, m.title.GetOr(""), m.hasFile, m.releaseYear, m.imdbId, m.tmdbId, m.monitored, m.runtime, m.path.GetOr(""))
  }

  /** The rebuilt `DownloadedMovies` table: one row per library movie, in order. */
  function MovieRows(library: seq<RadarrMovie>): (rows: seq<DownloadedMovie>)
    ensures |rows| == |library|
    ensures forall k :: 0 <= k < |library| ==> rows[k] == MovieRow(library[k])
  {
    if library == [] then [] else MovieRows(library[..|library| - 1]) + [MovieRow(library[|library| - 1])]
  }

  /** Every library movie's TMDB id is in the rebuilt table, and nothing else. */
  lemma MovieRowsTmdbIds(library: seq<RadarrMovie>, tmdbId: int)
    ensures (exists k :: 0 <= k < |MovieRows(library)| && MovieRows(library)[k].tmdbId == tmdbId) <==>
      (exists m :: m in library && m.tmdbId == tmdbId)
  {
    if exists m :: m in library && m.tmdbId == tmdbId {
      var m :| m in library && m.tmdbId == tmdbId;
      var k :| 0 <= k < |library| && library[k] == m;
      assert MovieRows(library)[k].tmdbId == tmdbId;
    }
  }

  /** The loop of `ScrapeRadarrMovies` that prepares the new rows. */
  method BuildMovieRows(library: seq<RadarrMovie>) returns (rows: seq<DownloadedMovie>)
    ensures rows == MovieRows(library)
  {
    rows := [];
    for k := 0 to |library|
      invariant rows == MovieRows(library[..k])
    {
      assert library[..k + 1][..k] == library[..k];
      rows := rows + [MovieRow(library[k])];
    }
    assert library[..|library|] == library;
  }

  // ---------------------------------------------------------------------
  // Shows and seasons
  // ---------------------------------------------------------------------

  /** `AllShowsInSeasonDownloaded`: something on disk, more than one episode
      counted, and as many episode files as episodes in the season. A season
      with a single episode is never reported complete. */
  function AllShowsInSeasonDownloaded(st: SeasonStatistics): (done: bool)
    ensures done <==> st.sizeOnDisk != 0 && st.episodeCount > 1 && st.episodeFileCount == st.totalEpisodeCount
  {
    if st.sizeOnDisk == 0 then false
    else if st.episodeCount > 1 then st.episodeFileCount == st.totalEpisodeCount
    else false
  }

  /** Every numbered season carries its statistics; season 0 is never read. */
  predicate SeasonsReadable(seasons: seq<SonarrSeason>) {
    forall k :: 0 <= k < |seasons| && seasons[k].seasonNumber != 0 ==> seasons[k].statistics.Some?
  }

  /** What `ScrapeSonarrShows` reads of a series without checking it first:
      its first-aired date, its statistics and, when it lists seasons, the
      statistics of each numbered season. */
  predicate ShowReadable(show: SonarrShow) {
    show.firstAired.Some? && show.statistics.Some? &&
    (show.seasons.Some? ==> SeasonsReadable(show.seasons.value))
  }

  predicate LibraryReadable(library: seq<SonarrShow>) {
    forall k :: 0 <= k < |library| ==> ShowReadable(library[k])
  }

  /** The row for a numbered season of `show`. */
  function SeasonRow(show: SonarrShow, season: SonarrSeason): (row: DownloadedShow)
    requires season.statistics.Some?
    ensures row.kind == "season" && row.seasonNumber == Some(season.seasonNumber)
    ensures row.hasFile == AllShowsInSeasonDownloaded(season.statistics.value)
    ensures row.tvdbId == show.tvdbId
  {
    var st := season.statistics.value;
    DownloadedShow(
      "season",
      show.title + " S" + IntToString(season.seasonNumber),
      AllShowsInSeasonDownloaded(st),
      None,
      Some(season.seasonNumber),
      Some(st.totalEpisodeCount),
      Some(if st.sizeOnDisk > 0 then st.episodeFileCount else 0),
      show.imdbId,
      show.tvdbId,
      season.monitored,
      None)
  }

  /** The season rows of `show` for `seasons`, skipping season 0 (specials). */
  function SeasonRows(show: SonarrShow, seasons: seq<SonarrSeason>): (rows: seq<DownloadedShow>)
    requires SeasonsReadable(seasons)
    ensures |rows| <= |seasons|
    ensures forall k :: 0 <= k < |rows| ==> rows[k].kind == "season" && rows[k].tvdbId == show.tvdbId
  {
    if seasons == [] then []
    else
      var init := seasons[..|seasons| - 1];
      assert forall k :: 0 <= k < |init| ==> init[k] == seasons[k];
      var s := seasons[|seasons| - 1];
      if s.seasonNumber != 0 then SeasonRows(show, init) + [SeasonRow(show, s)] else SeasonRows(show, init)
  }

  function CountNumberedSeasons(seasons: seq<SonarrSeason>): nat {
    if seasons == [] then 0
    else CountNumberedSeasons(seasons[..|seasons| - 1]) + (if seasons[|seasons| - 1].seasonNumber != 0 then 1 else 0)
  }

  predicate AllHaveFiles(rows: seq<DownloadedShow>) {
    forall k :: 0 <= k < |rows| ==> rows[k].hasFile
  }

  /** The parent row of `show`, before its season rows: `HasFile` stays
      false without seasons, and otherwise says that no season row lacks
      its files. */
  function ParentRow(show: SonarrShow): DownloadedShow
    requires ShowReadable(show)
  {
    var base := DownloadedShow(
      "show", show.title, false,
      Some(if show.seasons.Some? then CountNumberedSeasons(show.seasons.value) else 0),
      None, None, None, show.imdbId, show.tvdbId, show.monitored, Some(show.firstAired.value));
    if show.seasons.None? || show.seasons.value == [] then base
    else base.(hasFile := AllHaveFiles(SeasonRows(show, show.seasons.value)))
  }

  /** The rows of one show: its parent row, then a row per numbered season. */
  function RowsOfShow(show: SonarrShow): seq<DownloadedShow>
    requires ShowReadable(show)
  {
    [ParentRow(show)] + (if show.seasons.None? then [] else SeasonRows(show, show.seasons.value))
  }

  /** The rows of a library whose every series can be read. */
  function ShowRows(library: seq<SonarrShow>): (rows: seq<DownloadedShow>)
    requires LibraryReadable(library)
    ensures |rows| >= |library|
  {
    if library == [] then []
    else
      var init := library[..|library| - 1];
      assert forall k :: 0 <= k < |init| ==> init[k] == library[k];
      ShowRows(init) + RowsOfShow(library[|library| - 1])
  }

  /** The rebuilt `DownloadedShows` table, or `None` when reading some series
      throws: a missing first-aired date or statistics, or a numbered season
      without statistics, ends the scrape before the table is touched. */
  function ScrapeShowRows(library: seq<SonarrShow>): (rows: Option<seq<DownloadedShow>>)
    ensures rows.Some? <==> forall k :: 0 <= k < |library| ==> ShowReadable(library[k])
  {
    if LibraryReadable(library) then Some(ShowRows(library)) else None
  }

  /** One series without a first-aired date makes the whole scrape fail. */
  lemma ScrapeFailsWithoutFirstAired(library: seq<SonarrShow>, k: nat)
    requires k < |library| && library[k].firstAired.None?
    ensures ScrapeShowRows(library).None?
  {
    assert !ShowReadable(library[k]);
  }

  /** A library of series with no seasons listed scrapes to one parent row
      per series, each without its files. */
  lemma {:induction false} ScrapeSeasonlessLibrary(library: seq<SonarrShow>)
    requires forall k :: 0 <= k < |library| ==>
      library[k].firstAired.Some? && library[k].statistics.Some? && library[k].seasons.None?
    ensures ScrapeShowRows(library).Some?
    ensures |ScrapeShowRows(library).value| == |library|
    ensures forall k :: 0 <= k < |library| ==>
      ScrapeShowRows(library).value[k].kind == "show" && !ScrapeShowRows(library).value[k].hasFile &&
      ScrapeShowRows(library).value[k].tvdbId == library[k].tvdbId
  {
    if library != [] {
      var init := library[..|library| - 1];
      ScrapeSeasonlessLibrary(init);
      assert ShowRows(library) == ShowRows(init) + [ParentRow(library[|library| - 1])];
    }
  }

  /** Season rows: one per numbered season, in order, each for a numbered
      season of the show and none for season 0. */
  lemma {:induction false} SeasonRowsSpec(show: SonarrShow, seasons: seq<SonarrSeason>)
    requires SeasonsReadable(seasons)
    ensures |SeasonRows(show, seasons)| == CountNumberedSeasons(seasons)
    ensures forall k :: 0 <= k < |SeasonRows(show, seasons)| ==>
      SeasonRows(show, seasons)[k].kind == "season" &&
      SeasonRows(show, seasons)[k].seasonNumber.Some? &&
      SeasonRows(show, seasons)[k].seasonNumber.value != 0
    ensures forall s :: s in seasons && s.seasonNumber != 0 ==> s.statistics.Some? && SeasonRow(show, s) in SeasonRows(show, seasons)
    ensures forall row :: row in SeasonRows(show, seasons) ==>
      exists s :: s in seasons && s.seasonNumber != 0 && s.statistics.Some? && row == SeasonRow(show, s)
  {
    if seasons != [] {
      var init := seasons[..|seasons| - 1];
      assert forall k :: 0 <= k < |init| ==> init[k] == seasons[k];
      SeasonRowsSpec(show, init);
      assert forall s :: s in seasons ==> s in init || s == seasons[|seasons| - 1];
      assert forall s :: s in init ==> s in seasons;
      assert forall s :: s in seasons && s.seasonNumber != 0 ==> s.statistics.Some?;
    }
  }

  /** A parent row has its files exactly when the show lists seasons and
      every numbered season is complete; a show whose only season is season
      0 therefore counts as complete. */
  lemma ParentHasFile(show: SonarrShow)
    requires ShowReadable(show)
    ensures ParentRow(show).hasFile <==>
      show.seasons.Some? && show.seasons.value != [] &&
      forall s :: s in show.seasons.value && s.seasonNumber != 0 ==>
        s.statistics.Some? && AllShowsInSeasonDownloaded(s.statistics.value)
  {
    if show.seasons.Some? && show.seasons.value != [] {
      var rows := SeasonRows(show, show.seasons.value);
      SeasonRowsSpec(show, show.seasons.value);
      if AllHaveFiles(rows) {
        forall s | s in show.seasons.value && s.seasonNumber != 0
          ensures s.statistics.Some? && AllShowsInSeasonDownloaded(s.statistics.value)
        {
          var k :| 0 <= k < |rows| && rows[k] == SeasonRow(show, s);
        }
      } else {
        var k :| 0 <= k < |rows| && !rows[k].hasFile;
        assert rows[k] in rows;
      }
    }
  }

  /** The parent row counts the numbered seasons, and there are that many
      season rows after it; it carries the series' first-aired date. */
  lemma ShowRowCount(show: SonarrShow)
    requires ShowReadable(show)
    ensures ParentRow(show).amountOfSeasons == Some(|RowsOfShow(show)| - 1)
    ensures RowsOfShow(show)[0].kind == "show"
    ensures RowsOfShow(show)[0].releaseDate == show.firstAired
  {
    if show.seasons.Some? {
      SeasonRowsSpec(show, show.seasons.value);
    }
  }

  /** A season of a single episode never has its files, whatever is on disk. */
  lemma SingleEpisodeSeasonIncomplete(st: SeasonStatistics)
    requires st.episodeCount <= 1
    ensures !AllShowsInSeasonDownloaded(st)
  {
  }

  lemma AllHaveFilesSnoc(rows: seq<DownloadedShow>, row: DownloadedShow)
    ensures AllHaveFiles(rows + [row]) <==> AllHaveFiles(rows) && row.hasFile
  {
    assert forall k :: 0 <= k < |rows| ==> (rows + [row])[k] == rows[k];
    assert (rows + [row])[|rows|] == row;
  }

  /** The inner loop of `ScrapeSonarrShows`: the season rows of one show,
      and whether every one of them has its files; `None` when a numbered
      season has no statistics, which throws. */
  method BuildSeasonRows(show: SonarrShow, seasons: seq<SonarrSeason>) returns (children: Option<seq<DownloadedShow>>, allHaveFiles: bool)
    ensures children.Some? <==> SeasonsReadable(seasons)
    ensures children.Some? ==> children.value == SeasonRows(show, seasons) && allHaveFiles == AllHaveFiles(children.value)
  {
    var rows := [];
    allHaveFiles := true;
    for j := 0 to |seasons|
      invariant SeasonsReadable(seasons[..j])
      invariant rows == SeasonRows(show, seasons[..j])
      invariant allHaveFiles == AllHaveFiles(rows)
    {
      assert seasons[..j + 1][..j] == seasons[..j];
      if seasons[j].seasonNumber != 0 {
        if seasons[j].statistics.None? {
          return None, false;
        }
        var child := SeasonRow(show, seasons[j]);
        AllHaveFilesSnoc(rows, child);
        rows := rows + [child];
        allHaveFiles := allHaveFiles && child.hasFile;
      }
    }
    assert seasons[..|seasons|] == seasons;
    children := Some(rows);
  }

  /** One pass of the outer loop of `ScrapeSonarrShows`: the parent row of
      `show`, then its season rows, the parent's `HasFile` settled once the
      season rows are known; `None` when reading the series throws. */
  method BuildRowsOfShow(show: SonarrShow) returns (rows: Option<seq<DownloadedShow>>)
    ensures rows.Some? <==> ShowReadable(show)
    ensures rows.Some? ==> rows.value == RowsOfShow(show)
  {
    if show.firstAired.None? || show.statistics.None? {
      return None;
    }
    var amount := if show.seasons.Some? then CountNumberedSeasons(show.seasons.value) else 0;
    var parent := DownloadedShow("show", show.title, false, Some(amount), None, None, None,
                                 show.imdbId, show.tvdbId, show.monitored, Some(show.firstAired.value));
    if show.seasons.None? || show.seasons.value == [] {
      rows := Some([parent]);
    } else {
      var children, allHaveFiles := BuildSeasonRows(show, show.seasons.value);
      if children.None? {
        return None;
      }
      parent := parent.(hasFile := allHaveFiles);
      rows := Some([parent] + children.value);
    }
  }

  /** The loops of `ScrapeSonarrShows` that prepare the new rows, show by
      show; `None` as soon as reading a series throws. */
  method BuildShowRows(library: seq<SonarrShow>) returns (rows: Option<seq<DownloadedShow>>)
    ensures rows == ScrapeShowRows(library)
  {
    var acc := [];
    for i := 0 to |library|
      invariant LibraryReadable(library[..i])
      invariant acc == ShowRows(library[..i])
    {
      assert library[..i + 1][..i] == library[..i];
      var own := BuildRowsOfShow(library[i]);
      if own.None? {
        return None;
      }
      acc := acc + own.value;
    }
    assert library[..|library|] == library;
    rows := Some(acc);
  }
}
