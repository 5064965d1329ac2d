/** `DownloadProcessorService` over one database context: the class holds
    the context's state and its methods run the passes step by step, each
    proved to do what the `Passes` function of the same name says. */
module DownloadProcessor {
  import opened Wrappers
  import opened Requests
  import opened Progress
  import opened TorrentHealth
  import opened Queue
  import opened Inventory
  import opened SeriesAggregate
  import opened Passes

  class DownloadProcessorService {
    /** The `DownloadRequests` table as saved in the database. */
    var saved: seq<DownloadRequest>
    /** The same rows as the context's tracked entities hold them. */
    var tracked: seq<DownloadRequest>
    /** Rows added to the context and not yet saved. */
    var added: seq<DownloadRequest>
    /** The `DownloadedMovies` table. */
    var movies: seq<DownloadedMovie>
    /** The `DownloadedShows` table. */
    var shows: seq<DownloadedShow>

    function State(): DbState
      reads this
    {
      DbState(saved, tracked, added, movies, shows)
    }

    constructor (st: DbState)
      ensures State() == st
    {
      saved, tracked, added, movies, shows := st.saved, st.tracked, st.added, st.movies, st.shows;
    }

    /** `SaveChangesAsync`. */
    method SaveChanges()
      modifies this
      ensures State() == Passes.SaveChanges(old(State()))
    {
      saved := tracked + added;
      tracked := saved;
      added := [];
    }

    /** `ScrapeRadarrMovies`: replace the movie table, then save. */
    method ScrapeRadarrMovies(library: seq<RadarrMovie>)
      modifies this
      ensures State() == ScrapeMovies(old(State()), library)
    {
      var rows := BuildMovieRows(library);
      movies := rows;
      SaveChanges();
    }

    /** `ScrapeSonarrShows`: replace the show table, then save; `ok` is
        false when reading the library threw, which changes nothing. */
    method ScrapeSonarrShows(library: seq<SonarrShow>) returns (ok: bool)
      modifies this
      ensures Outcome(State(), ok) == ScrapeShows(old(State()), library)
    {
      var rows := BuildShowRows(library);
      if rows.None? {
        return false;
      }
      shows := rows.value;
      SaveChanges();
      ok := true;
    }

    /** `ProcessRadarrQueueItems`; `ok` is false when a record threw. */
    method ProcessRadarrQueueItems(recs: seq<RadarrQueueRecord>, w: World) returns (ok: bool)
      requires WellFormed(State())
      modifies this
      ensures Outcome(State(), ok) == ProcessRadarrItems(old(State()), recs, w)
    {
      ghost var st0 := State();
      ok := true;
      var k := 0;
      while k < |recs| && ok
        invariant 0 <= k <= |recs|
        invariant Outcome(State(), ok) == RadarrItems(st0, recs[..k], w)
      {
        assert recs[..k + 1][..k] == recs[..k];
        var rec := recs[k];
        if rec.movieId.None? || rec.movieId.value !in w.tmdbOf {
          ok := false;
        } else {
          var found := MovieRequestFor(saved, w.tmdbOf[rec.movieId.value]);
          if found.Some? {
            var i := found.value;
            var row := TrackRadarrRecord(tracked[i], rec, w.now);
            if row.status == "completed" && row.completedAt.None? {
              tracked := tracked[i := row.(completedAt := Some(w.now))];
              ScrapeRadarrMovies(w.movieLibrary);
            } else {
              tracked := tracked[i := row];
            }
          }
        }
        k := k + 1;
      }
      if ok {
        assert recs[..k] == recs;
        SaveChanges();
      } else {
        RadarrItemsStopped(st0, recs, w, k);
      }
    }

    /** `ProcessRadarrQueue`; returns the commands sent to Radarr. */
    method ProcessRadarrQueue(w: World) returns (cmds: seq<Command>)
      requires WellFormed(State())
      modifies this
      ensures PassResult(State(), cmds) == RadarrPass(old(State()), w)
    {
      cmds := [RefreshMonitoredDownloads(Radarr)];
      var active := exists i :: 0 <= i < |saved| && ActiveMovie(saved[i]);
      if !active || w.radarrQueue == [] {
        return;
      }
      var entries := RadarrEntries(w.radarrQueue);
      var culled := CheckTorrentHealth(TorrentIds(entries), w.torrents, w.now);
      var sent, ok := RemoveAndSearchAgain(Radarr, entries, culled);
      cmds := cmds + sent;
      if !ok {
        return;
      }
      ok := ProcessRadarrQueueItems(w.radarrQueue, w);
    }

    /** `UpdateExistingSonarrDownloads` over the entities at `existing`;
        `ok` is false when a show scrape threw. */
    method UpdateExistingSonarrDownloads(existing: seq<nat>, items: seq<SonarrQueueRecord>, w: World) returns (ok: bool)
      requires WellFormed(State())
      requires forall k :: 0 <= k < |existing| ==> existing[k] < |tracked|
      modifies this
      ensures Outcome(State(), ok) == UpdateExisting(old(State()), existing, items, w)
    {
      ghost var st0 := State();
      ok := true;
      var k := 0;
      while k < |existing| && ok
        invariant 0 <= k <= |existing|
        invariant Outcome(State(), ok) == UpdateExisting(st0, existing[..k], items, w)
      {
        assert existing[..k + 1][..k] == existing[..k];
        var i := existing[k];
        var found := MatchingItem(items, tracked[i].episodeId);
        if found.Some? {
          var row := TrackSonarrRecord(tracked[i], items[found.value], w.now);
          if row.status == "completed" && row.completedAt.None? {
            tracked := tracked[i := row.(completedAt := Some(w.now))];
            ok := ScrapeSonarrShows(w.showLibrary);
          } else {
            tracked := tracked[i := row];
          }
        }
        k := k + 1;
      }
      if ok {
        assert existing[..k] == existing;
      } else {
        UpdateExistingStopped(st0, existing, items, w, k);
      }
    }

    /** `AddMissingEpisodes`: the new requests are added, not saved. */
    method AddMissingEpisodes(seriesId: int, items: seq<SonarrQueueRecord>, w: World)
      requires WellFormed(State())
      modifies this
      ensures State() == AddMissing(old(State()), seriesId, items, w)
    {
      if seriesId !in w.seriesTvdb {
        return;
      }
      var tvdbId := w.seriesTvdb[seriesId];
      var parent := ParentFor(saved, Some(tvdbId));
      if parent.None? {
        return;
      }
      if seriesId !in w.episodesOf || w.episodesOf[seriesId] == [] {
        return;
      }
      var episodes := w.episodesOf[seriesId];
      var userId := tracked[parent.value].userId;
      var newRows: seq<DownloadRequest> := [];
      for k := 0 to |items|
        invariant newRows == NewEpisodeRows(items[..k], episodes, seriesId, tvdbId, userId, w.now)
      {
        assert items[..k + 1][..k] == items[..k];
        var found := FindEpisode(episodes, items[k].episodeId);
        if found.Some? {
          newRows := newRows + [NewEpisodeRow(items[k], episodes[found.value], seriesId, tvdbId, userId, w.now)];
        }
      }
      assert items[..|items|] == items;
      if newRows != [] {
        added := added + newRows;
      }
    }

    /** `UpdateParentSeriesProgress`. */
    method UpdateParentSeriesProgress(seriesId: int, now: int)
      requires WellFormed(State())
      modifies this
      ensures State() == UpdateParent(old(State()), seriesId, now)
    {
      var eps := SeriesEpisodes(saved, seriesId);
      if eps == [] {
        return;
      }
      var tvdbId := tracked[eps[0]].tvdbId;
      if tvdbId.None? {
        return;
      }
      var parent := ParentFor(saved, tvdbId);
      if parent.None? {
        return;
      }
      var p := parent.value;
      var rolled := Aggregate(tracked[p], Rows(tracked, eps), now);
      if rolled.Some? {
        tracked := tracked[p := rolled.value];
      }
    }

    /** One series group of `ProcessSonarrQueueItems`; `ok` is false when
        it threw. */
    method ProcessSeriesGroup(g: SeriesGroup, w: World) returns (ok: bool)
      requires WellFormed(State())
      modifies this
      ensures Outcome(State(), ok) == SonarrGroup(old(State()), g, w)
    {
      var ids := EpisodeIds(g.items);
      var existing := ExistingEpisodes(saved, ids);
      ok := UpdateExistingSonarrDownloads(existing, g.items, w);
      if !ok {
        return;
      }
      var missing := MissingIds(ids, ExistingIds(tracked, existing));
      if missing != [] {
        AddMissingEpisodes(g.seriesId, ItemsWithIds(g.items, missing), w);
      }
      UpdateParentSeriesProgress(g.seriesId, w.now);
    }

    /** `ProcessSonarrQueueItems`: the series groups in turn, then a save;
        `ok` is false when a group threw, which skips the rest. */
    method ProcessSonarrQueueItems(recs: seq<SonarrQueueRecord>, w: World) returns (ok: bool)
      requires WellFormed(State())
      modifies this
      ensures Outcome(State(), ok) == ProcessSonarrItems(old(State()), recs, w)
    {
      ghost var st0 := State();
      var groups := GroupBySeries(recs);
      ok := true;
      var k := 0;
      while k < |groups| && ok
        invariant 0 <= k <= |groups|
        invariant Outcome(State(), ok) == SonarrGroups(st0, groups[..k], w)
        invariant WellFormed(State())
      {
        assert groups[..k + 1][..k] == groups[..k];
        ghost var before := State();
        assert SonarrGroups(st0, groups[..k + 1], w) == SonarrGroup(before, groups[k], w);
        ok := ProcessSeriesGroup(groups[k], w);
        k := k + 1;
      }
      if ok {
        assert groups[..k] == groups;
        SaveChanges();
      } else {
        SonarrGroupsStopped(st0, groups, w, k);
      }
    }

    /** `ProcessSonarrQueue`; returns the commands sent to Sonarr. */
    method ProcessSonarrQueue(w: World) returns (cmds: seq<Command>)
      requires WellFormed(State())
      modifies this
      ensures PassResult(State(), cmds) == SonarrPass(old(State()), w)
    {
      cmds := [RefreshMonitoredDownloads(Sonarr)];
      var active := exists i :: 0 <= i < |saved| && ActiveSeries(saved[i]);
      if !active || w.sonarrQueue == [] {
        return;
      }
      var entries := SonarrEntries(w.sonarrQueue);
      var culled := CheckTorrentHealth(TorrentIds(entries), w.torrents, w.now);
      var sent, ok := RemoveAndSearchAgain(Sonarr, entries, culled);
      cmds := cmds + sent;
      if !ok {
        return;
      }
      ok := ProcessSonarrQueueItems(w.sonarrQueue, w);
    }

    /** The sweeper's loop over stuck rows. */
    method FinaliseRows(positions: seq<nat>, now: int)
      requires WellFormed(State())
      requires forall k :: 0 <= k < |positions| ==> positions[k] < |tracked|
      modifies this
      ensures State() == FinaliseAt(old(State()), positions, now)
    {
      ghost var st0 := State();
      for k := 0 to |positions|
        invariant State() == FinaliseAt(st0, positions[..k], now)
      {
        assert positions[..k + 1][..k] == positions[..k];
        var i := positions[k];
        tracked := tracked[i := Finalise(tracked[i], now)];
      }
      assert positions[..|positions|] == positions;
    }

    /** The sweeper's loop over downloading shows. */
    method SettleDownloadingShows(positions: seq<nat>, now: int)
      requires WellFormed(State())
      requires forall k :: 0 <= k < |positions| ==> positions[k] < |tracked|
      modifies this
      ensures State() == SettleShows(old(State()), positions, now)
    {
      ghost var st0 := State();
      for k := 0 to |positions|
        invariant State() == SettleShows(st0, positions[..k], now)
      {
        assert positions[..k + 1][..k] == positions[..k];
        var i := positions[k];
        var eps := ShowEpisodes(saved, tracked[i].tvdbId);
        var rows := Rows(tracked, eps);
        var show := tracked[i].(mediaId := if eps == [] then None else rows[0].mediaId);
        if AllRowsCompleted(rows) {
          show := Finalise(show, now);
        }
        tracked := tracked[i := show];
      }
      assert positions[..|positions|] == positions;
    }

    /** The sweeper's first step: finalise the stuck movies and, if there
        were any, scrape the movies. */
    method SweepStuckMovies(w: World)
      requires WellFormed(State())
      modifies this
      ensures State() == SweepMovies(old(State()), w)
    {
      ghost var st0 := State();
      var stuck := StuckRows(saved, "movie", w.now - StuckAfterSeconds);
      if stuck != [] {
        assert forall k :: 0 <= k < |stuck| ==> stuck[k] < |tracked|;
        FinaliseRows(stuck, w.now);
        assert State() == FinaliseAt(st0, stuck, w.now);
        ScrapeRadarrMovies(w.movieLibrary);
        assert State() == ScrapeMovies(FinaliseAt(st0, stuck, w.now), w.movieLibrary);
        assert State() == SweepMovies(st0, w);
      } else {
        assert State() == SweepMovies(st0, w);
      }
    }

    /** The sweeper's second step, for episodes and the show scrape; `ok`
        is false when the scrape threw. */
    method SweepStuckEpisodes(w: World) returns (ok: bool)
      requires WellFormed(State())
      modifies this
      ensures Outcome(State(), ok) == SweepEpisodes(old(State()), w)
    {
      ghost var st0 := State();
      ok := true;
      var stuck := StuckRows(saved, "Episode", w.now - StuckAfterSeconds);
      if stuck != [] {
        assert forall k :: 0 <= k < |stuck| ==> stuck[k] < |tracked|;
        FinaliseRows(stuck, w.now);
        assert State() == FinaliseAt(st0, stuck, w.now);
        ok := ScrapeSonarrShows(w.showLibrary);
        assert Outcome(State(), ok) == ScrapeShows(FinaliseAt(st0, stuck, w.now), w.showLibrary);
      }
      assert st0 == old(State());
    }

    /** `ProcessStuckMedia`; `ok` is false when it threw, which skips the
        settling of the shows and the save. */
    method ProcessStuckMedia(w: World) returns (ok: bool)
      requires WellFormed(State())
      modifies this
      ensures Outcome(State(), ok) == Sweep(old(State()), w)
    {
      ghost var st0 := State();
      SweepStuckMovies(w);
      assert State() == SweepMovies(st0, w);
      ok := SweepStuckEpisodes(w);
      assert Outcome(State(), ok) == SweepEpisodes(SweepMovies(st0, w), w);
      if !ok {
        return;
      }
      SettleDownloadingShows(DownloadingShows(saved), w.now);
      SaveChanges();
    }
  }
}
