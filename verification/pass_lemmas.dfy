/** What the passes promise about the `DownloadRequests` table: the queue
    passes never change what a row is about nor overwrite a completion
    time, the Radarr pass touches movie requests only, new episode
    requests are well formed, and the sweeper finalises exactly the stuck
    rows and settles each downloading show from its episodes. */
module PassLemmas {
  import opened Wrappers
  import opened Requests
  import opened Progress
  import opened Queue
  import opened Inventory
  import opened SeriesAggregate
  import opened Passes

  // ---------------------------------------------------------------------
  // Keys and completion times survive the queue passes
  // ---------------------------------------------------------------------

  /** `after` extends `before` row for row, each row keeping its keys and
      any completion time it already had. */
  ghost predicate Preserves(before: seq<DownloadRequest>, after: seq<DownloadRequest>) {
    |after| >= |before| &&
    forall i :: 0 <= i < |before| ==>
      Keys(after[i]) == Keys(before[i]) &&
      (before[i].completedAt.Some? ==> after[i].completedAt == before[i].completedAt)
  }

  lemma PreservesTrans(a: seq<DownloadRequest>, b: seq<DownloadRequest>, c: seq<DownloadRequest>)
    requires Preserves(a, b) && Preserves(b, c)
    ensures Preserves(a, c)
  {
  }

  lemma PreservesUpdate(a: seq<DownloadRequest>, i: nat, row: DownloadRequest)
    requires i < |a| && Keys(row) == Keys(a[i])
    requires a[i].completedAt.Some? ==> row.completedAt == a[i].completedAt
    ensures Preserves(a, a[i := row])
  {
  }

  lemma PreservesAppend(a: seq<DownloadRequest>, b: seq<DownloadRequest>)
    ensures Preserves(a, a + b)
  {
  }

  lemma RadarrItemPreserves(st: DbState, rec: RadarrQueueRecord, w: World)
    requires KeysAgree(st)
    ensures Preserves(st.tracked, RadarrItem(st, rec, w).st.tracked)
    ensures KeysAgree(RadarrItem(st, rec, w).st)
  {
    if rec.movieId.Some? && rec.movieId.value in w.tmdbOf {
      match MovieRequestFor(st.saved, w.tmdbOf[rec.movieId.value])
      case None =>
      case Some(i) =>
        var row := TrackRadarrRecord(st.tracked[i], rec, w.now);
        if row.status == "completed" && row.completedAt.None? {
          var t := st.tracked[i := row.(completedAt := Some(w.now))];
          PreservesUpdate(st.tracked, i, row.(completedAt := Some(w.now)));
          PreservesAppend(t, st.added);
          PreservesTrans(st.tracked, t, t + st.added);
        } else {
          PreservesUpdate(st.tracked, i, row);
        }
    }
  }

  lemma {:induction false} RadarrItemsPreserves(st: DbState, recs: seq<RadarrQueueRecord>, w: World)
    requires KeysAgree(st)
    ensures Preserves(st.tracked, RadarrItems(st, recs, w).st.tracked)
    ensures KeysAgree(RadarrItems(st, recs, w).st)
  {
    if recs != [] {
      var prev := RadarrItems(st, recs[..|recs| - 1], w);
      RadarrItemsPreserves(st, recs[..|recs| - 1], w);
      if prev.ok {
        RadarrItemPreserves(prev.st, recs[|recs| - 1], w);
        PreservesTrans(st.tracked, prev.st.tracked, RadarrItem(prev.st, recs[|recs| - 1], w).st.tracked);
      }
    }
  }

  /** The Radarr pass never changes a request's keys nor overwrites a
      completion time; rows are only ever appended. */
  lemma RadarrPassPreserves(st: DbState, w: World)
    requires KeysAgree(st)
    ensures Preserves(st.tracked, RadarrPass(st, w).st.tracked)
  {
    var o := RadarrItems(st, w.radarrQueue, w);
    RadarrItemsPreserves(st, w.radarrQueue, w);
    PreservesAppend(o.st.tracked, o.st.added);
    PreservesTrans(st.tracked, o.st.tracked, o.st.tracked + o.st.added);
  }

  lemma UpdateOnePreserves(st: DbState, i: nat, items: seq<SonarrQueueRecord>, w: World)
    requires WellFormed(st) && i < |st.tracked|
    ensures Preserves(st.tracked, UpdateOne(st, i, items, w).st.tracked)
  {
    match MatchingItem(items, st.tracked[i].episodeId)
    case None =>
    case Some(k) =>
      var row := TrackSonarrRecord(st.tracked[i], items[k], w.now);
      if row.status == "completed" && row.completedAt.None? {
        var t := st.tracked[i := row.(completedAt := Some(w.now))];
        PreservesUpdate(st.tracked, i, row.(completedAt := Some(w.now)));
        PreservesAppend(t, st.added);
        PreservesTrans(st.tracked, t, t + st.added);
      } else {
        PreservesUpdate(st.tracked, i, row);
      }
  }

  lemma {:induction false} UpdateExistingPreserves(st: DbState, existing: seq<nat>, items: seq<SonarrQueueRecord>, w: World)
    requires WellFormed(st)
    requires forall k :: 0 <= k < |existing| ==> existing[k] < |st.tracked|
    ensures Preserves(st.tracked, UpdateExisting(st, existing, items, w).st.tracked)
  {
    if existing != [] {
      var prev := UpdateExisting(st, existing[..|existing| - 1], items, w);
      UpdateExistingPreserves(st, existing[..|existing| - 1], items, w);
      if prev.ok {
        UpdateOnePreserves(prev.st, existing[|existing| - 1], items, w);
        PreservesTrans(st.tracked, prev.st.tracked, UpdateOne(prev.st, existing[|existing| - 1], items, w).st.tracked);
      }
    }
  }

  lemma UpdateParentPreserves(st: DbState, seriesId: int, now: int)
    requires WellFormed(st)
    ensures Preserves(st.tracked, UpdateParent(st, seriesId, now).tracked)
  {
    var eps := SeriesEpisodes(st.saved, seriesId);
    if eps != [] && st.tracked[eps[0]].tvdbId.Some? {
      match ParentFor(st.saved, st.tracked[eps[0]].tvdbId)
      case None =>
      case Some(p) =>
        match Aggregate(st.tracked[p], Rows(st.tracked, eps), now)
        case None =>
        case Some(row) => PreservesUpdate(st.tracked, p, row);
    }
  }

  lemma SonarrGroupPreserves(st: DbState, g: SeriesGroup, w: World)
    requires WellFormed(st)
    ensures Preserves(st.tracked, SonarrGroup(st, g, w).st.tracked)
  {
    var ids := EpisodeIds(g.items);
    var existing := ExistingEpisodes(st.saved, ids);
    var u := UpdateExisting(st, existing, g.items, w);
    UpdateExistingPreserves(st, existing, g.items, w);
    if u.ok {
      var st1 := u.st;
      var missing := MissingIds(ids, ExistingIds(st1.tracked, existing));
      var st2 := if missing == [] then st1 else AddMissing(st1, g.seriesId, ItemsWithIds(g.items, missing), w);
      assert st2.tracked == st1.tracked;
      UpdateParentPreserves(st2, g.seriesId, w.now);
      PreservesTrans(st.tracked, st1.tracked, UpdateParent(st2, g.seriesId, w.now).tracked);
    }
  }

  lemma {:induction false} SonarrGroupsPreserves(st: DbState, groups: seq<SeriesGroup>, w: World)
    requires WellFormed(st)
    ensures Preserves(st.tracked, SonarrGroups(st, groups, w).st.tracked)
  {
    if groups != [] {
      var prev := SonarrGroups(st, groups[..|groups| - 1], w);
      SonarrGroupsPreserves(st, groups[..|groups| - 1], w);
      if prev.ok {
        SonarrGroupPreserves(prev.st, groups[|groups| - 1], w);
        PreservesTrans(st.tracked, prev.st.tracked, SonarrGroup(prev.st, groups[|groups| - 1], w).st.tracked);
      }
    }
  }

  /** The Sonarr pass never changes a request's keys nor overwrites a
      completion time, whether it runs through or a show scrape throws;
      new episode requests are only appended. */
  lemma SonarrPassPreserves(st: DbState, w: World)
    requires WellFormed(st)
    ensures Preserves(st.tracked, SonarrPass(st, w).st.tracked)
  {
    var r := SonarrGroups(st, GroupBySeries(w.sonarrQueue), w);
    SonarrGroupsPreserves(st, GroupBySeries(w.sonarrQueue), w);
    PreservesAppend(r.st.tracked, r.st.added);
    PreservesTrans(st.tracked, r.st.tracked, r.st.tracked + r.st.added);
  }

  /** Without an active series or episode request, or without queue
      records, the Sonarr pass only pokes Sonarr. */
  lemma SonarrPassIdle(st: DbState, w: World)
    requires WellFormed(st)
    requires w.sonarrQueue == [] || forall i :: 0 <= i < |st.saved| ==> !ActiveSeries(st.saved[i])
    ensures SonarrPass(st, w) == PassResult(st, [RefreshMonitoredDownloads(Sonarr)])
  {
  }

  // ---------------------------------------------------------------------
  // What a queue record writes onto its request
  // ---------------------------------------------------------------------

  /** A Radarr record whose movie was requested writes the queue's status,
      progress and time left onto the request, stamps it, records Radarr's
      movie id, and sets the completion time on the first completion only. */
  lemma RadarrItemWrites(st: DbState, rec: RadarrQueueRecord, w: World)
    requires WellFormed(st)
    requires rec.movieId.Some? && rec.movieId.value in w.tmdbOf
    requires MovieRequestFor(st.saved, w.tmdbOf[rec.movieId.value]).Some?
    ensures var i := MovieRequestFor(st.saved, w.tmdbOf[rec.movieId.value]).value;
      var o := RadarrItem(st, rec, w);
      i < |o.st.tracked| && o.ok &&
      o.st.tracked[i].status == GetDownloadStatus(rec.status) &&
      o.st.tracked[i].downloadPercentage == GetDownloadPercentage(rec.size, rec.sizeLeft) &&
      o.st.tracked[i].minutesLeft == ParseTimeLeftToMinutes(rec.timeLeft) &&
      o.st.tracked[i].updatedAt == Some(w.now) &&
      o.st.tracked[i].mediaId == rec.movieId &&
      o.st.tracked[i].completedAt ==
        (if st.tracked[i].completedAt.None? && GetDownloadStatus(rec.status) == "completed" then Some(w.now)
         else st.tracked[i].completedAt) &&
      Keys(o.st.tracked[i]) == Keys(st.tracked[i])
  {
  }

  /** Likewise for an existing episode request and the first queue item of
      its group for the same episode, the time left scaled by the progress;
      this holds whether or not the show scrape it triggers throws. */
  lemma UpdateOneWrites(st: DbState, i: nat, items: seq<SonarrQueueRecord>, w: World)
    requires WellFormed(st) && i < |st.tracked|
    requires MatchingItem(items, st.tracked[i].episodeId).Some?
    ensures var q := items[MatchingItem(items, st.tracked[i].episodeId).value];
      var o := UpdateOne(st, i, items, w);
      o.st.tracked[i].status == GetDownloadStatus(q.status) &&
      o.st.tracked[i].downloadPercentage == GetDownloadPercentage(q.size, q.sizeLeft) &&
      o.st.tracked[i].minutesLeft == Some(GetMinutesLeft(q.size, q.sizeLeft, q.timeLeft)) &&
      o.st.tracked[i].updatedAt == Some(w.now) &&
      o.st.tracked[i].completedAt ==
        (if st.tracked[i].completedAt.None? && GetDownloadStatus(q.status) == "completed" then Some(w.now)
         else st.tracked[i].completedAt) &&
      Keys(o.st.tracked[i]) == Keys(st.tracked[i])
  {
  }

  // ---------------------------------------------------------------------
  // The Radarr pass touches movie requests only
  // ---------------------------------------------------------------------

  /** `after` extends `before`, and every row of `before` that is not a
      movie request is unchanged. */
  ghost predicate OnlyMoviesChanged(before: seq<DownloadRequest>, after: seq<DownloadRequest>) {
    |after| >= |before| &&
    forall i :: 0 <= i < |before| && before[i].mediaType != "movie" ==> after[i] == before[i]
  }

  lemma RadarrItemOnlyMovies(st: DbState, rec: RadarrQueueRecord, w: World)
    requires KeysAgree(st)
    ensures OnlyMoviesChanged(st.tracked, RadarrItem(st, rec, w).st.tracked)
  {
    if rec.movieId.Some? && rec.movieId.value in w.tmdbOf {
      match MovieRequestFor(st.saved, w.tmdbOf[rec.movieId.value])
      case None =>
      case Some(i) =>
        assert Keys(st.saved[i]) == Keys(st.tracked[i]);
    }
  }

  lemma {:induction false} RadarrItemsOnlyMovies(st: DbState, recs: seq<RadarrQueueRecord>, w: World)
    requires KeysAgree(st)
    ensures OnlyMoviesChanged(st.tracked, RadarrItems(st, recs, w).st.tracked)
    ensures Preserves(st.tracked, RadarrItems(st, recs, w).st.tracked)
  {
    RadarrItemsPreserves(st, recs, w);
    if recs != [] {
      var prev := RadarrItems(st, recs[..|recs| - 1], w);
      RadarrItemsOnlyMovies(st, recs[..|recs| - 1], w);
      RadarrItemsPreserves(st, recs[..|recs| - 1], w);
      if prev.ok {
        RadarrItemOnlyMovies(prev.st, recs[|recs| - 1], w);
        var next := RadarrItem(prev.st, recs[|recs| - 1], w).st.tracked;
        forall i | 0 <= i < |st.tracked| && st.tracked[i].mediaType != "movie"
          ensures next[i] == st.tracked[i]
        {
          assert Keys(prev.st.tracked[i]) == Keys(st.tracked[i]);
        }
      }
    }
  }

  /** The Radarr pass leaves every request that is not a movie request as
      it was. */
  lemma RadarrPassOnlyMovies(st: DbState, w: World)
    requires KeysAgree(st)
    ensures OnlyMoviesChanged(st.tracked, RadarrPass(st, w).st.tracked)
  {
    RadarrItemsOnlyMovies(st, w.radarrQueue, w);
    var o := RadarrItems(st, w.radarrQueue, w);
    assert forall i :: 0 <= i < |o.st.tracked| ==> (o.st.tracked + o.st.added)[i] == o.st.tracked[i];
  }

  /** Without an active movie request or without queue records, the Radarr
      pass only pokes Radarr. */
  lemma RadarrPassIdle(st: DbState, w: World)
    requires WellFormed(st)
    requires w.radarrQueue == [] || forall i :: 0 <= i < |st.saved| ==> !ActiveMovie(st.saved[i])
    ensures RadarrPass(st, w) == PassResult(st, [RefreshMonitoredDownloads(Radarr)])
  {
  }

  // ---------------------------------------------------------------------
  // Sonarr: missing episodes and the parent roll-up
  // ---------------------------------------------------------------------

  /** The queue items handed to `AddMissingEpisodes` are exactly the group's
      items whose episode no existing request carries. */
  lemma MissingItemsSpec(items: seq<SonarrQueueRecord>, have: seq<Option<int>>, q: SonarrQueueRecord)
    ensures q in ItemsWithIds(items, MissingIds(EpisodeIds(items), have)) <==>
      q in items && q.episodeId.Some? && q.episodeId !in have
  {
    if q in items && q.episodeId.Some? {
      var k :| 0 <= k < |items| && items[k] == q;
      assert q.episodeId.value in EpisodeIds(items);
    }
  }

  /** The requests `AddMissingEpisodes` adds are episode requests of the
      series, for the series' TVDB id and the parent's user, not yet
      completed; nothing is added without a parent request. */
  lemma AddMissingRows(st: DbState, seriesId: int, items: seq<SonarrQueueRecord>, w: World)
    requires WellFormed(st)
    ensures var r := AddMissing(st, seriesId, items, w);
      forall k :: |st.added| <= k < |r.added| ==>
        seriesId in w.seriesTvdb &&
        ParentFor(st.saved, Some(w.seriesTvdb[seriesId])).Some? &&
        r.added[k].mediaType == "Episode" &&
        r.added[k].mediaId == Some(seriesId) &&
        r.added[k].tvdbId == Some(w.seriesTvdb[seriesId]) &&
        r.added[k].userId == st.tracked[ParentFor(st.saved, Some(w.seriesTvdb[seriesId])).value].userId &&
        r.added[k].completedAt.None? &&
        exists j :: 0 <= j < |items| && r.added[k].episodeId == items[j].episodeId
  {
    var r := AddMissing(st, seriesId, items, w);
    if seriesId in w.seriesTvdb {
      var tvdbId := w.seriesTvdb[seriesId];
      match ParentFor(st.saved, Some(tvdbId))
      case None =>
      case Some(p) =>
        if seriesId in w.episodesOf && w.episodesOf[seriesId] != [] {
          var rows := NewEpisodeRows(items, w.episodesOf[seriesId], seriesId, tvdbId, st.tracked[p].userId, w.now);
          assert forall k :: |st.added| <= k < |r.added| ==> r.added[k] == rows[k - |st.added|];
        }
    }
  }

  /** Requests added and not yet saved play no part in the roll-up: the
      parent is computed from saved episode requests only. */
  lemma UpdateParentIgnoresAdded(st: DbState, seriesId: int, now: int, extra: seq<DownloadRequest>)
    requires WellFormed(st)
    ensures UpdateParent(st.(added := extra), seriesId, now) == UpdateParent(st, seriesId, now).(added := extra)
  {
  }

  /** The roll-up leaves the context alone when the series has no saved
      episode request, its first one has no TVDB id, or no parent request
      has that id. */
  lemma UpdateParentNoop(st: DbState, seriesId: int, now: int)
    requires WellFormed(st)
    requires var eps := SeriesEpisodes(st.saved, seriesId);
      eps == [] || st.tracked[eps[0]].tvdbId.None? || ParentFor(st.saved, st.tracked[eps[0]].tvdbId).None?
    ensures UpdateParent(st, seriesId, now) == st
  {
  }

  /** Otherwise the parent request, and it alone, gets the roll-up of the
      series' episode requests. */
  lemma UpdateParentWrites(st: DbState, seriesId: int, now: int)
    requires WellFormed(st)
    requires var eps := SeriesEpisodes(st.saved, seriesId);
      eps != [] && st.tracked[eps[0]].tvdbId.Some? && ParentFor(st.saved, st.tracked[eps[0]].tvdbId).Some?
    ensures var eps := SeriesEpisodes(st.saved, seriesId);
      var p := ParentFor(st.saved, st.tracked[eps[0]].tvdbId).value;
      var rolled := Aggregate(st.tracked[p], Rows(st.tracked, eps), now);
      p < |st.tracked| &&
      UpdateParent(st, seriesId, now).tracked == (if rolled.Some? then st.tracked[p := rolled.value] else st.tracked)
  {
  }

  // ---------------------------------------------------------------------
  // The sweeper
  // ---------------------------------------------------------------------

  lemma {:induction false} FinaliseAtSpec(st: DbState, positions: seq<nat>, now: int)
    requires WellFormed(st)
    requires forall k :: 0 <= k < |positions| ==> positions[k] < |st.tracked|
    ensures forall i :: 0 <= i < |st.tracked| ==>
      FinaliseAt(st, positions, now).tracked[i] ==
        (if i in positions then Finalise(st.tracked[i], now) else st.tracked[i])
  {
    if positions != [] {
      var init := positions[..|positions| - 1];
      FinaliseAtSpec(st, init, now);
      assert forall i :: i in positions <==> i in init || i == positions[|positions| - 1];
    }
  }

  /** One step of the sweeper finalises exactly the requests of that media
      type that were downloading and not updated for two minutes, and leaves
      every other request as it was. */
  lemma SweepStepSpec(st: DbState, mediaType: string, cutoff: int, now: int)
    requires WellFormed(st)
    ensures var stuck := StuckRows(st.saved, mediaType, cutoff);
      forall i :: 0 <= i < |st.tracked| ==>
        FinaliseAt(st, stuck, now).tracked[i] ==
          (if Stuck(st.saved[i], mediaType, cutoff) then Finalise(st.tracked[i], now) else st.tracked[i])
  {
    var stuck := StuckRows(st.saved, mediaType, cutoff);
    WhereSpec(st.saved, (r: DownloadRequest) => Stuck(r, mediaType, cutoff));
    FinaliseAtSpec(st, stuck, now);
  }

  /** The movie step of the sweeper on a context with nothing pending. */
  lemma SweepMoviesSpec(st: DbState, w: World)
    requires Clean(st)
    ensures forall i :: 0 <= i < |st.tracked| ==>
      SweepMovies(st, w).saved[i] ==
        (if Stuck(st.saved[i], "movie", w.now - StuckAfterSeconds) then Finalise(st.saved[i], w.now) else st.saved[i])
  {
    SweepStepSpec(st, "movie", w.now - StuckAfterSeconds, w.now);
  }

  /** The episode step, likewise, when its show scrape goes through. */
  lemma SweepEpisodesSpec(st: DbState, w: World)
    requires Clean(st)
    ensures SweepEpisodes(st, w).ok ==> forall i :: 0 <= i < |st.tracked| ==>
      SweepEpisodes(st, w).st.saved[i] ==
        (if Stuck(st.saved[i], "Episode", w.now - StuckAfterSeconds) then Finalise(st.saved[i], w.now) else st.saved[i])
  {
    SweepStepSpec(st, "Episode", w.now - StuckAfterSeconds, w.now);
  }

  /** When the show scrape of the episode step throws, the stuck episodes
      are finalised in the context only: the database and the show table
      are as before the step. */
  lemma SweepEpisodesAborted(st: DbState, w: World)
    requires WellFormed(st)
    requires !SweepEpisodes(st, w).ok
    ensures SweepEpisodes(st, w).st.saved == st.saved && SweepEpisodes(st, w).st.shows == st.shows
    ensures forall i :: 0 <= i < |st.tracked| ==>
      SweepEpisodes(st, w).st.tracked[i] ==
        (if Stuck(st.saved[i], "Episode", w.now - StuckAfterSeconds) then Finalise(st.tracked[i], w.now) else st.tracked[i])
  {
    SweepStepSpec(st, "Episode", w.now - StuckAfterSeconds, w.now);
  }

  /** A tick whose sweep throws keeps in the database only what was saved
      before the episode step: the stuck episodes stay as they were and no
      show is settled. */
  lemma TickSweepAborted(st: DbState, w: World)
    requires WellFormed(st)
    requires !Sweep(RadarrPass(SonarrPass(st, w).st, w).st, w).ok
    ensures Tick(st, w).st.saved == SweepMovies(RadarrPass(SonarrPass(st, w).st, w).st, w).saved
    ensures Tick(st, w).st.shows == SweepMovies(RadarrPass(SonarrPass(st, w).st, w).st, w).shows
  {
    SweepEpisodesAborted(SweepMovies(RadarrPass(SonarrPass(st, w).st, w).st, w), w);
  }

  /** What the sweeper writes onto a downloading show: the series id of its
      first episode (none without episodes), and completion when every
      episode sharing its TVDB id is completed. */
  function SettledRow(st: DbState, i: nat, now: int): DownloadRequest
    requires WellFormed(st) && i < |st.tracked|
  {
    SettleShow(st, i, now).tracked[i]
  }

  lemma SettledRowSpec(st: DbState, i: nat, now: int)
    requires WellFormed(st) && i < |st.tracked|
    ensures var eps := Rows(st.tracked, ShowEpisodes(st.saved, st.tracked[i].tvdbId));
      SettledRow(st, i, now).status == (if AllRowsCompleted(eps) then "completed" else st.tracked[i].status) &&
      SettledRow(st, i, now).mediaId == (if eps == [] then None else eps[0].mediaId) &&
      (AllRowsCompleted(eps) ==> SettledRow(st, i, now).completedAt == Some(now)) &&
      Keys(SettledRow(st, i, now)) == Keys(st.tracked[i])
  {
  }

  /** A show is finalised by the sweeper when it has no episode requests at
      all. */
  lemma SettledShowWithoutEpisodes(st: DbState, i: nat, now: int)
    requires WellFormed(st) && i < |st.tracked|
    requires ShowEpisodes(st.saved, st.tracked[i].tvdbId) == []
    ensures SettledRow(st, i, now).status == "completed"
    ensures SettledRow(st, i, now).mediaId.None?
  {
  }

  /** Settling one show changes that show's row only. */
  lemma SettleShowFrame(st: DbState, i: nat, now: int)
    requires WellFormed(st) && i < |st.tracked|
    ensures forall j :: 0 <= j < |st.tracked| && j != i ==> SettleShow(st, i, now).tracked[j] == st.tracked[j]
  {
  }

  /** Settling reads only the show's own row and the saved episode rows:
      two contexts agreeing on those settle the show alike. */
  lemma SettledRowLocal(st: DbState, st': DbState, i: nat, now: int)
    requires WellFormed(st) && WellFormed(st') && i < |st.tracked|
    requires st'.saved == st.saved && st'.tracked[i] == st.tracked[i]
    requires forall j :: 0 <= j < |st.saved| && st.saved[j].mediaType == "Episode" ==> st'.tracked[j] == st.tracked[j]
    ensures SettledRow(st', i, now) == SettledRow(st, i, now)
  {
    var eps := ShowEpisodes(st.saved, st.tracked[i].tvdbId);
    WhereSpec(st.saved, (r: DownloadRequest) => r.mediaType == "Episode" && r.tvdbId == st.tracked[i].tvdbId);
    assert Rows(st'.tracked, eps) == Rows(st.tracked, eps);
  }

  /** The sweeper's loop over downloading shows settles each of them as if
      it were the only one, and leaves every other row as it was. */
  lemma {:induction false} SettleShowsSpec(st: DbState, shows: seq<nat>, now: int)
    requires WellFormed(st)
    requires forall k :: 0 <= k < |shows| ==> shows[k] < |st.tracked| && st.saved[shows[k]].mediaType == "show"
    requires forall j, k :: 0 <= j < k < |shows| ==> shows[j] < shows[k]
    ensures forall i :: 0 <= i < |st.tracked| ==>
      SettleShows(st, shows, now).tracked[i] == (if i in shows then SettledRow(st, i, now) else st.tracked[i])
  {
    if shows != [] {
      var init := shows[..|shows| - 1];
      var j := shows[|shows| - 1];
      SettleShowsSpec(st, init, now);
      var prev := SettleShows(st, init, now);
      assert j !in init;
      SettledRowLocal(st, prev, j, now);
      SettleShowFrame(prev, j, now);
      assert forall i :: i in shows <==> i in init || i == j;
    }
  }

  /** The final step of the sweeper: every show row downloading in the
      database is settled from its episodes, every other row is kept, and
      everything is saved. */
  lemma SweepShowsSpec(st: DbState, now: int)
    requires KeysAgree(st)
    ensures var shows := DownloadingShows(st.saved);
      forall i :: 0 <= i < |st.tracked| ==>
        SaveChanges(SettleShows(st, shows, now)).saved[i] ==
          (if st.saved[i].mediaType == "show" && st.saved[i].status == "downloading"
           then SettledRow(st, i, now) else st.tracked[i])
  {
    var shows := DownloadingShows(st.saved);
    WhereSpec(st.saved, (r: DownloadRequest) => r.mediaType == "show" && r.status == "downloading");
    SettleShowsSpec(st, shows, now);
  }
}
