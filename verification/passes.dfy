/** The download processor's passes as functions of the database context
    and of what the outside services answer. The class in the
    `DownloadProcessor` module runs them step by step; this module says
    what each step does. */
module Passes {
  import opened Wrappers
  import opened Requests
  import opened Progress
  import opened TorrentHealth
  import opened Queue
  import opened Inventory
  import opened SeriesAggregate

  // ---------------------------------------------------------------------
  // The database context
  // ---------------------------------------------------------------------

  /** One database context: `saved` is the `DownloadRequests` table as the
      database holds it, `tracked` the same rows as the context's entities
      hold them (edits not yet saved included), `added` the rows added and
      not yet saved, and `movies` and `shows` the inventory tables.
      Queries select on `saved` and hand back the entities of `tracked`. */
  datatype DbState = DbState(
    saved: seq<DownloadRequest>,
    tracked: seq<DownloadRequest>,
    added: seq<DownloadRequest>,
    movies: seq<DownloadedMovie>,
    shows: seq<DownloadedShow>)

  predicate WellFormed(st: DbState) {
    |st.saved| == |st.tracked|
  }

  /** Nothing waits to be saved. */
  predicate Clean(st: DbState) {
    st.saved == st.tracked && st.added == []
  }

  /** Every entity still has the keys of its saved row. */
  predicate KeysAgree(st: DbState) {
    WellFormed(st) && forall i :: 0 <= i < |st.saved| ==> Keys(st.saved[i]) == Keys(st.tracked[i])
  }

  /** `SaveChanges`: every edit and every added row goes to the database. */
  function SaveChanges(st: DbState): (r: DbState)
    ensures Clean(r)
    ensures r.saved == st.tracked + st.added && r.movies == st.movies && r.shows == st.shows
  {
    DbState(st.tracked + st.added, st.tracked + st.added, [], st.movies, st.shows)
  }

  /** `ScrapeRadarrMovies`: the movie table is replaced by Radarr's library,
      and the save commits everything else pending in the context too. */
  function ScrapeMovies(st: DbState, library: seq<RadarrMovie>): (r: DbState)
    ensures Clean(r) && r.saved == st.tracked + st.added
    ensures r.movies == MovieRows(library) && r.shows == st.shows
  {
    SaveChanges(st).(movies := MovieRows(library))
  }

  /** `ScrapeSonarrShows`, likewise for the show table; it throws, before
      touching anything, when some series of the library cannot be read. */
  function ScrapeShows(st: DbState, library: seq<SonarrShow>): (o: Outcome)
    ensures o.ok <==> LibraryReadable(library)
    ensures o.ok ==> Clean(o.st) && o.st.saved == st.tracked + st.added && o.st.movies == st.movies
    ensures o.ok ==> o.st.shows == ShowRows(library)
    ensures !o.ok ==> o.st == st
  {
    match ScrapeShowRows(library)
    case None => Outcome(st, false)
    case Some(rows) => Outcome(SaveChanges(st).(shows := rows), true)
  }

  /** The entities at `positions`. */
  function Rows(tracked: seq<DownloadRequest>, positions: seq<nat>): (rows: seq<DownloadRequest>)
    requires forall k :: 0 <= k < |positions| ==> positions[k] < |tracked|
    ensures |rows| == |positions|
    ensures forall k :: 0 <= k < |positions| ==> rows[k] == tracked[positions[k]]
  {
    seq(|positions|, k requires 0 <= k < |positions| => tracked[positions[k]])
  }

  /** What the outside world answers during one run: the clock, the two
      download queues, qBittorrent's torrent list, Radarr's movie lookups
      (movie id to TMDB id; a missing id is a failed call), Sonarr's series
      lookups (series id to TVDB id) and episode lists, and the two
      libraries the scrapes read. */
  datatype World = World(
    now: int,
    radarrQueue: seq<RadarrQueueRecord>,
    sonarrQueue: seq<SonarrQueueRecord>,
    torrents: seq<TorrentInfo>,
    tmdbOf: map<int, int>,
    seriesTvdb: map<int, int>,
    episodesOf: map<int, seq<SonarrEpisode>>,
    movieLibrary: seq<RadarrMovie>,
    showLibrary: seq<SonarrShow>)

  /** A context after some steps, and whether the pass is still running
      (`false` once an exception has ended it). */
  datatype Outcome = Outcome(st: DbState, ok: bool)

  /** A context after a whole pass, and the commands the pass sent. */
  datatype PassResult = PassResult(st: DbState, cmds: seq<Command>)

  // ---------------------------------------------------------------------
  // Radarr
  // ---------------------------------------------------------------------

  /** A movie request the Radarr pass still watches. */
  predicate ActiveMovie(r: DownloadRequest) {
    r.mediaType == "movie" && (r.status == "queued" || r.status == "downloading" || r.status == "warning")
  }

  /** The first movie request for a TMDB id. */
  function MovieRequestFor(saved: seq<DownloadRequest>, tmdbId: int): Option<nat> {
    FirstWhere(saved, (r: DownloadRequest) => r.mediaType == "movie" && r.tmdbId == Some(tmdbId))
  }

  /** The progress a Radarr queue record writes onto its movie request. */
  function TrackRadarrRecord(row: DownloadRequest, rec: RadarrQueueRecord, now: int): DownloadRequest {
    row.(status := GetDownloadStatus(rec.status),
         downloadPercentage := GetDownloadPercentage(rec.size, rec.sizeLeft),
         minutesLeft := ParseTimeLeftToMinutes(rec.timeLeft),
         updatedAt := Some(now),
         mediaId := rec.movieId)
  }

  /** One iteration of `ProcessRadarrQueueItems`. A record without a movie id,
      or whose movie lookup fails, throws; a record whose movie nobody
      requested is skipped; a movie that just completed gets its completion
      time and triggers a movie scrape, which saves the context. */
  function RadarrItem(st: DbState, rec: RadarrQueueRecord, w: World): (o: Outcome)
    requires WellFormed(st)
    ensures WellFormed(o.st)
  {
    if rec.movieId.None? || rec.movieId.value !in w.tmdbOf then Outcome(st, false)
    else
      match MovieRequestFor(st.saved, w.tmdbOf[rec.movieId.value])
      case None => Outcome(st, true)
      case Some(i) =>
        var row := TrackRadarrRecord(st.tracked[i], rec, w.now);
        if row.status == "completed" && row.completedAt.None? then
          Outcome(ScrapeMovies(st.(tracked := st.tracked[i := row.(completedAt := Some(w.now))]), w.movieLibrary), true)
        else
          Outcome(st.(tracked := st.tracked[i := row]), true)
  }

  /** The loop of `ProcessRadarrQueueItems` over the records, stopping at the
      first exception. */
  function RadarrItems(st: DbState, recs: seq<RadarrQueueRecord>, w: World): (o: Outcome)
    requires WellFormed(st)
    ensures WellFormed(o.st)
  {
    if recs == [] then Outcome(st, true)
    else
      var prev := RadarrItems(st, recs[..|recs| - 1], w);
      if !prev.ok then prev else RadarrItem(prev.st, recs[|recs| - 1], w)
  }

  /** Once a record has thrown, the later records change nothing. */
  lemma {:induction false} RadarrItemsStopped(st: DbState, recs: seq<RadarrQueueRecord>, w: World, k: nat)
    requires WellFormed(st) && k <= |recs| && !RadarrItems(st, recs[..k], w).ok
    ensures RadarrItems(st, recs, w) == RadarrItems(st, recs[..k], w)
    decreases |recs| - k
  {
    if k < |recs| {
      assert recs[..k + 1][..k] == recs[..k];
      RadarrItemsStopped(st, recs, w, k + 1);
    } else {
      assert recs[..k] == recs;
    }
  }

  /** `ProcessRadarrQueueItems`: the loop, then a save when it ran through. */
  function ProcessRadarrItems(st: DbState, recs: seq<RadarrQueueRecord>, w: World): (o: Outcome)
    requires WellFormed(st)
    ensures WellFormed(o.st)
  {
    var o := RadarrItems(st, recs, w);
    if o.ok then Outcome(SaveChanges(o.st), true) else o
  }

  /** `ProcessRadarrQueue`: poke Radarr; stop unless some movie request is
      active and the queue has records; cull the stalled torrents (removing
      their queue items and searching their movies again); then update the
      movie requests from the queue. */
  function RadarrPass(st: DbState, w: World): (r: PassResult)
    requires WellFormed(st)
    ensures WellFormed(r.st)
  {
    var poke := [RefreshMonitoredDownloads(Radarr)];
    if !(exists i :: 0 <= i < |st.saved| && ActiveMovie(st.saved[i])) || w.radarrQueue == [] then
      PassResult(st, poke)
    else
      var entries := RadarrEntries(w.radarrQueue);
      var cull := CullCommands(Radarr, entries, CullList(TorrentIds(entries), w.torrents, w.now));
      if !cull.ok then PassResult(st, poke + cull.cmds)
      else PassResult(ProcessRadarrItems(st, w.radarrQueue, w).st, poke + cull.cmds)
  }

  // ---------------------------------------------------------------------
  // Sonarr
  // ---------------------------------------------------------------------

  /** A series or episode request the Sonarr pass still watches. */
  predicate ActiveSeries(r: DownloadRequest) {
    (r.mediaType == "show" || r.mediaType == "Episode") && (r.status == "queued" || r.status == "downloading")
  }

  /** The episode ids of a series group, in queue order. */
  function EpisodeIds(items: seq<SonarrQueueRecord>): (ids: seq<int>)
    ensures forall x :: x in ids <==> exists k :: 0 <= k < |items| && items[k].episodeId == Some(x)
  {
    if items == [] then []
    else
      var init := EpisodeIds(items[..|items| - 1]);
      assert forall k :: 0 <= k < |items| - 1 ==> items[..|items| - 1][k] == items[k];
      match items[|items| - 1].episodeId
      case Some(x) => init + [x]
      case None => init
  }

  /** The episode requests for any of `ids`. */
  function ExistingEpisodes(saved: seq<DownloadRequest>, ids: seq<int>): seq<nat> {
    Where(saved, (r: DownloadRequest) => r.mediaType == "Episode" && r.episodeId.Some? && r.episodeId.value in ids)
  }

  /** The first queue item of the group for an episode. */
  function MatchingItem(items: seq<SonarrQueueRecord>, episodeId: Option<int>): Option<nat> {
    FirstWhere(items, (q: SonarrQueueRecord) => q.episodeId == episodeId)
  }

  /** The progress a Sonarr queue record writes onto its episode request. */
  function TrackSonarrRecord(row: DownloadRequest, q: SonarrQueueRecord, now: int): DownloadRequest {
    row.(status := GetDownloadStatus(q.status),
         downloadPercentage := GetDownloadPercentage(q.size, q.sizeLeft),
         minutesLeft := Some(GetMinutesLeft(q.size, q.sizeLeft, q.timeLeft)),
         updatedAt := Some(now))
  }

  /** One iteration of `UpdateExistingSonarrDownloads`: an episode that just
      completed gets its completion time and triggers a show scrape, which
      saves the context, or throws with the completion time set and not
      saved. */
  function UpdateOne(st: DbState, i: nat, items: seq<SonarrQueueRecord>, w: World): (o: Outcome)
    requires WellFormed(st) && i < |st.tracked|
    ensures WellFormed(o.st) && |o.st.tracked| >= |st.tracked|
    ensures !o.ok ==> !LibraryReadable(w.showLibrary)
  {
    match MatchingItem(items, st.tracked[i].episodeId)
    case None => Outcome(st, true)
    case Some(k) =>
      var row := TrackSonarrRecord(st.tracked[i], items[k], w.now);
      if row.status == "completed" && row.completedAt.None? then
        ScrapeShows(st.(tracked := st.tracked[i := row.(completedAt := Some(w.now))]), w.showLibrary)
      else
        Outcome(st.(tracked := st.tracked[i := row]), true)
  }

  /** `UpdateExistingSonarrDownloads` over the episode requests at
      `existing`, stopping at the first exception. */
  function UpdateExisting(st: DbState, existing: seq<nat>, items: seq<SonarrQueueRecord>, w: World): (o: Outcome)
    requires WellFormed(st)
    requires forall k :: 0 <= k < |existing| ==> existing[k] < |st.tracked|
    ensures WellFormed(o.st) && |o.st.tracked| >= |st.tracked|
    ensures !o.ok ==> !LibraryReadable(w.showLibrary)
  {
    if existing == [] then Outcome(st, true)
    else
      var prev := UpdateExisting(st, existing[..|existing| - 1], items, w);
      if !prev.ok then prev else UpdateOne(prev.st, existing[|existing| - 1], items, w)
  }

  /** Once an update has thrown, the later requests are left alone. */
  lemma {:induction false} UpdateExistingStopped(st: DbState, existing: seq<nat>, items: seq<SonarrQueueRecord>, w: World, k: nat)
    requires WellFormed(st)
    requires forall j :: 0 <= j < |existing| ==> existing[j] < |st.tracked|
    requires k <= |existing| && !UpdateExisting(st, existing[..k], items, w).ok
    ensures UpdateExisting(st, existing, items, w) == UpdateExisting(st, existing[..k], items, w)
    decreases |existing| - k
  {
    if k < |existing| {
      assert existing[..k + 1][..k] == existing[..k];
      UpdateExistingStopped(st, existing, items, w, k + 1);
    } else {
      assert existing[..k] == existing;
    }
  }

  /** The episode ids the existing requests carry. */
  function ExistingIds(tracked: seq<DownloadRequest>, existing: seq<nat>): seq<Option<int>>
    requires forall k :: 0 <= k < |existing| ==> existing[k] < |tracked|
  {
    seq(|existing|, k requires 0 <= k < |existing| => tracked[existing[k]].episodeId)
  }

  /** The group's episode ids that no existing request carries. */
  function MissingIds(ids: seq<int>, have: seq<Option<int>>): (missing: seq<int>)
    ensures forall x :: x in missing <==> x in ids && Some(x) !in have
  {
    if ids == [] then []
    else
      var init := MissingIds(ids[..|ids| - 1], have);
      var x := ids[|ids| - 1];
      assert forall y :: y in ids <==> y in ids[..|ids| - 1] || y == x;
      if Some(x) !in have then init + [x] else init
  }

  /** The group's queue items for the missing ids, in queue order. */
  function ItemsWithIds(items: seq<SonarrQueueRecord>, missing: seq<int>): (r: seq<SonarrQueueRecord>)
    ensures forall q :: q in r <==> q in items && q.episodeId.Some? && q.episodeId.value in missing
  {
    if items == [] then []
    else
      var init := ItemsWithIds(items[..|items| - 1], missing);
      var q := items[|items| - 1];
      assert forall y :: y in items <==> y in items[..|items| - 1] || y == q;
      if q.episodeId.Some? && q.episodeId.value in missing then init + [q] else init
  }

  /** The first parent row of a series with a TVDB id. */
  function ParentFor(saved: seq<DownloadRequest>, tvdbId: Option<int>): Option<nat> {
    FirstWhere(saved, (r: DownloadRequest) => IsSeriesParent(r) && r.tvdbId == tvdbId)
  }

  /** The first entry of Sonarr's episode list with an id. */
  function FindEpisode(episodes: seq<SonarrEpisode>, episodeId: Option<int>): Option<nat> {
    FirstWhere(episodes, (e: SonarrEpisode) => Some(e.id) == episodeId)
  }

  /** The request `AddMissingEpisodes` creates for a queue item. */
  function NewEpisodeRow(q: SonarrQueueRecord, e: SonarrEpisode, seriesId: int, tvdbId: int, userId: int, now: int): DownloadRequest {
    DownloadRequest(
      0, userId, "Episode", Some(e.title), None, None,
      None, Some(tvdbId), Some(seriesId), q.episodeId,
      if e.airDate.Some? then Some(e.airDate.value.year) else None,
      Some(e.seasonNumber), Some(e.episodeNumber),
      if e.airDate.Some? then Some(e.airDate.value.instant) else None,
      GetDownloadStatus(q.status),
      GetDownloadPercentage(q.size, q.sizeLeft),
      ParseTimeLeftToMinutes(q.timeLeft),
      now, Some(now), None)
  }

  /** The loop of `AddMissingEpisodes`: a request per missing queue item
      whose episode Sonarr lists; items it does not list are skipped. */
  function NewEpisodeRows(items: seq<SonarrQueueRecord>, episodes: seq<SonarrEpisode>, seriesId: int, tvdbId: int, userId: int, now: int): (rows: seq<DownloadRequest>)
    ensures |rows| <= |items|
    ensures forall k :: 0 <= k < |rows| ==>
      rows[k].mediaType == "Episode" && rows[k].mediaId == Some(seriesId) && rows[k].tvdbId == Some(tvdbId) &&
      rows[k].userId == userId && rows[k].completedAt.None? && rows[k].requestedAt == now
    ensures forall k :: 0 <= k < |rows| ==> exists j :: 0 <= j < |items| && rows[k].episodeId == items[j].episodeId
  {
    if items == [] then []
    else
      var init := NewEpisodeRows(items[..|items| - 1], episodes, seriesId, tvdbId, userId, now);
      var q := items[|items| - 1];
      assert forall k :: 0 <= k < |items| - 1 ==> items[..|items| - 1][k] == items[k];
      match FindEpisode(episodes, q.episodeId)
      case None => init
      case Some(j) => init + [NewEpisodeRow(q, episodes[j], seriesId, tvdbId, userId, now)]
  }

  /** `AddMissingEpisodes`: look up the series' TVDB id, its parent request
      and its episode list; any failure ends the step with nothing added.
      The new requests are only added to the context, not saved. */
  function AddMissing(st: DbState, seriesId: int, items: seq<SonarrQueueRecord>, w: World): (r: DbState)
    requires WellFormed(st)
    ensures r.saved == st.saved && r.tracked == st.tracked && r.movies == st.movies && r.shows == st.shows
    ensures |r.added| >= |st.added| && r.added[..|st.added|] == st.added
  {
    if seriesId !in w.seriesTvdb then st
    else
      var tvdbId := w.seriesTvdb[seriesId];
      match ParentFor(st.saved, Some(tvdbId))
      case None => st
      case Some(p) =>
        if seriesId !in w.episodesOf || w.episodesOf[seriesId] == [] then st
        else
          var rows := NewEpisodeRows(items, w.episodesOf[seriesId], seriesId, tvdbId, st.tracked[p].userId, w.now);
          assert (st.added + rows)[..|st.added|] == st.added;
          st.(added := st.added + rows)
  }

  /** The saved episode requests of a Sonarr series. */
  function SeriesEpisodes(saved: seq<DownloadRequest>, seriesId: int): seq<nat> {
    Where(saved, (r: DownloadRequest) => r.mediaType == "Episode" && r.mediaId == Some(seriesId))
  }

  /** `UpdateParentSeriesProgress`: roll the series' saved episode requests
      up onto its parent request. Nothing changes when there are no
      episodes, the first has no TVDB id, no parent has that id, or summing
      the percentages overflows. */
  function UpdateParent(st: DbState, seriesId: int, now: int): (r: DbState)
    requires WellFormed(st)
    ensures r.saved == st.saved && r.added == st.added && |r.tracked| == |st.tracked|
    ensures r.movies == st.movies && r.shows == st.shows
  {
    var eps := SeriesEpisodes(st.saved, seriesId);
    if eps == [] then st
    else
      var tvdbId := st.tracked[eps[0]].tvdbId;
      if tvdbId.None? then st
      else
        match ParentFor(st.saved, tvdbId)
        case None => st
        case Some(p) =>
          match Aggregate(st.tracked[p], Rows(st.tracked, eps), now)
          case None => st
          case Some(row) => st.(tracked := st.tracked[p := row])
  }

  /** One series group of `ProcessSonarrQueueItems`: update the existing
      episode requests, add the missing ones, roll the series up. An
      exception while updating ends the group there (and the pass with it);
      the other two steps catch their own. */
  function SonarrGroup(st: DbState, g: SeriesGroup, w: World): (o: Outcome)
    requires WellFormed(st)
    ensures WellFormed(o.st)
    ensures !o.ok ==> !LibraryReadable(w.showLibrary)
  {
    var ids := EpisodeIds(g.items);
    var existing := ExistingEpisodes(st.saved, ids);
    var u := UpdateExisting(st, existing, g.items, w);
    if !u.ok then u
    else
      var st1 := u.st;
      var missing := MissingIds(ids, ExistingIds(st1.tracked, existing));
      var st2 := if missing == [] then st1 else AddMissing(st1, g.seriesId, ItemsWithIds(g.items, missing), w);
      Outcome(UpdateParent(st2, g.seriesId, w.now), true)
  }

  /** The loop of `ProcessSonarrQueueItems` over the series groups, stopping
      at the first exception. */
  function SonarrGroups(st: DbState, groups: seq<SeriesGroup>, w: World): (o: Outcome)
    requires WellFormed(st)
    ensures WellFormed(o.st)
    ensures !o.ok ==> !LibraryReadable(w.showLibrary)
  {
    if groups == [] then Outcome(st, true)
    else
      var prev := SonarrGroups(st, groups[..|groups| - 1], w);
      if !prev.ok then prev else SonarrGroup(prev.st, groups[|groups| - 1], w)
  }

  /** Once a group has thrown, the later groups change nothing. */
  lemma {:induction false} SonarrGroupsStopped(st: DbState, groups: seq<SeriesGroup>, w: World, k: nat)
    requires WellFormed(st) && k <= |groups| && !SonarrGroups(st, groups[..k], w).ok
    ensures SonarrGroups(st, groups, w) == SonarrGroups(st, groups[..k], w)
    decreases |groups| - k
  {
    if k < |groups| {
      assert groups[..k + 1][..k] == groups[..k];
      SonarrGroupsStopped(st, groups, w, k + 1);
    } else {
      assert groups[..k] == groups;
    }
  }

  /** `ProcessSonarrQueueItems`: every series group in turn, then a save,
      which an exception skips. */
  function ProcessSonarrItems(st: DbState, recs: seq<SonarrQueueRecord>, w: World): (o: Outcome)
    requires WellFormed(st)
    ensures WellFormed(o.st)
    ensures o.ok ==> Clean(o.st)
    ensures !o.ok ==> !LibraryReadable(w.showLibrary)
  {
    var o := SonarrGroups(st, GroupBySeries(recs), w);
    if o.ok then Outcome(SaveChanges(o.st), true) else o
  }

  /** `ProcessSonarrQueue`, shaped like the Radarr pass. */
  function SonarrPass(st: DbState, w: World): (r: PassResult)
    requires WellFormed(st)
    ensures WellFormed(r.st)
  {
    var poke := [RefreshMonitoredDownloads(Sonarr)];
    if !(exists i :: 0 <= i < |st.saved| && ActiveSeries(st.saved[i])) || w.sonarrQueue == [] then
      PassResult(st, poke)
    else
      var entries := SonarrEntries(w.sonarrQueue);
      var cull := CullCommands(Sonarr, entries, CullList(TorrentIds(entries), w.torrents, w.now));
      if !cull.ok then PassResult(st, poke + cull.cmds)
      else PassResult(ProcessSonarrItems(st, w.sonarrQueue, w).st, poke + cull.cmds)
  }

  // ---------------------------------------------------------------------
  // The stuck-media sweep
  // ---------------------------------------------------------------------

  /** How long a download may go without an update before the sweeper
      calls it finished: two minutes. */
  const StuckAfterSeconds := 120

  /** A downloading request of `mediaType` not updated since `cutoff`; a
      request never updated is not stuck. */
  predicate Stuck(r: DownloadRequest, mediaType: string, cutoff: int) {
    r.mediaType == mediaType && r.status == "downloading" && r.updatedAt.Some? && r.updatedAt.value <= cutoff
  }

  function StuckRows(saved: seq<DownloadRequest>, mediaType: string, cutoff: int): seq<nat> {
    Where(saved, (r: DownloadRequest) => Stuck(r, mediaType, cutoff))
  }

  /** Finalise the entities at `positions`. */
  function FinaliseAt(st: DbState, positions: seq<nat>, now: int): (r: DbState)
    requires WellFormed(st)
    requires forall k :: 0 <= k < |positions| ==> positions[k] < |st.tracked|
    ensures WellFormed(r) && |r.tracked| == |st.tracked|
    ensures r.saved == st.saved && r.added == st.added && r.movies == st.movies && r.shows == st.shows
  {
    if positions == [] then st
    else
      var prev := FinaliseAt(st, positions[..|positions| - 1], now);
      var i := positions[|positions| - 1];
      prev.(tracked := prev.tracked[i := Finalise(prev.tracked[i], now)])
  }

  /** The downloading parent rows (spelled "show") the sweeper settles. */
  function DownloadingShows(saved: seq<DownloadRequest>): seq<nat> {
    Where(saved, (r: DownloadRequest) => r.mediaType == "show" && r.status == "downloading")
  }

  /** The saved episode requests sharing a TVDB id (both absent counts as
      sharing). */
  function ShowEpisodes(saved: seq<DownloadRequest>, tvdbId: Option<int>): seq<nat> {
    Where(saved, (r: DownloadRequest) => r.mediaType == "Episode" && r.tvdbId == tvdbId)
  }

  predicate AllRowsCompleted(rows: seq<DownloadRequest>) {
    forall k :: 0 <= k < |rows| ==> rows[k].status == "completed"
  }

  /** One iteration of the sweeper's loop over downloading shows: the show
      takes the series id of its first episode (or loses it when it has
      none) and is finalised when all its episodes are completed, which
      includes having no episodes at all. */
  function SettleShow(st: DbState, i: nat, now: int): (r: DbState)
    requires WellFormed(st) && i < |st.tracked|
    ensures WellFormed(r) && |r.tracked| == |st.tracked|
    ensures r.saved == st.saved && r.added == st.added && r.movies == st.movies && r.shows == st.shows
  {
    var eps := ShowEpisodes(st.saved, st.tracked[i].tvdbId);
    var rows := Rows(st.tracked, eps);
    var show := st.tracked[i].(mediaId := if eps == [] then None else rows[0].mediaId);
    st.(tracked := st.tracked[i := if AllRowsCompleted(rows) then Finalise(show, now) else show])
  }

  function SettleShows(st: DbState, shows: seq<nat>, now: int): (r: DbState)
    requires WellFormed(st)
    requires forall k :: 0 <= k < |shows| ==> shows[k] < |st.tracked|
    ensures WellFormed(r) && |r.tracked| == |st.tracked|
    ensures r.saved == st.saved && r.added == st.added && r.movies == st.movies && r.shows == st.shows
  {
    if shows == [] then st
    else SettleShow(SettleShows(st, shows[..|shows| - 1], now), shows[|shows| - 1], now)
  }

  /** The sweep after the movie step: stuck movies finalised, then a movie
      scrape, which saves. */
  function SweepMovies(st: DbState, w: World): (r: DbState)
    requires WellFormed(st)
    ensures WellFormed(r)
  {
    var stuck := StuckRows(st.saved, "movie", w.now - StuckAfterSeconds);
    if stuck == [] then st else ScrapeMovies(FinaliseAt(st, stuck, w.now), w.movieLibrary)
  }

  /** The episode step, likewise with a show scrape, which may throw. */
  function SweepEpisodes(st: DbState, w: World): (o: Outcome)
    requires WellFormed(st)
    ensures WellFormed(o.st)
    ensures o.ok <==> StuckRows(st.saved, "Episode", w.now - StuckAfterSeconds) == [] || LibraryReadable(w.showLibrary)
  {
    var stuck := StuckRows(st.saved, "Episode", w.now - StuckAfterSeconds);
    if stuck == [] then Outcome(st, true) else ScrapeShows(FinaliseAt(st, stuck, w.now), w.showLibrary)
  }

  /** `ProcessStuckMedia`: finalise stuck movies, then stuck episodes, then
      settle the downloading shows, and save. It catches nothing: a throwing
      show scrape skips the settling and the save. */
  function Sweep(st: DbState, w: World): (o: Outcome)
    requires WellFormed(st)
    ensures WellFormed(o.st)
    ensures o.ok ==> Clean(o.st)
    ensures o.ok <==> SweepEpisodes(SweepMovies(st, w), w).ok
  {
    var e := SweepEpisodes(SweepMovies(st, w), w);
    if !e.ok then e
    else Outcome(SaveChanges(SettleShows(e.st, DownloadingShows(e.st.saved), w.now)), true)
  }

  /** The end of a tick's scope: the context is disposed and whatever it
      had not saved is lost; the next tick starts from the database. */
  function EndScope(st: DbState): (r: DbState)
    ensures Clean(r)
    ensures r.saved == st.saved && r.movies == st.movies && r.shows == st.shows
  {
    DbState(st.saved, st.saved, [], st.movies, st.shows)
  }

  /** One tick of the background service: the Sonarr pass, the Radarr pass
      and the sweep, sharing one context, which is disposed at the end; an
      exception from the sweep is caught and logged by the service. */
  function Tick(st: DbState, w: World): (r: PassResult)
    requires WellFormed(st)
    ensures Clean(r.st)
  {
    var s := SonarrPass(st, w);
    var m := RadarrPass(s.st, w);
    PassResult(EndScope(Sweep(m.st, w).st), s.cmds + m.cmds)
  }
}
