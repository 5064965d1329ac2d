/** What the download processor receives from Radarr and Sonarr (their queue
    records and Sonarr's episode list) and the commands it sends back. */
module Queue {
  import opened Wrappers
  import opened Text
  import opened Requests

  /** One record of Radarr's download queue. Sizes are bytes. */
  datatype RadarrQueueRecord = RadarrQueueRecord(
    id: int,
    movieId: Option<int>,
    status: Option<string>,
    size: Option<int>,
    sizeLeft: Option<int>,
    timeLeft: Option<string>,
    torrentId: Option<string>)

  /** One record of Sonarr's download queue. */
  datatype SonarrQueueRecord = SonarrQueueRecord(
    id: int,
    seriesId: Option<int>,
    episodeId: Option<int>,
    status: Option<string>,
    size: Option<int>,
    sizeLeft: Option<int>,
    timeLeft: Option<string>,
    torrentId: Option<string>)

  /** An air date as `DateTime.TryParse` reads it: its year and its instant
      in seconds. */
  datatype AirDate = AirDate(year: int, instant: int)

  /** One entry of Sonarr's episode list for a series; `airDate` is `None`
      when the date is missing, empty or unparsable. */
  datatype SonarrEpisode = SonarrEpisode(id: int, seasonNumber: int, episodeNumber: int, title: string, airDate: Option<AirDate>)

  datatype App = Radarr | Sonarr

  /** The requests the processor sends: the refresh poke, the deletion of a
      queue item, and a new search (`MoviesSearch` for Radarr with a movie
      id, `EpisodeSearch` for Sonarr with an episode id). */
  datatype Command =
    | RefreshMonitoredDownloads(app: App)
    | RemoveQueueItem(app: App, queueId: int)
    | SearchAgain(app: App, searchId: int)

  /** The parts of a queue record the culling step reads: the queue item's
      id, its torrent id, and the id to search for again. */
  datatype QueueEntry = QueueEntry(queueId: int, torrentId: Option<string>, searchId: Option<int>)

  function RadarrEntries(records: seq<RadarrQueueRecord>): (es: seq<QueueEntry>)
    ensures |es| == |records|
    ensures forall k :: 0 <= k < |records| ==>
      es[k] == QueueEntry(records[k].id, records[k].torrentId, records[k].movieId)
  {
    if records == [] then []
    else [QueueEntry(records[0].id, records[0].torrentId, records[0].movieId)] + RadarrEntries(records[1..])
  }

  function SonarrEntries(records: seq<SonarrQueueRecord>): (es: seq<QueueEntry>)
    ensures |es| == |records|
    ensures forall k :: 0 <= k < |records| ==>
      es[k] == QueueEntry(records[k].id, records[k].torrentId, records[k].episodeId)
  {
    if records == [] then []
    else [QueueEntry(records[0].id, records[0].torrentId, records[0].episodeId)] + SonarrEntries(records[1..])
  }

  /** A queue entry that names a torrent. */
  predicate HasTorrent(e: QueueEntry) {
    !IsNullOrEmpty(e.torrentId)
  }

  /** The torrent ids of the queue: one per entry naming a torrent, in queue
      order, so a season pack held by several records appears once per
      record. */
  function TorrentIds(entries: seq<QueueEntry>): (ids: seq<string>)
    ensures |ids| == |Where(entries, HasTorrent)|
    ensures forall k :: 0 <= k < |ids| ==> Some(ids[k]) == entries[Where(entries, HasTorrent)[k]].torrentId
    ensures forall x :: x in ids <==> x != "" && exists e :: e in entries && e.torrentId == Some(x)
  {
    if entries == [] then []
    else
      var front := entries[..|entries| - 1];
      var e := entries[|entries| - 1];
      var init := TorrentIds(front);
      assert forall k :: 0 <= k < |front| ==> front[k] == entries[k];
      assert forall d :: d in entries <==> d in front || d == e;
      if HasTorrent(e) then init + [e.torrentId.value] else init
  }

  /** The number of queue entries holding torrent `x`. */
  function Holding(entries: seq<QueueEntry>, x: string): nat {
    if entries == [] then 0
    else Holding(entries[..|entries| - 1], x) + (if entries[|entries| - 1].torrentId == Some(x) then 1 else 0)
  }

  /** A torrent id occurs in the list as often as queue entries hold it. */
  lemma {:induction false} TorrentIdsCount(entries: seq<QueueEntry>, x: string)
    requires x != ""
    ensures multiset(TorrentIds(entries))[x] == Holding(entries, x)
  {
    if entries != [] {
      TorrentIdsCount(entries[..|entries| - 1], x);
    }
  }

  /** The first queue entry whose torrent id equals `id`, ignoring case. */
  function FirstByTorrent(entries: seq<QueueEntry>, id: string): (r: Option<nat>)
    ensures r.Some? ==>
      r.value < |entries| && entries[r.value].torrentId.Some? && EqualsIgnoreCase(entries[r.value].torrentId.value, id)
    ensures r.None? ==> forall e :: e in entries && e.torrentId.Some? ==> !EqualsIgnoreCase(e.torrentId.value, id)
    ensures r.Some? ==> forall j :: 0 <= j < r.value ==>
      !(entries[j].torrentId.Some? && EqualsIgnoreCase(entries[j].torrentId.value, id))
  {
    if entries == [] then None
    else if entries[0].torrentId.Some? && EqualsIgnoreCase(entries[0].torrentId.value, id) then Some(0)
    else match FirstByTorrent(entries[1..], id)
      case Some(k) => Some(k + 1)
      case None => None
  }

  /** Commands issued so far, and whether the pass may go on. */
  datatype Commands = Commands(cmds: seq<Command>, ok: bool)

  /** The culling loop of a queue pass: for each culled torrent, the queue
      item holding it is removed and its movie or episode searched again; a
      queue item without a movie or episode id throws after the removal, and
      the rest of the pass is skipped. */
  function CullCommands(app: App, entries: seq<QueueEntry>, culled: seq<string>): (c: Commands)
    ensures |c.cmds| <= 2 * |culled|
    ensures c.ok <==> |c.cmds| % 2 == 0
    ensures !c.ok ==> c.cmds[|c.cmds| - 1].RemoveQueueItem?
  {
    if culled == [] then Commands([], true)
    else
      var prev := CullCommands(app, entries, culled[..|culled| - 1]);
      if !prev.ok then prev
      else
        match FirstByTorrent(entries, culled[|culled| - 1])
        case None => prev
        case Some(k) =>
          if entries[k].searchId.None? then Commands(prev.cmds + [RemoveQueueItem(app, entries[k].queueId)], false)
          else Commands(prev.cmds + [RemoveQueueItem(app, entries[k].queueId), SearchAgain(app, entries[k].searchId.value)], true)
  }

  /** The queue item that a culled torrent id leads to has a search id. */
  predicate Searchable(entries: seq<QueueEntry>, id: string) {
    match FirstByTorrent(entries, id)
    case None => true
    case Some(k) => entries[k].searchId.Some?
  }

  /** The culling loop runs to its end exactly when every culled torrent's
      queue item has a movie or episode id. */
  lemma {:induction false} CullCommandsOk(app: App, entries: seq<QueueEntry>, culled: seq<string>)
    ensures CullCommands(app, entries, culled).ok <==> forall k :: 0 <= k < |culled| ==> Searchable(entries, culled[k])
  {
    if culled != [] {
      var init := culled[..|culled| - 1];
      CullCommandsOk(app, entries, init);
      assert forall k :: 0 <= k < |init| ==> init[k] == culled[k];
    }
  }

  /** The commands come in pairs: the removal of a queue item, then the
      search for that item's movie or episode. */
  ghost predicate Paired(app: App, entries: seq<QueueEntry>, cmds: seq<Command>) {
    |cmds| % 2 == 0 &&
    forall k :: 0 <= k < |cmds| / 2 ==>
      exists e :: (e in entries && e.searchId.Some? &&
        cmds[2 * k] == RemoveQueueItem(app, e.queueId) && cmds[2 * k + 1] == SearchAgain(app, e.searchId.value))
  }

  /** How many of the culled ids lead to a queue item. */
  function FoundCount(entries: seq<QueueEntry>, culled: seq<string>): nat {
    if culled == [] then 0
    else FoundCount(entries, culled[..|culled| - 1]) + (if FirstByTorrent(entries, culled[|culled| - 1]).Some? then 1 else 0)
  }

  /** At position `p` of `cmds` stand the removal of queue item `e` and the
      search for its movie or episode. */
  predicate PairAt(app: App, cmds: seq<Command>, p: int, e: QueueEntry) {
    0 <= p && p + 1 < |cmds| && e.searchId.Some? &&
    cmds[p] == RemoveQueueItem(app, e.queueId) && cmds[p + 1] == SearchAgain(app, e.searchId.value)
  }

  /** When the loop runs to its end, it issues one removal and one search per
      culled torrent found in the queue, in pairs. */
  lemma {:induction false} CullCommandsPaired(app: App, entries: seq<QueueEntry>, culled: seq<string>)
    requires CullCommands(app, entries, culled).ok
    ensures Paired(app, entries, CullCommands(app, entries, culled).cmds)
    ensures |CullCommands(app, entries, culled).cmds| <= 2 * |culled|
  {
    if culled != [] {
      var init := culled[..|culled| - 1];
      var prev := CullCommands(app, entries, init);
      assert prev.ok;
      CullCommandsPaired(app, entries, init);
      var now := CullCommands(app, entries, culled);
      match FirstByTorrent(entries, culled[|culled| - 1])
      case None =>
        assert now.cmds == prev.cmds;
      case Some(j) =>
        var e := entries[j];
        assert e in entries;
        assert now.cmds == prev.cmds + [RemoveQueueItem(app, e.queueId), SearchAgain(app, e.searchId.value)];
        forall k | 0 <= k < |now.cmds| / 2
          ensures exists e :: (e in entries && e.searchId.Some? &&
            now.cmds[2 * k] == RemoveQueueItem(app, e.queueId) &&
            now.cmds[2 * k + 1] == SearchAgain(app, e.searchId.value))
        {
          if k < |prev.cmds| / 2 {
            assert now.cmds[2 * k] == prev.cmds[2 * k];
            assert now.cmds[2 * k + 1] == prev.cmds[2 * k + 1];
          } else {
            assert 2 * k == |prev.cmds|;
          }
        }
    }
  }

  /** Which pair belongs to which culled id: when the loop runs to its end,
      it sends exactly one pair per culled id found in the queue, in the
      order of the cull list, and the k-th culled id that is found has its
      first queue item removed and searched for right after the pairs of
      the earlier ids. */
  lemma {:induction false} CullCommandsInOrder(app: App, entries: seq<QueueEntry>, culled: seq<string>)
    requires CullCommands(app, entries, culled).ok
    ensures |CullCommands(app, entries, culled).cmds| == 2 * FoundCount(entries, culled)
    ensures forall k :: 0 <= k < |culled| && FirstByTorrent(entries, culled[k]).Some? ==>
      PairAt(app, CullCommands(app, entries, culled).cmds, 2 * FoundCount(entries, culled[..k]),
             entries[FirstByTorrent(entries, culled[k]).value])
  {
    if culled != [] {
      var init := culled[..|culled| - 1];
      var prev := CullCommands(app, entries, init);
      assert prev.ok;
      CullCommandsInOrder(app, entries, init);
      var now := CullCommands(app, entries, culled);
      var last := FirstByTorrent(entries, culled[|culled| - 1]);
      var tail := if last.None? then [] else
        [RemoveQueueItem(app, entries[last.value].queueId), SearchAgain(app, entries[last.value].searchId.value)];
      assert now.cmds == prev.cmds + tail;
      forall k | 0 <= k < |culled| && FirstByTorrent(entries, culled[k]).Some?
        ensures PairAt(app, now.cmds, 2 * FoundCount(entries, culled[..k]), entries[FirstByTorrent(entries, culled[k]).value])
      {
        CullPairStep(app, entries, culled, init, k, prev.cmds, tail);
      }
    }
  }

  /** One step of `CullCommandsInOrder`: a pair of the earlier ids stays
      where it was, and the last id's pair follows them. */
  lemma CullPairStep(app: App, entries: seq<QueueEntry>, culled: seq<string>, init: seq<string>, k: nat,
                     prev: seq<Command>, tail: seq<Command>)
    requires k < |culled| && FirstByTorrent(entries, culled[k]).Some?
    requires init == culled[..|culled| - 1]
    requires |prev| == 2 * FoundCount(entries, init)
    requires forall i :: 0 <= i < |init| && FirstByTorrent(entries, init[i]).Some? ==>
      PairAt(app, prev, 2 * FoundCount(entries, init[..i]), entries[FirstByTorrent(entries, init[i]).value])
    requires k == |culled| - 1 ==> PairAt(app, prev + tail, |prev|, entries[FirstByTorrent(entries, culled[k]).value])
    ensures PairAt(app, prev + tail, 2 * FoundCount(entries, culled[..k]), entries[FirstByTorrent(entries, culled[k]).value])
  {
    if k < |init| {
      assert init[k] == culled[k] && init[..k] == culled[..k];
      var p := 2 * FoundCount(entries, culled[..k]);
      assert PairAt(app, prev, p, entries[FirstByTorrent(entries, init[k]).value]);
      assert (prev + tail)[p] == prev[p] && (prev + tail)[p + 1] == prev[p + 1];
    } else {
      assert culled[..k] == init;
    }
  }

  /** A torrent culled twice, as a season pack held by two queue records
      is, has the first queue item holding it removed and searched for
      again twice over. */
  lemma CullCommandsRepeat(app: App, entries: seq<QueueEntry>, x: string)
    requires FirstByTorrent(entries, x).Some? && entries[FirstByTorrent(entries, x).value].searchId.Some?
    ensures var e := entries[FirstByTorrent(entries, x).value];
      CullCommands(app, entries, [x, x]) == Commands(
        [RemoveQueueItem(app, e.queueId), SearchAgain(app, e.searchId.value),
         RemoveQueueItem(app, e.queueId), SearchAgain(app, e.searchId.value)], true)
  {
    var e := entries[FirstByTorrent(entries, x).value];
    var once := [RemoveQueueItem(app, e.queueId), SearchAgain(app, e.searchId.value)];
    assert [x][..0] == [];
    assert CullCommands(app, entries, [x]) == Commands(once, true);
    assert [x, x][..1] == [x];
    assert CullCommands(app, entries, [x, x]) == Commands(once + once, true);
  }

  /** Once a culled torrent has thrown, the later ones issue nothing. */
  lemma {:induction false} CullCommandsStopped(app: App, entries: seq<QueueEntry>, culled: seq<string>, k: nat)
    requires k <= |culled| && !CullCommands(app, entries, culled[..k]).ok
    ensures CullCommands(app, entries, culled) == CullCommands(app, entries, culled[..k])
    decreases |culled| - k
  {
    if k < |culled| {
      assert culled[..k + 1][..k] == culled[..k];
      CullCommandsStopped(app, entries, culled, k + 1);
    } else {
      assert culled[..k] == culled;
    }
  }

  /** The culling loop of a queue pass, sending its commands in order and
      stopping at the first queue item without a movie or episode id. */
  method RemoveAndSearchAgain(app: App, entries: seq<QueueEntry>, culled: seq<string>) returns (cmds: seq<Command>, ok: bool)
    ensures Commands(cmds, ok) == CullCommands(app, entries, culled)
  {
    cmds, ok := [], true;
    var k := 0;
    while k < |culled| && ok
      invariant 0 <= k <= |culled|
      invariant Commands(cmds, ok) == CullCommands(app, entries, culled[..k])
    {
      assert culled[..k + 1][..k] == culled[..k];
      var found := FirstByTorrent(entries, culled[k]);
      if found.Some? {
        var e := entries[found.value];
        cmds := cmds + [RemoveQueueItem(app, e.queueId)];
        if e.searchId.None? {
          ok := false;
        } else {
          cmds := cmds + [SearchAgain(app, e.searchId.value)];
        }
      }
      k := k + 1;
    }
    if ok {
      assert culled[..k] == culled;
    } else {
      CullCommandsStopped(app, entries, culled, k);
    }
  }

  // ---------------------------------------------------------------------
  // Grouping the Sonarr queue by series
  // ---------------------------------------------------------------------

  /** A record the series pass uses: it names both a series and an episode. */
  predicate Eligible(r: SonarrQueueRecord) {
    r.seriesId.Some? && r.episodeId.Some?
  }

  datatype SeriesGroup = SeriesGroup(seriesId: int, items: seq<SonarrQueueRecord>)

  /** The eligible records of one series, in queue order. */
  function SeriesItems(records: seq<SonarrQueueRecord>, seriesId: int): seq<SonarrQueueRecord> {
    if records == [] then []
    else
      var init := SeriesItems(records[..|records| - 1], seriesId);
      var r := records[|records| - 1];
      if Eligible(r) && r.seriesId.value == seriesId then init + [r] else init
  }

  /** Adds one record to the group of its series, or opens a new group. */
  function AddToGroups(groups: seq<SeriesGroup>, r: SonarrQueueRecord): (gs: seq<SeriesGroup>)
    requires Eligible(r)
    ensures |gs| == |groups| || |gs| == |groups| + 1
  {
    if groups == [] then [SeriesGroup(r.seriesId.value, [r])]
    else if groups[0].seriesId == r.seriesId.value then
      [groups[0].(items := groups[0].items + [r])] + groups[1..]
    else [groups[0]] + AddToGroups(groups[1..], r)
  }

  /** `Where(SeriesId and EpisodeId present).GroupBy(SeriesId)`: groups in the
      order their series first appears, records in queue order. */
  function GroupBySeries(records: seq<SonarrQueueRecord>): (groups: seq<SeriesGroup>)
    ensures DistinctKeys(groups) && |groups| <= |records|
  {
    if records == [] then []
    else
      var init := GroupBySeries(records[..|records| - 1]);
      var r := records[|records| - 1];
      if Eligible(r) then AddToGroupsSpec(init, r); AddToGroups(init, r) else init
  }

  predicate DistinctKeys(groups: seq<SeriesGroup>) {
    forall j, k :: 0 <= j < k < |groups| ==> groups[j].seriesId != groups[k].seriesId
  }

  lemma {:induction false} AddToGroupsSpec(groups: seq<SeriesGroup>, r: SonarrQueueRecord)
    requires Eligible(r) && DistinctKeys(groups)
    ensures var gs := AddToGroups(groups, r);
      DistinctKeys(gs) &&
      (forall j :: 0 <= j < |groups| ==> gs[j].seriesId == groups[j].seriesId) &&
      (forall j :: 0 <= j < |groups| ==>
        gs[j].items == if groups[j].seriesId == r.seriesId.value then groups[j].items + [r] else groups[j].items) &&
      (|gs| == |groups| + 1 <==> forall j :: 0 <= j < |groups| ==> groups[j].seriesId != r.seriesId.value) &&
      (|gs| == |groups| + 1 ==> gs[|groups|] == SeriesGroup(r.seriesId.value, [r]))
  {
    if groups != [] && groups[0].seriesId != r.seriesId.value {
      AddToGroupsSpec(groups[1..], r);
    }
  }

  /** `groups` is the grouping of `records`: one group per series with
      distinct keys, each holding exactly that series' eligible records in
      queue order, and no eligible record of a series without a group. */
  ghost predicate Grouped(records: seq<SonarrQueueRecord>, groups: seq<SeriesGroup>) {
    DistinctKeys(groups) &&
    (forall j :: 0 <= j < |groups| ==> groups[j].items == SeriesItems(records, groups[j].seriesId)) &&
    (forall j :: 0 <= j < |groups| ==> |groups[j].items| > 0) &&
    (forall id :: (forall j :: 0 <= j < |groups| ==> groups[j].seriesId != id) ==> SeriesItems(records, id) == [])
  }

  lemma {:induction false} GroupBySeriesSpec(records: seq<SonarrQueueRecord>)
    ensures Grouped(records, GroupBySeries(records))
  {
    if records != [] {
      var init := records[..|records| - 1];
      var r := records[|records| - 1];
      var gs := GroupBySeries(init);
      GroupBySeriesSpec(init);
      assert GroupBySeries(records) == if Eligible(r) then AddToGroups(gs, r) else gs;
      GroupStep(init, r, gs);
      assert init + [r] == records;
    }
  }

  lemma GroupStep(init: seq<SonarrQueueRecord>, r: SonarrQueueRecord, gs: seq<SeriesGroup>)
    requires Grouped(init, gs)
    ensures Grouped(init + [r], if Eligible(r) then AddToGroups(gs, r) else gs)
  {
    var records := init + [r];
    forall id
      ensures SeriesItems(records, id) == SeriesItems(init, id) + (if Eligible(r) && r.seriesId.value == id then [r] else [])
    {
      assert records[..|records| - 1] == init;
    }
    if Eligible(r) {
      var ngs := AddToGroups(gs, r);
      AddToGroupsSpec(gs, r);
      forall j | 0 <= j < |ngs|
        ensures ngs[j].items == SeriesItems(records, ngs[j].seriesId) && |ngs[j].items| > 0
      {
        if j == |gs| {
          assert SeriesItems(init, r.seriesId.value) == [];
        }
      }
      forall id | forall j :: 0 <= j < |ngs| ==> ngs[j].seriesId != id
        ensures SeriesItems(records, id) == []
      {
        if |ngs| == |gs| {
          assert forall j :: 0 <= j < |gs| ==> gs[j].seriesId != id;
          assert id != r.seriesId.value;
        } else {
          assert forall j :: 0 <= j < |gs| ==> gs[j].seriesId != id;
          assert ngs[|gs|].seriesId == r.seriesId.value;
        }
      }
    }
  }

  /** Every eligible record's series has a group. */
  lemma EveryRecordGrouped(records: seq<SonarrQueueRecord>, k: nat)
    requires k < |records| && Eligible(records[k])
    ensures exists j :: 0 <= j < |GroupBySeries(records)| && GroupBySeries(records)[j].seriesId == records[k].seriesId.value
  {
    GroupBySeriesSpec(records);
    SeriesItemsHas(records, k);
  }

  lemma {:induction false} SeriesItemsHas(records: seq<SonarrQueueRecord>, k: nat)
    requires k < |records| && Eligible(records[k])
    ensures records[k] in SeriesItems(records, records[k].seriesId.value)
  {
    var init := records[..|records| - 1];
    if k < |records| - 1 {
      SeriesItemsHas(init, k);
    }
  }
}
