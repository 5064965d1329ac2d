/** The stuck-torrent rule of the download processor: which torrents in the
    qBittorrent client are removed from the Radarr or Sonarr queue and
    searched for again. */
module TorrentHealth {
  import opened Wrappers
  import opened Text

  /** The fields of a qBittorrent torrent-info record that the rule reads.
      Times are Unix seconds, progress and availability are fractions. */
  datatype TorrentInfo = TorrentInfo(
    torrentId: string,
    state: string,
    availability: real,
    numSeeds: int,
    progress: real,
    downloadSpeed: int,
    uploadSpeed: int,
    addedOn: int,
    lastActivity: int)

  /** Seconds a torrent must have existed before it can be culled. */
  const MinAgeSeconds := 180
  /** Idle seconds before culling a torrent that is at least 99% done. */
  const NearCompleteIdleSeconds := 3600
  /** Idle seconds before culling any other torrent. */
  const IdleSeconds := 600

  /** `IsDownloadingState`: the qBittorrent states of a torrent that is still
      fetching data (exact, case-sensitive match). */
  predicate IsDownloadingState(state: string) {
    state == "downloading" || state == "stalledDL" || state == "queuedDL" || state == "metaDL"
  }

  /** `ShouldCull`: the checks in the source's order, each of which can spare
      the torrent. */
  function ShouldCull(t: TorrentInfo, now: int): (cull: bool)
    ensures cull <==>
      now - t.addedOn >= MinAgeSeconds &&
      IsDownloadingState(t.state) &&
      t.downloadSpeed <= 0 &&
      now - t.lastActivity >= (if t.progress >= 0.99 then NearCompleteIdleSeconds else IdleSeconds) &&
      t.numSeeds <= 0 &&
      t.availability <= 0.3
  {
    if now - t.addedOn < MinAgeSeconds then false
    else if !IsDownloadingState(t.state) then false
    else if t.downloadSpeed > 0 then false
    else
      var idleThreshold := if t.progress >= 0.99 then NearCompleteIdleSeconds else IdleSeconds;
      if now - t.lastActivity < idleThreshold then false
      else if t.numSeeds > 0 then false
      else if t.availability > 0.3 then false
      else true
  }

  /** The upload speed never enters the decision. */
  lemma CullIgnoresUploadSpeed(t: TorrentInfo, now: int, speed: int)
    ensures ShouldCull(t.(uploadSpeed := speed), now) == ShouldCull(t, now)
  {
  }

  /** A torrent that is culled now would still be culled later. */
  lemma CullMonotoneInTime(t: TorrentInfo, now: int, later: int)
    requires now <= later && ShouldCull(t, now)
    ensures ShouldCull(t, later)
  {
  }

  /** Position `k` holds the first torrent whose id equals `id`, ignoring case. */
  predicate FirstMatchAt(infos: seq<TorrentInfo>, id: string, k: int) {
    0 <= k < |infos| && EqualsIgnoreCase(infos[k].torrentId, id) &&
    forall j :: 0 <= j < k ==> !EqualsIgnoreCase(infos[j].torrentId, id)
  }

  /** The first torrent whose id equals `id`, ignoring case. */
  function FindTorrent(infos: seq<TorrentInfo>, id: string): (r: Option<TorrentInfo>)
    ensures r.Some? ==> r.value in infos && EqualsIgnoreCase(r.value.torrentId, id)
    ensures r.None? <==> forall k :: 0 <= k < |infos| ==> !EqualsIgnoreCase(infos[k].torrentId, id)
    ensures r.Some? ==> exists k :: FirstMatchAt(infos, id, k) && infos[k] == r.value
  {
    if infos == [] then None
    else if EqualsIgnoreCase(infos[0].torrentId, id) then Some(infos[0])
    else
      FirstMatchShift(infos, id, FindTorrent(infos[1..], id));
      FindTorrent(infos[1..], id)
  }

  /** A first match in the tail, past a head that does not match, is a
      first match in the whole list. */
  lemma FirstMatchShift(infos: seq<TorrentInfo>, id: string, r: Option<TorrentInfo>)
    requires infos != [] && !EqualsIgnoreCase(infos[0].torrentId, id)
    requires r.Some? ==> exists k :: FirstMatchAt(infos[1..], id, k) && infos[1..][k] == r.value
    ensures r.Some? ==> exists k :: FirstMatchAt(infos, id, k) && infos[k] == r.value
  {
    if r.Some? {
      var k :| FirstMatchAt(infos[1..], id, k) && infos[1..][k] == r.value;
      assert forall j :: 0 < j < k + 1 ==> infos[j] == infos[1..][j - 1];
      assert FirstMatchAt(infos, id, k + 1) && infos[k + 1] == r.value;
    }
  }

  /** What the loop of `CheckTorrentHealth` collects for one queue id: the
      matching torrent's own id when that torrent should be culled. */
  function CullStep(id: string, infos: seq<TorrentInfo>, now: int): seq<string> {
    match FindTorrent(infos, id)
    case Some(t) => if ShouldCull(t, now) then [t.torrentId] else []
    case None => []
  }

  /** The torrent ids to cull, for the queue's torrent ids in order. */
  function CullList(ids: seq<string>, infos: seq<TorrentInfo>, now: int): (culled: seq<string>)
    ensures |culled| <= |ids|
  {
    if ids == [] then []
    else CullList(ids[..|ids| - 1], infos, now) + CullStep(ids[|ids| - 1], infos, now)
  }

  /** `CheckTorrentHealth` once the torrent list has been fetched. */
  method CheckTorrentHealth(ids: seq<string>, infos: seq<TorrentInfo>, now: int) returns (culled: seq<string>)
    ensures culled == CullList(ids, infos, now)
    ensures |culled| <= |ids|
    ensures forall x :: x in culled ==> Condemned(x, ids, infos, now)
  {
    culled := [];
    for k := 0 to |ids|
      invariant culled == CullList(ids[..k], infos, now)
    {
      assert ids[..k + 1][..k] == ids[..k];
      var info := FindTorrent(infos, ids[k]);
      if info.Some? && ShouldCull(info.value, now) {
        culled := culled + [info.value.torrentId];
      }
    }
    assert ids[..|ids|] == ids;
    CullListSound(ids, infos, now);
  }

  /** `x` is the id of a torrent the rule condemns and that one of the
      queue's ids names. */
  ghost predicate Condemned(x: string, ids: seq<string>, infos: seq<TorrentInfo>, now: int) {
    exists t :: t in infos && t.torrentId == x && ShouldCull(t, now) &&
      (exists id :: id in ids && EqualsIgnoreCase(t.torrentId, id))
  }

  /** Everything culled is condemned. */
  lemma {:induction false} CullListSound(ids: seq<string>, infos: seq<TorrentInfo>, now: int)
    ensures forall x :: x in CullList(ids, infos, now) ==> Condemned(x, ids, infos, now)
  {
    if ids != [] {
      var init := ids[..|ids| - 1];
      var last := ids[|ids| - 1];
      CullListSound(init, infos, now);
      forall x | x in CullList(ids, infos, now)
        ensures Condemned(x, ids, infos, now)
      {
        if x in CullList(init, infos, now) {
          assert Condemned(x, init, infos, now);
          var t :| t in infos && t.torrentId == x && ShouldCull(t, now) &&
            (exists id :: id in init && EqualsIgnoreCase(t.torrentId, id));
          var id :| id in init && EqualsIgnoreCase(t.torrentId, id);
          assert id in ids;
        } else {
          var t := FindTorrent(infos, last).value;
          assert last in ids;
          assert t in infos && t.torrentId == x && ShouldCull(t, now);
        }
      }
    }
  }

  /** Every queue id whose torrent the rule condemns has that torrent's id
      in the list. */
  lemma {:induction false} CullListComplete(ids: seq<string>, infos: seq<TorrentInfo>, now: int, k: nat)
    requires k < |ids|
    requires FindTorrent(infos, ids[k]).Some? && ShouldCull(FindTorrent(infos, ids[k]).value, now)
    ensures FindTorrent(infos, ids[k]).value.torrentId in CullList(ids, infos, now)
  {
    if k < |ids| - 1 {
      CullListComplete(ids[..|ids| - 1], infos, now, k);
    }
  }
}
