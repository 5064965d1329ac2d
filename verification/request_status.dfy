/** The per-user view of the `DownloadRequests` table: a user's recent
    requests, movies and shows at the top level and each show's episodes
    nested under it by TVDB id. Reading it changes nothing. */
module RequestStatus {
  import opened Wrappers
  import opened Text
  import opened Requests

  datatype ShowEpisodesStatus = ShowEpisodesStatus(
    id: int,
    seasonNumber: Option<int>,
    episodeNumber: Option<int>,
    title: Option<string>,
    episodeDate: Option<int>,
    status: string,
    downloadPercentage: Option<int>,
    minutesLeft: Option<int>)

  datatype MediaRequestStatus = MediaRequestStatus(
    id: int,
    mediaType: string,
    title: Option<string>,
    description: Option<string>,
    releaseYear: Option<string>,
    posterUrl: Option<string>,
    status: string,
    downloadPercentage: int,
    requestedAt: Option<int>,
    completedAt: Option<int>,
    minutesLeft: Option<int>,
    episodesStatus: Option<seq<ShowEpisodesStatus>>)

  datatype DownloadRequestsResponse = DownloadRequestsResponse(
    isSuccess: bool,
    reason: string,
    requests: Option<seq<MediaRequestStatus>>)

  const NoRequestsReason := "No download requests found for the user."

  /** The rows the query selects: the user's own, requested within the
      window that starts at `sixMonthsAgo`. */
  function RecentRequests(table: seq<DownloadRequest>, userId: int, sixMonthsAgo: int): seq<DownloadRequest> {
    Filter(table, (r: DownloadRequest) => r.userId == userId && r.requestedAt >= sixMonthsAgo)
  }

  /** Whether a row is an episode of the show with `tvdbId`. */
  function EpisodeOf(tvdbId: Option<int>): DownloadRequest -> bool {
    (r: DownloadRequest) => r.tvdbId == tvdbId && r.episodeId.Some?
  }

  /** A show's episodes: the selected rows with its TVDB id and an episode
      id. */
  function EpisodeRequests(rows: seq<DownloadRequest>, tvdbId: Option<int>): seq<DownloadRequest> {
    Filter(rows, EpisodeOf(tvdbId))
  }

  function OptionalToString(n: Option<int>): Option<string> {
    match n
    case None => None
    case Some(v) => Some(IntToString(v))
  }

  /** The entry of a movie request: its own columns, copied. */
  function BuildMovieMediaRequestStatus(r: DownloadRequest): (m: MediaRequestStatus)
    ensures m.id == r.id && m.mediaType == r.mediaType
    ensures m.status == r.status && m.downloadPercentage == r.downloadPercentage
    ensures m.minutesLeft == r.minutesLeft && m.completedAt == r.completedAt
    ensures m.episodesStatus.None?
  {
    MediaRequestStatus(r.id, r.mediaType, r.title, r.description, OptionalToString(r.releaseYear),
      r.posterUrl, r.status, r.downloadPercentage, Some(r.requestedAt), r.completedAt, r.minutesLeft, None)
  }

  function EpisodeStatus(e: DownloadRequest): ShowEpisodesStatus {
    ShowEpisodesStatus(e.id, e.seasonNumber, e.episodeNumber, e.title, e.episodeDate,
      e.status, Some(e.downloadPercentage), e.minutesLeft)
  }

  /** The entry of a show request: its own columns, and its episodes' progress
      in order when it has any. */
  function BuildShowMediaRequestStatus(show: DownloadRequest, episodes: seq<DownloadRequest>): (m: MediaRequestStatus)
    ensures m.id == show.id && m.mediaType == show.mediaType
    ensures m.status == show.status && m.downloadPercentage == show.downloadPercentage
    ensures m.minutesLeft == show.minutesLeft && m.completedAt == show.completedAt
    ensures m.episodesStatus.None? <==> episodes == []
    ensures m.episodesStatus.Some? ==>
      |m.episodesStatus.value| == |episodes| &&
      forall k :: 0 <= k < |episodes| ==>
        m.episodesStatus.value[k].id == episodes[k].id &&
        m.episodesStatus.value[k].status == episodes[k].status &&
        m.episodesStatus.value[k].downloadPercentage == Some(episodes[k].downloadPercentage) &&
        m.episodesStatus.value[k].minutesLeft == episodes[k].minutesLeft
  {
    var m := BuildMovieMediaRequestStatus(show);
    if episodes == [] then m
    else m.(episodesStatus := Some(seq(|episodes|, k requires 0 <= k < |episodes| => EpisodeStatus(episodes[k]))))
  }

  predicate IsTopLevel(r: DownloadRequest) {
    r.mediaType == "movie" || r.mediaType == "show"
  }

  /** The entry a top-level row gets; episodes are looked up among all the
      selected rows. */
  function Entry(rows: seq<DownloadRequest>, r: DownloadRequest): MediaRequestStatus {
    if r.mediaType == "movie" then BuildMovieMediaRequestStatus(r)
    else BuildShowMediaRequestStatus(r, EpisodeRequests(rows, r.tvdbId))
  }

  /** The entries of the loop after it has gone through `xs`. */
  function Entries(rows: seq<DownloadRequest>, xs: seq<DownloadRequest>): (es: seq<MediaRequestStatus>)
    ensures |es| <= |xs|
    ensures forall k :: 0 <= k < |es| ==> es[k].mediaType == "movie" || es[k].mediaType == "show"
  {
    if xs == [] then []
    else
      var init := Entries(rows, xs[..|xs| - 1]);
      if IsTopLevel(xs[|xs| - 1]) then init + [Entry(rows, xs[|xs| - 1])] else init
  }

  function GetDownloadRequestsStatus(table: seq<DownloadRequest>, userId: int, sixMonthsAgo: int): (resp: DownloadRequestsResponse)
    ensures resp.isSuccess <==> RecentRequests(table, userId, sixMonthsAgo) != []
    ensures !resp.isSuccess ==> resp.reason == NoRequestsReason && resp.requests.None?
    ensures resp.isSuccess ==> resp.requests.Some?
  {
    var rows := RecentRequests(table, userId, sixMonthsAgo);
    if rows == [] then DownloadRequestsResponse(false, NoRequestsReason, None)
    else DownloadRequestsResponse(true, "", Some(Entries(rows, rows)))
  }

  /** The loop emits one entry per movie or show row, in the rows' order, and
      nothing for episode rows. */
  lemma {:induction false} EntriesSpec(rows: seq<DownloadRequest>, xs: seq<DownloadRequest>)
    ensures var top := Filter(xs, IsTopLevel);
      |Entries(rows, xs)| == |top| &&
      forall k :: 0 <= k < |top| ==> Entries(rows, xs)[k] == Entry(rows, top[k])
  {
    if xs != [] {
      EntriesSpec(rows, xs[..|xs| - 1]);
    }
  }

  /** Only the user's recent rows are reported, and every one of them that is
      a movie or a show gets an entry with its id and progress. */
  lemma ResponseSpec(table: seq<DownloadRequest>, userId: int, sixMonthsAgo: int)
    requires GetDownloadRequestsStatus(table, userId, sixMonthsAgo).isSuccess
    ensures var rows := RecentRequests(table, userId, sixMonthsAgo);
      var top := Filter(rows, IsTopLevel);
      var entries := GetDownloadRequestsStatus(table, userId, sixMonthsAgo).requests.value;
      |entries| == |top| &&
      (forall r :: r in top <==> r in table && r.userId == userId && r.requestedAt >= sixMonthsAgo && IsTopLevel(r)) &&
      forall k :: 0 <= k < |top| ==>
        entries[k].id == top[k].id &&
        entries[k].status == top[k].status &&
        entries[k].downloadPercentage == top[k].downloadPercentage &&
        entries[k].minutesLeft == top[k].minutesLeft &&
        entries[k].completedAt == top[k].completedAt
  {
    var rows := RecentRequests(table, userId, sixMonthsAgo);
    EntriesSpec(rows, rows);
  }

  /** A show's nested episodes are exactly the selected rows with its TVDB id
      and an episode id, in the rows' order; with none, the list stays
      unset. */
  lemma ShowEpisodesSpec(rows: seq<DownloadRequest>, show: DownloadRequest, e: DownloadRequest)
    requires show.mediaType == "show"
    ensures e in EpisodeRequests(rows, show.tvdbId) <==> e in rows && e.tvdbId == show.tvdbId && e.episodeId.Some?
    ensures Entry(rows, show).episodesStatus.None? <==>
      forall r :: r in rows ==> r.tvdbId != show.tvdbId || r.episodeId.None?
    ensures var pos := Where(rows, EpisodeOf(show.tvdbId));
      Entry(rows, show).episodesStatus.Some? ==>
        |Entry(rows, show).episodesStatus.value| == |pos| &&
        forall k :: 0 <= k < |pos| ==>
          Entry(rows, show).episodesStatus.value[k].id == rows[pos[k]].id &&
          Entry(rows, show).episodesStatus.value[k].status == rows[pos[k]].status &&
          Entry(rows, show).episodesStatus.value[k].downloadPercentage == Some(rows[pos[k]].downloadPercentage) &&
          Entry(rows, show).episodesStatus.value[k].minutesLeft == rows[pos[k]].minutesLeft
  {
    var eps := EpisodeRequests(rows, show.tvdbId);
    if eps != [] {
      assert eps[0] in eps;
    }
  }
}
