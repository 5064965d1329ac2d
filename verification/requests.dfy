/** The `DownloadRequests` table: one row per movie, show or episode a user
    asked for, and the progress the download processor keeps on it. */
module Requests {
  import opened Wrappers

  /** One `DownloadRequests` row, with the columns the migrations give it.
      Times are integer seconds; `mediaType` and `status` hold "" where the
      column is null (no comparison in the services tells the two apart).
      `mediaType` is "movie", "show" (older rows "Series") or "Episode". */
  datatype DownloadRequest = DownloadRequest(
    id: int,
    userId: int,
    mediaType: string,
    title: Option<string>,
    description: Option<string>,
    posterUrl: Option<string>,
    tmdbId: Option<int>,
    tvdbId: Option<int>,
    mediaId: Option<int>,
    episodeId: Option<int>,
    releaseYear: Option<int>,
    seasonNumber: Option<int>,
    episodeNumber: Option<int>,
    episodeDate: Option<int>,
    status: string,
    downloadPercentage: int,
    minutesLeft: Option<int>,
    requestedAt: int,
    updatedAt: Option<int>,
    completedAt: Option<int>)

  /** The columns that identify what a row is about; the download processor
      never writes them on an existing row. */
  datatype RowKeys = RowKeys(mediaType: string, tmdbId: Option<int>, tvdbId: Option<int>, episodeId: Option<int>, userId: int)

  function Keys(r: DownloadRequest): RowKeys {
    RowKeys(r.mediaType, r.tmdbId, r.tvdbId, r.episodeId, r.userId)
  }

  /** A parent row of a series, under either spelling the lookups accept. */
  predicate IsSeriesParent(r: DownloadRequest) {
    r.mediaType == "show" || r.mediaType == "Series"
  }

  /** The completion the sweeper writes: completed, 100%, no time left, and
      both `CompletedAt` and `UpdatedAt` set to now. */
  function Finalise(r: DownloadRequest, now: int): (f: DownloadRequest)
    ensures f.status == "completed" && f.downloadPercentage == 100 && f.minutesLeft == Some(0)
    ensures f.completedAt == Some(now) && f.updatedAt == Some(now)
    ensures Keys(f) == Keys(r)
  {
    r.(status := "completed", downloadPercentage := 100, minutesLeft := Some(0),
       completedAt := Some(now), updatedAt := Some(now))
  }

  /** The positions of `xs`, in order, whose element satisfies `p`: what a
      `Where(...)` query over a table returns, as row positions. */
  function Where<T>(xs: seq<T>, p: T -> bool): (r: seq<nat>)
    ensures forall k :: 0 <= k < |r| ==> r[k] < |xs|
  {
    if xs == [] then []
    else
      var init := Where(xs[..|xs| - 1], p);
      if p(xs[|xs| - 1]) then init + [|xs| - 1] else init
  }

  /** `Where` returns exactly the positions whose element satisfies `p`,
      each once, in increasing order. */
  lemma {:induction false} WhereSpec<T>(xs: seq<T>, p: T -> bool)
    ensures forall k :: 0 <= k < |Where(xs, p)| ==> p(xs[Where(xs, p)[k]])
    ensures forall i :: 0 <= i < |xs| && p(xs[i]) ==> i in Where(xs, p)
    ensures forall j, k :: 0 <= j < k < |Where(xs, p)| ==> Where(xs, p)[j] < Where(xs, p)[k]
  {
    if xs != [] {
      var init := xs[..|xs| - 1];
      WhereSpec(init, p);
      assert forall i :: 0 <= i < |init| ==> init[i] == xs[i];
    }
  }

  /** The elements of `xs` satisfying `p`, in order: a
      `Where(...).ToList()` over values. */
  function Filter<T(!new)>(xs: seq<T>, p: T -> bool): (r: seq<T>)
    ensures |r| <= |xs|
    ensures forall x :: x in r <==> x in xs && p(x)
    ensures |r| == |Where(xs, p)|
    ensures forall k :: 0 <= k < |r| ==> r[k] == xs[Where(xs, p)[k]]
  {
    if xs == [] then []
    else
      var front := xs[..|xs| - 1];
      var init := Filter(front, p);
      assert xs == front + [xs[|xs| - 1]];
      assert forall k :: 0 <= k < |init| ==> init[k] == xs[Where(front, p)[k]];
      if p(xs[|xs| - 1]) then init + [xs[|xs| - 1]] else init
  }

  /** The position of the first element satisfying `p`: `FirstOrDefault`. */
  function FirstWhere<T>(xs: seq<T>, p: T -> bool): (r: Option<nat>)
    ensures r.Some? ==> r.value < |xs| && p(xs[r.value]) && forall k :: 0 <= k < r.value ==> !p(xs[k])
    ensures r.None? ==> forall k :: 0 <= k < |xs| ==> !p(xs[k])
  {
    if xs == [] then None
    else if p(xs[0]) then Some(0)
    else match FirstWhere(xs[1..], p)
      case Some(k) => Some(k + 1)
      case None => None
  }

  /** Queries select rows by their keys alone give the same positions on two
      tables whose keys agree. */
  lemma {:induction false} WhereSameKeys(xs: seq<DownloadRequest>, ys: seq<DownloadRequest>, p: DownloadRequest -> bool)
    requires |xs| == |ys|
    requires forall i :: 0 <= i < |xs| ==> Keys(xs[i]) == Keys(ys[i])
    requires forall a, b :: Keys(a) == Keys(b) ==> p(a) == p(b)
    ensures Where(xs, p) == Where(ys, p)
  {
    if xs != [] {
      WhereSameKeys(xs[..|xs| - 1], ys[..|ys| - 1], p);
      assert p(xs[|xs| - 1]) == p(ys[|ys| - 1]);
    }
  }

  lemma {:induction false} FirstWhereSameKeys(xs: seq<DownloadRequest>, ys: seq<DownloadRequest>, p: DownloadRequest -> bool)
    requires |xs| == |ys|
    requires forall i :: 0 <= i < |xs| ==> Keys(xs[i]) == Keys(ys[i])
    requires forall a, b :: Keys(a) == Keys(b) ==> p(a) == p(b)
    ensures FirstWhere(xs, p) == FirstWhere(ys, p)
  {
    if xs != [] {
      assert p(xs[0]) == p(ys[0]);
      FirstWhereSameKeys(xs[1..], ys[1..], p);
    }
  }
}
