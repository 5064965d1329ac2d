/** The list shaping of the dashboard: top movies without those already
    downloaded or not yet released, newest first and at most thirty; top
    shows enriched from their info records with empty seasons dropped. */
module Dashboard {
  import opened Wrappers
  import opened Text
  import opened Requests

  const MaxMovies := 30

  datatype MediaSeasonItem = MediaSeasonItem(
    tmdbId: int,
    seasonNumber: int,
    episodeCount: int,
    title: Option<string>,
    airDate: Option<string>)

  /** A dashboard entry, movie or show, with the fields the service uses;
      a null title reads as "". */
  datatype MediaItem = MediaItem(
    id: int,
    genre: Option<seq<string>>,
    title: string,
    poster: Option<string>,
    imdbId: Option<string>,
    tmdbId: int,
    releaseYear: Option<int>,
    description: Option<string>,
    runtime: Option<string>,
    seasons: Option<seq<MediaSeasonItem>>,
    imdbRating: Option<real>,
    releaseDateString: Option<string>)

  datatype InfoIds = InfoIds(imdbId: Option<string>, tmdbId: int)

  datatype Rating = Rating(source: string, score: Option<real>)

  datatype ShowSeason = ShowSeason(
    tmdbId: int,
    seasonNumber: int,
    episodeCount: int,
    name: Option<string>,
    airDate: Option<string>)

  /** The info record MDBList returns for a show; genre titles that are null
      read as "". */
  datatype MediaShowInfo = MediaShowInfo(
    id: int,
    infoIds: Option<InfoIds>,
    seasons: Option<seq<ShowSeason>>,
    ratings: Option<seq<Rating>>,
    genres: Option<seq<string>>,
    poster: Option<string>,
    year: Option<int>,
    description: Option<string>)

  // ---------------------------------------------------------------------
  // Movies
  // ---------------------------------------------------------------------

  predicate Downloaded(existing: seq<int>, m: MediaItem) {
    exists k :: 0 <= k < |existing| && existing[k] == m.tmdbId
  }

  /** A movie whose release date parses and lies after `now`; `parseDate`
      stands for `DateTime.TryParse`. */
  predicate Unreleased(m: MediaItem, parseDate: string -> Option<int>, now: int) {
    m.releaseDateString.Some? && parseDate(m.releaseDateString.value).Some? &&
    parseDate(m.releaseDateString.value).value > now
  }

  /** `ReleaseYear` as the sort sees it: no year sorts below every year. */
  predicate YearAtLeast(a: MediaItem, b: MediaItem) {
    b.releaseYear.None? || (a.releaseYear.Some? && a.releaseYear.value >= b.releaseYear.value)
  }

  predicate NewestFirst(xs: seq<MediaItem>) {
    forall i, j :: 0 <= i < j < |xs| ==> YearAtLeast(xs[i], xs[j])
  }

  /** Put `m` before the first element it is at least as new as. */
  function InsertByYear(m: MediaItem, xs: seq<MediaItem>): (r: seq<MediaItem>)
    ensures multiset(r) == multiset(xs) + multiset{m}
  {
    if xs == [] || YearAtLeast(m, xs[0]) then [m] + xs
    else
      assert xs == [xs[0]] + xs[1..];
      [xs[0]] + InsertByYear(m, xs[1..])
  }

  lemma {:induction false} InsertByYearMembers(m: MediaItem, xs: seq<MediaItem>)
    ensures forall y :: y in InsertByYear(m, xs) <==> y == m || y in xs
  {
    if xs != [] && !YearAtLeast(m, xs[0]) {
      InsertByYearMembers(m, xs[1..]);
      assert xs == [xs[0]] + xs[1..];
    }
  }

  /** Inserting into a newest-first list keeps it newest first. */
  lemma {:induction false} InsertByYearSorted(m: MediaItem, xs: seq<MediaItem>)
    requires NewestFirst(xs)
    ensures NewestFirst(InsertByYear(m, xs))
  {
    if xs == [] || YearAtLeast(m, xs[0]) {
      var r := [m] + xs;
      forall i, j | 0 <= i < j < |r|
        ensures YearAtLeast(r[i], r[j])
      {
        if i > 0 {
          assert r[i] == xs[i - 1] && r[j] == xs[j - 1];
        } else {
          assert YearAtLeast(xs[0], xs[j - 1]);
        }
      }
    } else {
      var rest := InsertByYear(m, xs[1..]);
      InsertByYearSorted(m, xs[1..]);
      InsertByYearMembers(m, xs[1..]);
      assert forall y :: y in xs[1..] ==> YearAtLeast(xs[0], y);
      var r := [xs[0]] + rest;
      forall i, j | 0 <= i < j < |r|
        ensures YearAtLeast(r[i], r[j])
      {
        if i == 0 {
          assert r[j] in rest;
        } else {
          assert r[i] == rest[i - 1] && r[j] == rest[j - 1];
        }
      }
    }
  }

  /** `OrderByDescending(m => m.ReleaseYear)`: earlier elements stay ahead
      of later ones of the same year. */
  function SortByYearDescending(xs: seq<MediaItem>): (r: seq<MediaItem>)
    ensures multiset(r) == multiset(xs)
    ensures NewestFirst(r)
  {
    if xs == [] then []
    else
      assert xs == [xs[0]] + xs[1..];
      InsertByYearSorted(xs[0], SortByYearDescending(xs[1..]));
      InsertByYear(xs[0], SortByYearDescending(xs[1..]))
  }

  /** `FilterMoviesMostRecent`: the thirty newest. */
  function FilterMoviesMostRecent(movies: seq<MediaItem>): (r: seq<MediaItem>)
    ensures |r| <= MaxMovies
    ensures NewestFirst(r)
    ensures forall m :: m in r ==> m in movies
    ensures |movies| <= MaxMovies ==> multiset(r) == multiset(movies)
  {
    var sorted := SortByYearDescending(movies);
    var r := if |sorted| <= MaxMovies then sorted else sorted[..MaxMovies];
    assert forall m :: m in r ==> m in multiset(sorted);
    r
  }

  /** Every movie that is not among the top thirty is no newer than each
      one that is. */
  lemma MostRecentKeepsNewest(movies: seq<MediaItem>)
    ensures var sorted := SortByYearDescending(movies);
      |sorted| > MaxMovies ==>
        FilterMoviesMostRecent(movies) == sorted[..MaxMovies] &&
        forall i, j :: 0 <= i < MaxMovies <= j < |sorted| ==> YearAtLeast(sorted[i], sorted[j])
  {
  }

  /** `RemoveUnreleased`: mark every movie whose date parses and lies in the
      future, drop the marked ones, then keep the thirty newest. */
  method RemoveUnreleased(movies: seq<MediaItem>, parseDate: string -> Option<int>, now: int) returns (r: seq<MediaItem>)
    ensures r == FilterMoviesMostRecent(Filter(movies, (m: MediaItem) => !Unreleased(m, parseDate, now)))
  {
    var moviesToRemove: seq<MediaItem> := [];
    var i := 0;
    while i < |movies|
      invariant 0 <= i <= |movies|
      invariant moviesToRemove == Filter(movies[..i], (m: MediaItem) => Unreleased(m, parseDate, now))
    {
      assert movies[..i + 1][..i] == movies[..i];
      if movies[i].releaseDateString.Some? {
        var releaseDate := parseDate(movies[i].releaseDateString.value);
        if releaseDate.Some? && releaseDate.value > now {
          moviesToRemove := moviesToRemove + [movies[i]];
        }
      }
      i := i + 1;
    }
    assert movies[..i] == movies;
    RemoveMarked(movies, moviesToRemove, parseDate, now);
    r := FilterMoviesMostRecent(Filter(movies, (m: MediaItem) => m !in moviesToRemove));
  }

  /** Removing the marked movies by equality removes exactly the unreleased
      ones. */
  lemma {:induction false} RemoveMarked(movies: seq<MediaItem>, marked: seq<MediaItem>, parseDate: string -> Option<int>, now: int)
    requires marked == Filter(movies, (m: MediaItem) => Unreleased(m, parseDate, now))
    ensures Filter(movies, (m: MediaItem) => m !in marked) == Filter(movies, (m: MediaItem) => !Unreleased(m, parseDate, now))
  {
    FilterSameOn(movies, (m: MediaItem) => m !in marked, (m: MediaItem) => !Unreleased(m, parseDate, now));
  }

  lemma {:induction false} FilterSameOn<T(!new)>(xs: seq<T>, p: T -> bool, q: T -> bool)
    requires forall x :: x in xs ==> p(x) == q(x)
    ensures Filter(xs, p) == Filter(xs, q)
  {
    if xs != [] {
      FilterSameOn(xs[..|xs| - 1], p, q);
    }
  }

  /** `FilterExistingMoviesOut`: drop the movies whose TMDB id a downloaded
      movie carries, then remove the unreleased ones. */
  method FilterExistingMoviesOut(movieList: seq<MediaItem>, existing: seq<int>, parseDate: string -> Option<int>, now: int)
    returns (r: seq<MediaItem>)
    ensures r == FilterMoviesMostRecent(Filter(Filter(movieList, (m: MediaItem) => !Downloaded(existing, m)),
      (m: MediaItem) => !Unreleased(m, parseDate, now)))
  {
    var filteredMovies: seq<MediaItem> := [];
    var i := 0;
    while i < |movieList|
      invariant 0 <= i <= |movieList|
      invariant filteredMovies == Filter(movieList[..i], (m: MediaItem) => !Downloaded(existing, m))
    {
      assert movieList[..i + 1][..i] == movieList[..i];
      if !Downloaded(existing, movieList[i]) {
        filteredMovies := filteredMovies + [movieList[i]];
      }
      i := i + 1;
    }
    assert movieList[..i] == movieList;
    r := RemoveUnreleased(filteredMovies, parseDate, now);
  }

  /** What the movie dashboard is left with: at most thirty movies of the
      list, newest first, none already downloaded and none dated after now. */
  lemma FilteredMoviesSpec(movieList: seq<MediaItem>, existing: seq<int>, parseDate: string -> Option<int>, now: int)
    ensures var r := FilterMoviesMostRecent(Filter(Filter(movieList, (m: MediaItem) => !Downloaded(existing, m)),
      (m: MediaItem) => !Unreleased(m, parseDate, now)));
      |r| <= MaxMovies && NewestFirst(r) &&
      forall m :: m in r ==>
        m in movieList &&
        (forall k :: 0 <= k < |existing| ==> existing[k] != m.tmdbId) &&
        !Unreleased(m, parseDate, now)
  {
  }

  // ---------------------------------------------------------------------
  // Ratings
  // ---------------------------------------------------------------------

  /** The score of the first rating from "imdb", if any. */
  function GetImdbRatingFromRatingsList(ratings: seq<Rating>): (r: Option<real>)
    ensures (forall k :: 0 <= k < |ratings| ==> ratings[k].source != "imdb") ==> r.None?
    ensures forall k :: (0 <= k < |ratings| && ratings[k].source == "imdb" &&
                         (forall j :: 0 <= j < k ==> ratings[j].source != "imdb")) ==> r == ratings[k].score
  {
    match FirstWhere(ratings, (x: Rating) => x.source == "imdb")
    case None => None
    case Some(k) => ratings[k].score
  }

  // ---------------------------------------------------------------------
  // Shows
  // ---------------------------------------------------------------------

  /** `AirDate?.Split('T')[0]`: the date before the first 'T'. */
  function DatePart(airDate: Option<string>): (r: Option<string>)
    ensures r.None? <==> airDate.None?
    ensures r.Some? ==>
      |r.value| <= |airDate.value| && 'T' !in r.value && r.value == airDate.value[..|r.value|] &&
      (|r.value| < |airDate.value| ==> airDate.value[|r.value|] == 'T')
  {
    match airDate
    case None => None
    case Some(s) =>
      var parts := Split(s, 'T');
      assert 'T' in s ==> parts[0] == s[..IndexOf(s, 'T')];
      Some(parts[0])
  }

  function SeasonItem(s: ShowSeason): MediaSeasonItem {
    MediaSeasonItem(s.tmdbId, s.seasonNumber, s.episodeCount, s.name, DatePart(s.airDate))
  }

  /** The seasons kept from `seasons`: those with episodes, in order. */
  function SeasonItems(seasons: seq<ShowSeason>): (r: seq<MediaSeasonItem>)
    ensures |r| <= |seasons|
    ensures forall k :: 0 <= k < |r| ==> r[k].episodeCount > 0
    ensures (exists k :: 0 <= k < |seasons| && seasons[k].episodeCount > 0) <==> r != []
  {
    if seasons == [] then []
    else
      var init := SeasonItems(seasons[..|seasons| - 1]);
      var last := seasons[|seasons| - 1];
      assert forall k :: 0 <= k < |seasons| - 1 ==> seasons[..|seasons| - 1][k] == seasons[k];
      if last.episodeCount <= 0 then init else init + [SeasonItem(last)]
  }

  /** The inner loop: map the seasons with episodes. */
  method BuildSeasonItems(seasons: seq<ShowSeason>) returns (items: seq<MediaSeasonItem>)
    ensures items == SeasonItems(seasons)
  {
    items := [];
    var i := 0;
    while i < |seasons|
      invariant 0 <= i <= |seasons|
      invariant items == SeasonItems(seasons[..i])
    {
      assert seasons[..i + 1][..i] == seasons[..i];
      if seasons[i].episodeCount > 0 {
        items := items + [MediaSeasonItem(seasons[i].tmdbId, seasons[i].seasonNumber, seasons[i].episodeCount,
          seasons[i].name, DatePart(seasons[i].airDate))];
      }
      i := i + 1;
    }
    assert seasons[..i] == seasons;
  }

  /** A show's seasons: none unless the info lists some with episodes. */
  function ShowSeasons(info: MediaShowInfo): (r: Option<seq<MediaSeasonItem>>)
    ensures r.Some? ==> r.value != [] && forall k :: 0 <= k < |r.value| ==> r.value[k].episodeCount > 0
  {
    if info.seasons.Some? && info.seasons.value != [] then
      var items := SeasonItems(info.seasons.value);
      if items == [] then None else Some(items)
    else None
  }

  /** The info record whose IMDb id is the show's. */
  function MatchingShowInfo(infos: seq<MediaShowInfo>, imdbId: Option<string>): Option<nat> {
    FirstWhere(infos, (info: MediaShowInfo) => info.infoIds.Some? && info.infoIds.value.imdbId == imdbId)
  }

  predicate HasShowInfo(infos: seq<MediaShowInfo>, show: MediaItem) {
    !IsNullOrEmpty(show.imdbId) && MatchingShowInfo(infos, show.imdbId).Some?
  }

  function ShowItem(show: MediaItem, info: MediaShowInfo): MediaItem {
    MediaItem(
      info.id,
      match info.genres { case None => None case Some(g) => Some(Filter(g, (t: string) => t != "")) },
      show.title,
      info.poster,
      show.imdbId,
      match info.infoIds { case None => 0 case Some(ids) => ids.tmdbId },
      info.year,
      info.description,
      None,
      ShowSeasons(info),
      match info.ratings { case None => None case Some(rs) => GetImdbRatingFromRatingsList(rs) },
      None)
  }

  /** The item a show gets, when it gets one. */
  function ShowEntry(infos: seq<MediaShowInfo>, show: MediaItem): MediaItem
    requires HasShowInfo(infos, show)
  {
    ShowItem(show, infos[MatchingShowInfo(infos, show.imdbId).value])
  }

  /** The items after the outer loop has gone through `shows`. */
  function ShowItems(shows: seq<MediaItem>, infos: seq<MediaShowInfo>): (r: seq<MediaItem>)
    ensures |r| <= |shows|
  {
    if shows == [] then []
    else
      var init := ShowItems(shows[..|shows| - 1], infos);
      var show := shows[|shows| - 1];
      if HasShowInfo(infos, show) then init + [ShowEntry(infos, show)] else init
  }

  /** `BuildTvShowMediaItems`: skip shows without an IMDb id or without a
      matching info record, and build an item for each other one. */
  method BuildTvShowMediaItems(shows: seq<MediaItem>, infos: seq<MediaShowInfo>) returns (items: seq<MediaItem>)
    ensures items == ShowItems(shows, infos)
  {
    items := [];
    var i := 0;
    while i < |shows|
      invariant 0 <= i <= |shows|
      invariant items == ShowItems(shows[..i], infos)
    {
      assert shows[..i + 1][..i] == shows[..i];
      var show := shows[i];
      if IsNullOrEmpty(show.imdbId) {
        i := i + 1;
        continue;
      }
      var match_ := MatchingShowInfo(infos, show.imdbId);
      if match_.None? {
        i := i + 1;
        continue;
      }
      var info := infos[match_.value];
      var seasonItems: Option<seq<MediaSeasonItem>> := None;
      if info.seasons.Some? && info.seasons.value != [] {
        var built := BuildSeasonItems(info.seasons.value);
        if built != [] {
          seasonItems := Some(built);
        }
      }
      items := items + [MediaItem(
        info.id,
        match info.genres { case None => None case Some(g) => Some(Filter(g, (t: string) => t != "")) },
        show.title,
        info.poster,
        show.imdbId,
        match info.infoIds { case None => 0 case Some(ids) => ids.tmdbId },
        info.year,
        info.description,
        None,
        seasonItems,
        match info.ratings { case None => None case Some(rs) => GetImdbRatingFromRatingsList(rs) },
        None)];
      i := i + 1;
    }
    assert shows[..i] == shows;
  }

  /** One item per show with an IMDb id and a matching info record, in the
      shows' order; each takes its IMDb id from the show, its TMDB id from
      the info, and seasons only when some have episodes. */
  lemma {:induction false} ShowItemsSpec(shows: seq<MediaItem>, infos: seq<MediaShowInfo>)
    ensures var kept := Filter(shows, (s: MediaItem) => HasShowInfo(infos, s));
      |ShowItems(shows, infos)| == |kept| &&
      forall k :: 0 <= k < |kept| ==>
        HasShowInfo(infos, kept[k]) &&
        ShowItems(shows, infos)[k] == ShowEntry(infos, kept[k])
  {
    if shows != [] {
      ShowItemsSpec(shows[..|shows| - 1], infos);
    }
  }

  /** What every built item satisfies. */
  lemma ShowEntrySpec(infos: seq<MediaShowInfo>, show: MediaItem)
    requires HasShowInfo(infos, show)
    ensures var item := ShowEntry(infos, show);
      var info := infos[MatchingShowInfo(infos, show.imdbId).value];
      item.imdbId == show.imdbId && item.imdbId.Some? && item.imdbId.value != "" &&
      info.infoIds.Some? && info.infoIds.value.imdbId == show.imdbId &&
      item.tmdbId == info.infoIds.value.tmdbId &&
      item.title == show.title && item.runtime.None? && item.releaseDateString.None? &&
      (item.seasons.Some? ==>
         item.seasons.value != [] &&
         forall k :: 0 <= k < |item.seasons.value| ==> item.seasons.value[k].episodeCount > 0)
  {
  }

  /** The shows of the TV dashboard: those with a non-empty season list. */
  function ShowsWithSeasons(shows: seq<MediaItem>): (r: seq<MediaItem>)
    ensures forall s :: s in r <==> s in shows && s.seasons.Some? && s.seasons.value != []
  {
    Filter(shows, (s: MediaItem) => s.seasons.Some? && s.seasons.value != [])
  }
}
