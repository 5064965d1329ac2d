# MediaBridge download tracking, in Dafny

MediaBridge is a media-request server. Users ask for movies and TV shows.
MediaBridge hands these requests to Radarr (movies) and Sonarr (series),
and it watches their download queues and the qBittorrent client behind them.
This project models the core of that server and proves properties of the model:

- **The download processor.** A background service runs the processor
  every few seconds. Each run makes three passes:
  - the Sonarr pass;
  - the Radarr pass;
  - the sweeper for stuck media.
- **What a queue pass does.**
  - It asks its app to refresh the monitored downloads.
  - It culls stalled torrents: their queue item is removed and the movie or
    episode is searched for again.
  - It copies each queue record's progress onto the matching
    `DownloadRequests` row: status, percentage, minutes left and completion time.
  - The Sonarr pass also creates episode requests for queued episodes nobody
    requested. It then rolls the episodes' progress up onto the series' parent row.
- **What the sweeper does.**
  - It finalises rows that are downloading but have not been updated for two minutes.
  - It settles each downloading show from its episodes.
- **The scrapes.** They rebuild the `DownloadedMovies` and `DownloadedShows`
  tables from the two libraries.
- **The user's request-status view:** a user's requests of the last six
  months, shows with their episodes.
- **The JSON cache:** one row per key, each with an expiry.
- **User administration:**
  - the username and email rules;
  - adding a user, through `UserService` with a duplicate check and through
    `AddUserService` without one;
  - listing users with their highest role.
- **The dashboard's list filters:**
  - movies already downloaded, or not yet released, are dropped;
  - the 30 newest movies are kept;
  - TV items are built from show info;
  - seasons without episodes are skipped.
- **The runtime formatter:** "2h 15m".

The database context is modelled as it behaves under Entity Framework:

- **`Passes.DbState`** separates three views of the `DownloadRequests` table:
  - the table as saved;
  - the entities the context tracks, with edits not yet saved;
  - the rows added and not yet saved.
- **Queries** select on the saved rows and hand back the tracked entities.
- **`SaveChanges`** commits the tracked entities and the added rows.

`DownloadProcessor.DownloadProcessorService` holds that state in fields and
runs the passes step by step. Each of its methods is proved equal to a
function of `Passes`, and `PassLemmas` proves properties of those functions:
what each step writes, what it keeps, and what a throw leaves behind.
A step that throws returns `ok == false` in its `Passes.Outcome`; the
exception travels as the source's does, to the pass's `catch` or to the
background service's.
The outside services arrive in one value, `Passes.World`:

- Radarr's and Sonarr's queue records;
- qBittorrent's torrent list;
- the lookups from movie id to TMDB id and from series id to TVDB id;
- the episode lists;
- the libraries;
- the clock.

Time is an integer count of seconds. Arithmetic is C#'s: `Numeric.Div`
truncates toward zero, `Numeric.Wrap32` wraps like unchecked `int`, and
`SeriesAggregate.CheckedSum` fails like LINQ's checked `Sum`.

## Model

| member | source | states |
|---|---|---|
| Numeric.Div | Services/Media/Downloads/DownloadProcessorService.cs:815 | C# integer division: for a positive divisor the quotient brackets the dividend, truncating toward zero for negative dividends too |
| Numeric.Wrap32 | Services/Media/Downloads/DownloadProcessorService.cs:878 | the unchecked 32-bit value of an exact result: in range, congruent modulo 2^32, unchanged when the exact result fits |
| Numeric.RoundHalfEven | Services/Media/Downloads/DownloadProcessorService.cs:829-830 | `(int)Math.Round` of a mean: within half a unit of total/count, and on an exact tie the even neighbour (banker's rounding) |
| Numeric.DivMonotone | Services/Media/Downloads/DownloadProcessorService.cs:815 | truncating division by a positive divisor is monotone in the dividend |
| Numeric.DivMulCancel | Services/Media/Downloads/DownloadProcessorService.cs:636-652 | dividing m*b by b gives m back, for either sign of m |
| Text.ToLower | Services/Media/Downloads/DownloadProcessorService.cs:900 | lower-casing keeps the length and maps every character on its own |
| Text.ToLowerOfLower | Services/Media/Downloads/DownloadProcessorService.cs:900 | text without upper-case letters is its own lower case, so lower-casing twice is lower-casing once |
| Text.Split | Services/Media/Downloads/DownloadProcessorService.cs:870 | `string.Split(c)`: at least one part, and no part contains the separator |
| Text.SplitCount | Services/Media/Downloads/DownloadProcessorService.cs:870-871 | the number of parts is the number of separators plus one |
| Text.JoinSplit | Services/Media/Downloads/DownloadProcessorService.cs:870 | joining the parts of a split with the separator gives the string back |
| Text.SplitJoin | Services/Media/Downloads/DownloadProcessorService.cs:870 | splitting a join of separator-free parts gives the parts back |
| Text.ParseInt32 | Services/Media/Downloads/DownloadProcessorService.cs:874-876 | `int.TryParse`: a parsed value is always in the 32-bit range |
| Text.ParseIntToString | Services/Media/Downloads/DownloadProcessorService.cs:874-876 | parsing the printed form of any 32-bit integer gives it back |
| Text.IntToStringChars | src/Services/Helpers/UtilService.cs:17 | a printed number holds only digits and a minus sign |
| Requests.Finalise | Services/Media/Downloads/DownloadProcessorService.cs:177-181 | a finalised row is completed at 100% with 0 minutes left, completion and update time now, keys kept |
| Requests.WhereSpec | Services/Media/Downloads/DownloadProcessorService.cs:168-171 | a LINQ `Where` returns exactly the positions that satisfy the predicate, in increasing order |
| Requests.Filter | Services/Media/Downloads/RequestDownloadStatusService.cs:19-31 | the filtered rows are the input's rows satisfying the predicate, in input order: the k-th kept row is the row at the k-th position a `Where` selects |
| Requests.FirstWhere | Services/Media/Downloads/DownloadProcessorService.cs:110-112 | `FirstOrDefault`: the first position that satisfies the predicate, or none when no row does |
| Progress.GetDownloadStatus | Services/Media/Downloads/DownloadProcessorService.cs:898-911 | the stored status is always one of the seven known statuses |
| Progress.StatusCharacterised | Services/Media/Downloads/DownloadProcessorService.cs:898-911 | "importing" exactly for "importpending"; "queued" exactly for null, "queued" or an unknown status; every other status is passed through lower-cased |
| Progress.StatusIgnoresCase | Services/Media/Downloads/DownloadProcessorService.cs:900 | statuses equal up to case map alike |
| Progress.StatusNotIdempotent | Services/Media/Downloads/DownloadProcessorService.cs:907-909 | "importpending" maps to "importing", which read back maps to "queued" |
| Progress.GetDownloadPercentage | Services/Media/Downloads/DownloadProcessorService.cs:627-635 | 0 without a positive size, between 0 and 100 when the size left is in range, 100 when nothing is left |
| Progress.PercentageMonotone | Services/Media/Downloads/DownloadProcessorService.cs:627-635 | less left to download never lowers the percentage |
| Progress.ParseTimeLeftToMinutes | Services/Media/Downloads/DownloadProcessorService.cs:862-897 | null or empty gives none; a result is always a 32-bit value |
| Progress.ParseTimeParts | Services/Media/Downloads/DownloadProcessorService.cs:869-889 | a time only from two or three parts, each of them a 32-bit integer, giving a 32-bit result |
| Progress.ParseTimeLeftBadPart | Services/Media/Downloads/DownloadProcessorService.cs:874-889 | two or three colon-free parts of which one is not an integer give no time |
| Progress.ParseTimeLeftPartCount | Services/Media/Downloads/DownloadProcessorService.cs:870-889 | a string with no colon or more than two colons is never a time |
| Progress.ParseTimeLeftJoined | Services/Media/Downloads/DownloadProcessorService.cs:870-889 | a time is parsed part by part, the parts being the text between the colons |
| Progress.ParseTimeLeftFormatted | Services/Media/Downloads/DownloadProcessorService.cs:871-879 | "H:M:S" printed from 32-bit values parses to the (wrapping) minute count |
| Progress.ParseTimeLeftFormattedShort | Services/Media/Downloads/DownloadProcessorService.cs:881-888 | "M:S" likewise |
| Progress.MinutesExact | Services/Media/Downloads/DownloadProcessorService.cs:878 | for clock-sized values the minute count is exact: h*60+m plus one for more than 30 seconds |
| Progress.ParseClock | Services/Media/Downloads/DownloadProcessorService.cs:869-879 | a zero-padded "HH:MM:SS" parses to h*60+m plus one for more than 30 seconds |
| Progress.GetMinutesLeft | Services/Media/Downloads/DownloadProcessorService.cs:636-652 | 0 without a positive size, without anything downloaded, or without a parsable time |
| Progress.MinutesLeftWhenComplete | Services/Media/Downloads/DownloadProcessorService.cs:636-652 | with the whole size downloaded the estimate is the parsed time itself |
| Progress.MinutesLeftAtLeastParsed | Services/Media/Downloads/DownloadProcessorService.cs:636-652 | with part of the size downloaded the estimate is at least the parsed time |
| TorrentHealth.ShouldCull | Services/Media/Downloads/DownloadProcessorService.cs:388-417 | culled exactly when the torrent is old enough, in a downloading state, not receiving, idle past its threshold, seedless and scarce |
| TorrentHealth.CullIgnoresUploadSpeed | Services/Media/Downloads/DownloadProcessorService.cs:404-408 | the upload speed never affects the decision |
| TorrentHealth.CullMonotoneInTime | Services/Media/Downloads/DownloadProcessorService.cs:391-417 | a torrent culled now would still be culled later |
| TorrentHealth.FindTorrent | Services/Media/Downloads/DownloadProcessorService.cs:332-333 | the first torrent whose id equals the queue id ignoring case: every earlier torrent differs; none exactly when no torrent matches |
| TorrentHealth.CullList | Services/Media/Downloads/DownloadProcessorService.cs:330-343 | at most one culled id per queue id |
| TorrentHealth.CheckTorrentHealth | Services/Media/Downloads/DownloadProcessorService.cs:330-344 | the loop returns the cull list: at most one id per queue id, each of a condemned torrent |
| TorrentHealth.CullListSound | Services/Media/Downloads/DownloadProcessorService.cs:330-343 | every culled id is a condemned torrent named by a queue id |
| TorrentHealth.CullListComplete | Services/Media/Downloads/DownloadProcessorService.cs:330-343 | every queue id whose torrent is condemned has that torrent's id in the list |
| Queue.RadarrEntries | Services/Media/Downloads/DownloadProcessorService.cs:56-59 | one culling entry per Radarr record with its id, torrent id and movie id |
| Queue.SonarrEntries | Services/Media/Downloads/DownloadProcessorService.cs:268-271 | one culling entry per Sonarr record with its id, torrent id and episode id |
| Queue.TorrentIds | Services/Media/Downloads/DownloadProcessorService.cs:56-59 | the non-empty torrent ids of the queue in queue order: the k-th id is the torrent id of the k-th entry that has one |
| Queue.TorrentIdsCount | Services/Media/Downloads/DownloadProcessorService.cs:56-59 | an id appears in the list as many times as queue entries carry it, so a season pack's torrent appears once per episode |
| Queue.FirstByTorrent | Services/Media/Downloads/DownloadProcessorService.cs:65-66 | the first queue entry whose torrent id equals the id ignoring case: no earlier entry matches; none when no entry matches |
| Queue.CullCommands | Services/Media/Downloads/DownloadProcessorService.cs:61-89 | at most two commands per culled id; the loop finished exactly when it sent an even number of commands; a loop that threw ends with a removal |
| Queue.CullCommandsRepeat | Services/Media/Downloads/DownloadProcessorService.cs:273-302 | a torrent id listed twice has its queue item removed and searched for twice |
| Queue.CullCommandsOk | Services/Media/Downloads/DownloadProcessorService.cs:61-89 | the culling loop finishes exactly when every culled torrent's queue item has a movie or episode id |
| Queue.CullCommandsPaired | Services/Media/Downloads/DownloadProcessorService.cs:273-302 | a finished loop sends only pairs, each the removal of a queue item that has a movie or episode id followed by the search for that id |
| Queue.CullCommandsInOrder | Services/Media/Downloads/DownloadProcessorService.cs:61-89 | a finished loop sends exactly one pair per culled id found in the queue, in cull-list order: the k-th found id's pair removes its first queue item and searches for that item's movie or episode |
| Queue.CullCommandsStopped | Services/Media/Downloads/DownloadProcessorService.cs:77 | once a queue item without an id has thrown, nothing more is sent |
| Queue.RemoveAndSearchAgain | Services/Media/Downloads/DownloadProcessorService.cs:61-89 | the loop sends the commands of the culling specification and reports whether it threw |
| Queue.AddToGroups | Services/Media/Downloads/DownloadProcessorService.cs:588-591 | a record joins its series' group or opens one new group |
| Queue.AddToGroupsSpec | Services/Media/Downloads/DownloadProcessorService.cs:588-591 | adding a record keeps the group keys distinct and appends it to its series' group only |
| Queue.GroupBySeries | Services/Media/Downloads/DownloadProcessorService.cs:588-591 | the groups have distinct series keys and there are no more groups than records |
| Queue.GroupBySeriesSpec | Services/Media/Downloads/DownloadProcessorService.cs:588-591 | the grouping has distinct series keys; each group holds exactly that series' eligible records in queue order; no eligible record is left out |
| Queue.EveryRecordGrouped | Services/Media/Downloads/DownloadProcessorService.cs:588-591 | every record with a series and an episode id has its series' group |
| Inventory.MovieRows | Services/Media/Downloads/DownloadProcessorService.cs:541-578 | one `DownloadedMovies` row per library movie, in order |
| Inventory.MovieRowsTmdbIds | Services/Media/Downloads/DownloadProcessorService.cs:541-578 | a TMDB id is in the rebuilt table exactly when a library movie has it |
| Inventory.BuildMovieRows | Services/Media/Downloads/DownloadProcessorService.cs:541-578 | the scrape's loop builds exactly the specified rows |
| Inventory.AllShowsInSeasonDownloaded | Services/Media/Downloads/DownloadProcessorService.cs:507-534 | complete exactly when something is on disk, more than one episode is counted, and file count equals total count |
| Inventory.SeasonRow | Services/Media/Downloads/DownloadProcessorService.cs:468-496 | a season row carries its season number, the show's TVDB id and the season's completeness |
| Inventory.SeasonRows | Services/Media/Downloads/DownloadProcessorService.cs:456-497 | at most one row per season, each a season row with the show's TVDB id |
| Inventory.ShowRows | Services/Media/Downloads/DownloadProcessorService.cs:427-498 | at least one row per show of the library |
| Inventory.ScrapeShowRows | Services/Media/Downloads/DownloadProcessorService.cs:427-498 | the rows exist exactly when every series has a first-aired date and statistics and every numbered season has statistics; otherwise reading the series throws (lines 438, 442, 463) |
| Inventory.ScrapeFailsWithoutFirstAired | Services/Media/Downloads/DownloadProcessorService.cs:438 | a series without a first-aired date makes the whole scrape throw |
| Inventory.ScrapeSeasonlessLibrary | Services/Media/Downloads/DownloadProcessorService.cs:427-452 | a readable library without season lists gives one parent row per series, in order, each without files |
| Inventory.SeasonRowsSpec | Services/Media/Downloads/DownloadProcessorService.cs:418-502 | one season row per numbered season and none for season 0, both directions |
| Inventory.ParentHasFile | Services/Media/Downloads/DownloadProcessorService.cs:418-502 | a parent row has its files exactly when the show lists seasons and every numbered season is complete |
| Inventory.ShowRowCount | Services/Media/Downloads/DownloadProcessorService.cs:430-447 | the parent row counts the numbered seasons, that many season rows follow it, and it carries the series' first-aired date |
| Inventory.SingleEpisodeSeasonIncomplete | Services/Media/Downloads/DownloadProcessorService.cs:515-533 | a season of at most one episode is never complete |
| Inventory.BuildSeasonRows | Services/Media/Downloads/DownloadProcessorService.cs:456-497 | the inner loop builds the season rows and whether all have their files; none exactly when a numbered season has no statistics |
| Inventory.BuildRowsOfShow | Services/Media/Downloads/DownloadProcessorService.cs:427-498 | one pass of the outer loop: the series' rows, none exactly when reading the series throws |
| Inventory.BuildShowRows | Services/Media/Downloads/DownloadProcessorService.cs:418-502 | the scrape's loops build exactly the specified show rows, and none when some series throws |
| SeriesAggregate.CheckedSum | Services/Media/Downloads/DownloadProcessorService.cs:814 | a checked sum, when it succeeds, is the exact sum and fits in 32 bits |
| SeriesAggregate.PercentSumFits | Services/Media/Downloads/DownloadProcessorService.cs:814 | percentages in 0..100 never overflow for a series of fewer than 21 million episodes |
| SeriesAggregate.Aggregate | Services/Media/Downloads/DownloadProcessorService.cs:785-861 | the roll-up keeps the parent's keys and any completion time; it stamps the update time; the status is one of three; it fails exactly when the sum overflows |
| SeriesAggregate.ParentStatus | Services/Media/Downloads/DownloadProcessorService.cs:818-853 | one of three statuses; completed exactly when every episode is; queued only with a queued episode and none downloading |
| SeriesAggregate.AggregateStatus | Services/Media/Downloads/DownloadProcessorService.cs:818-853 | completed iff every episode is; queued iff none downloading and one queued; downloading otherwise |
| SeriesAggregate.AggregateCompletedAt | Services/Media/Downloads/DownloadProcessorService.cs:838-845 | the completion time is stamped the first time all episodes are completed and never overwritten |
| SeriesAggregate.AggregatePercent | Services/Media/Downloads/DownloadProcessorService.cs:812-821 | the parent's percentage is the truncated mean, between 0 and 100, and 100 exactly when every episode is at 100 |
| SeriesAggregate.AggregateMinutes | Services/Media/Downloads/DownloadProcessorService.cs:825-835 | no minutes left exactly when no episode is active; otherwise the mean of the active episodes' minutes rounded half to even: within half a unit of it, ties going to the even value, and within the active range |
| SeriesAggregate.ActiveMinutesMembers | Services/Media/Downloads/DownloadProcessorService.cs:826 | the active minutes are those of episodes not completed and with a value |
| SeriesAggregate.AggregateIdempotent | Services/Media/Downloads/DownloadProcessorService.cs:785-861 | rolling up the same episodes a second time changes nothing but the update time |
| Passes.SaveChanges | Services/Media/Downloads/DownloadProcessorService.cs:140 | after a save nothing is pending and the table holds the tracked and added rows |
| Passes.ScrapeMovies | Services/Media/Downloads/DownloadProcessorService.cs:574-577 | the movie table is replaced by the library and the whole context is saved |
| Passes.ScrapeShows | Services/Media/Downloads/DownloadProcessorService.cs:418-502 | when every series is readable the show table is replaced by the library's rows and the whole context is saved; otherwise the scrape throws and nothing changes |
| Passes.Rows | Services/Media/Downloads/DownloadProcessorService.cs:600-602 | a query's result: the tracked entity at each selected position |
| Passes.RadarrItem | Services/Media/Downloads/DownloadProcessorService.cs:104-139 | the context stays well formed; the fields written are stated by `PassLemmas.RadarrItemWrites` |
| Passes.RadarrItemsStopped | Services/Media/Downloads/DownloadProcessorService.cs:104-139 | once a record has thrown, the later records change nothing |
| Passes.RadarrPass | Services/Media/Downloads/DownloadProcessorService.cs:29-141 | the context stays well formed; what the pass keeps is stated by `PassLemmas.RadarrPassPreserves` |
| Passes.EpisodeIds | Services/Media/Downloads/DownloadProcessorService.cs:599 | exactly the episode ids of the group |
| Passes.MissingIds | Services/Media/Downloads/DownloadProcessorService.cs:608-610 | the group's episode ids that no existing request carries, and only those |
| Passes.ItemsWithIds | Services/Media/Downloads/DownloadProcessorService.cs:614-616 | the group's items whose episode id is missing, and only those |
| Passes.UpdateOne | Services/Media/Downloads/DownloadProcessorService.cs:655-677 | the context stays well formed and loses no tracked entity; it throws only when the nested show scrape finds an unreadable series |
| Passes.UpdateExisting | Services/Media/Downloads/DownloadProcessorService.cs:653-679 | likewise for the loop over the existing episode requests, which stops at the first throw |
| Passes.UpdateExistingStopped | Services/Media/Downloads/DownloadProcessorService.cs:653-679 | once one update has thrown, the later existing requests change nothing |
| Passes.NewEpisodeRows | Services/Media/Downloads/DownloadProcessorService.cs:700-778 | at most one new request per queue item, each carrying one of the items' episode ids |
| Passes.AddMissing | Services/Media/Downloads/DownloadProcessorService.cs:680-784 | new episode requests are only added, never saved: the table and the tracked entities stay as they were |
| Passes.UpdateParent | Services/Media/Downloads/DownloadProcessorService.cs:785-861 | the roll-up changes a tracked entity only: nothing is saved or added |
| Passes.SonarrGroup | Services/Media/Downloads/DownloadProcessorService.cs:593-622 | one series group keeps the context well formed; it throws only from the nested show scrape |
| Passes.SonarrGroups | Services/Media/Downloads/DownloadProcessorService.cs:593-622 | likewise for the loop over the groups, which stops at the first throw |
| Passes.SonarrGroupsStopped | Services/Media/Downloads/DownloadProcessorService.cs:593-622 | once one group has thrown, the later groups change nothing |
| Passes.ProcessSonarrItems | Services/Media/Downloads/DownloadProcessorService.cs:585-626 | when no group throws the context ends saved; a throw comes only from an unreadable series library and skips the save at line 625 |
| Passes.SonarrPass | Services/Media/Downloads/DownloadProcessorService.cs:241-312 | the context stays well formed; a throw inside is caught at lines 307-311 with the edits left unsaved |
| Passes.FinaliseAt | Services/Media/Downloads/DownloadProcessorService.cs:175-183 | finalising edits tracked entities only |
| Passes.SettleShows | Services/Media/Downloads/DownloadProcessorService.cs:211-230 | settling edits tracked entities only |
| Passes.SweepMovies | Services/Media/Downloads/DownloadProcessorService.cs:168-185 | the movie step keeps the context well formed |
| Passes.SweepEpisodes | Services/Media/Downloads/DownloadProcessorService.cs:187-205 | the episode step throws exactly when there is a stuck episode and the nested show scrape finds an unreadable series |
| Passes.Sweep | Services/Media/Downloads/DownloadProcessorService.cs:166-233 | the sweeper ends with everything saved when it does not throw, and it throws exactly when its episode step does |
| Passes.EndScope | src/Services/Background/DownloadQueueBackgroundService.cs:35 | disposing the scope drops unsaved edits: nothing is pending and the saved tables are kept |
| Passes.Tick | src/Services/Background/DownloadQueueBackgroundService.cs:33-46 | one run of the background service (Sonarr pass, Radarr pass, sweeper, a throw caught) ends with a clean context |
| PassLemmas.RadarrPassPreserves | Services/Media/Downloads/DownloadProcessorService.cs:29-141 | the Radarr pass never changes what a request is about and never overwrites a completion time |
| PassLemmas.RadarrPassOnlyMovies | Services/Media/Downloads/DownloadProcessorService.cs:101-141 | the Radarr pass leaves every request that is not a movie request unchanged |
| PassLemmas.RadarrPassIdle | Services/Media/Downloads/DownloadProcessorService.cs:31-52 | without an active movie request or without queue records, the pass only pokes Radarr |
| PassLemmas.RadarrItemWrites | Services/Media/Downloads/DownloadProcessorService.cs:104-139 | a record with a mapped movie id and a matching request writes its status, percentage, parsed minutes, update time and movie id into that request, stamps the completion time only on the first completion, and keeps its keys |
| PassLemmas.UpdateExistingPreserves | Services/Media/Downloads/DownloadProcessorService.cs:653-679 | updating existing episode requests keeps their keys and any completion time |
| PassLemmas.UpdateOneWrites | Services/Media/Downloads/DownloadProcessorService.cs:655-677 | an episode request with a matching queue item takes its status, percentage, estimated minutes and update time, a completion time only on the first completion, and keeps its keys |
| PassLemmas.UpdateParentPreserves | Services/Media/Downloads/DownloadProcessorService.cs:785-861 | the roll-up keeps the parent's keys and any completion time |
| PassLemmas.UpdateParentNoop | Services/Media/Downloads/DownloadProcessorService.cs:794-810 | without episodes of the series, without a TVDB id on the first one (the `!` at line 801 throws inside the method's own `try`), or without a parent request, the roll-up changes nothing |
| PassLemmas.UpdateParentWrites | Services/Media/Downloads/DownloadProcessorService.cs:785-861 | otherwise the parent request alone takes the aggregate of the episodes, when the aggregate succeeds |
| PassLemmas.SonarrPassPreserves | Services/Media/Downloads/DownloadProcessorService.cs:241-312 | the Sonarr pass never changes what a request is about nor overwrites a completion time; new rows are only appended |
| PassLemmas.SonarrPassIdle | Services/Media/Downloads/DownloadProcessorService.cs:246-266 | without an active series or episode request, or without queue records, the pass only pokes Sonarr |
| PassLemmas.MissingItemsSpec | Services/Media/Downloads/DownloadProcessorService.cs:608-618 | the items handed to `AddMissingEpisodes` are exactly the group's items whose episode has no request |
| PassLemmas.AddMissingRows | Services/Media/Downloads/DownloadProcessorService.cs:680-784 | added requests are episode requests of the series, with its TVDB id, the parent's user and no completion, each for a queued episode; nothing is added without a parent |
| PassLemmas.UpdateParentIgnoresAdded | Services/Media/Downloads/DownloadProcessorService.cs:790-792 | unsaved new requests play no part in the roll-up |
| PassLemmas.FinaliseAtSpec | Services/Media/Downloads/DownloadProcessorService.cs:175-183 | the selected entities are finalised and every other entity is unchanged |
| PassLemmas.SweepStepSpec | Services/Media/Downloads/DownloadProcessorService.cs:168-183 | a sweep step finalises exactly the downloading rows of its media type not updated for two minutes |
| PassLemmas.SweepMoviesSpec | Services/Media/Downloads/DownloadProcessorService.cs:168-185 | on a clean context the movie step finalises exactly the stuck movies |
| PassLemmas.SweepEpisodesSpec | Services/Media/Downloads/DownloadProcessorService.cs:187-205 | on a clean context an episode step that does not throw finalises exactly the stuck episodes |
| PassLemmas.SweepEpisodesAborted | Services/Media/Downloads/DownloadProcessorService.cs:187-205 | an episode step that throws has finalised the stuck episodes in the context only: the saved table and the show table are unchanged |
| PassLemmas.TickSweepAborted | src/Services/Background/DownloadQueueBackgroundService.cs:33-46 | when the sweeper throws, the run ends with the table as saved after the movie step: the episode finalising and the settling are lost |
| PassLemmas.SettledRowSpec | Services/Media/Downloads/DownloadProcessorService.cs:211-230 | a settled show takes its first episode's series id; it is completed exactly when all its episodes are; otherwise its status is kept |
| PassLemmas.SettledShowWithoutEpisodes | Services/Media/Downloads/DownloadProcessorService.cs:213-226 | a show without any episode request is completed by the sweeper |
| PassLemmas.SettleShowFrame | Services/Media/Downloads/DownloadProcessorService.cs:211-230 | settling one show changes that show's row only |
| PassLemmas.SettleShowsSpec | Services/Media/Downloads/DownloadProcessorService.cs:211-230 | the loop settles each show as if it were alone and leaves every other row unchanged |
| PassLemmas.SweepShowsSpec | Services/Media/Downloads/DownloadProcessorService.cs:207-232 | every downloading show is settled from its episodes, every other row is kept, and everything is saved |
| DownloadProcessor.DownloadProcessorService.ScrapeRadarrMovies | Services/Media/Downloads/DownloadProcessorService.cs:541-578 | the new state is the movie scrape of the old one |
| DownloadProcessor.DownloadProcessorService.ScrapeSonarrShows | Services/Media/Downloads/DownloadProcessorService.cs:418-502 | the new state and whether it threw are those of the show scrape |
| DownloadProcessor.DownloadProcessorService.ProcessRadarrQueueItems | Services/Media/Downloads/DownloadProcessorService.cs:101-141 | the loop's new state and outcome are those of the Radarr item specification |
| DownloadProcessor.DownloadProcessorService.ProcessRadarrQueue | Services/Media/Downloads/DownloadProcessorService.cs:29-100 | new state and commands sent are those of the Radarr pass |
| DownloadProcessor.DownloadProcessorService.UpdateExistingSonarrDownloads | Services/Media/Downloads/DownloadProcessorService.cs:653-679 | the new state and whether it threw are those of the specified update of the existing episode requests |
| DownloadProcessor.DownloadProcessorService.AddMissingEpisodes | Services/Media/Downloads/DownloadProcessorService.cs:680-784 | the new state is the specified addition of missing episode requests |
| DownloadProcessor.DownloadProcessorService.UpdateParentSeriesProgress | Services/Media/Downloads/DownloadProcessorService.cs:785-861 | the new state is the specified roll-up |
| DownloadProcessor.DownloadProcessorService.ProcessSeriesGroup | Services/Media/Downloads/DownloadProcessorService.cs:593-622 | the new state and whether it threw are those of one series group |
| DownloadProcessor.DownloadProcessorService.ProcessSonarrQueueItems | Services/Media/Downloads/DownloadProcessorService.cs:585-626 | the new state and whether it threw are those of the specified processing of the series groups, with the save only when nothing threw |
| DownloadProcessor.DownloadProcessorService.ProcessSonarrQueue | Services/Media/Downloads/DownloadProcessorService.cs:241-312 | new state and commands sent are those of the Sonarr pass |
| DownloadProcessor.DownloadProcessorService.FinaliseRows | Services/Media/Downloads/DownloadProcessorService.cs:175-183 | the new state is the specified finalising |
| DownloadProcessor.DownloadProcessorService.SettleDownloadingShows | Services/Media/Downloads/DownloadProcessorService.cs:211-230 | the new state is the specified settling |
| DownloadProcessor.DownloadProcessorService.SweepStuckMovies | Services/Media/Downloads/DownloadProcessorService.cs:168-185 | the new state is the movie step |
| DownloadProcessor.DownloadProcessorService.SweepStuckEpisodes | Services/Media/Downloads/DownloadProcessorService.cs:187-205 | the new state and whether it threw are those of the episode step |
| DownloadProcessor.DownloadProcessorService.ProcessStuckMedia | Services/Media/Downloads/DownloadProcessorService.cs:166-233 | the new state and whether it threw are those of the sweep |
| RequestStatus.BuildMovieMediaRequestStatus | Services/Media/Downloads/RequestDownloadStatusService.cs:57-73 | a movie entry copies id, type, status, percentage, minutes and completion time, and has no episode list |
| RequestStatus.BuildShowMediaRequestStatus | Services/Media/Downloads/RequestDownloadStatusService.cs:74-114 | a show entry copies the show's fields; its episode list is absent exactly when there are no episodes, else one entry per episode with its fields |
| RequestStatus.Entries | Services/Media/Downloads/RequestDownloadStatusService.cs:34-52 | at most one entry per row, each a movie or a show entry |
| RequestStatus.GetDownloadRequestsStatus | Services/Media/Downloads/RequestDownloadStatusService.cs:15-56 | success exactly when the user has a request from the last six months; otherwise the fixed reason and no list |
| RequestStatus.EntriesSpec | Services/Media/Downloads/RequestDownloadStatusService.cs:34-52 | the loop's entries are one per top-level row (movie or show), in order |
| RequestStatus.ResponseSpec | Services/Media/Downloads/RequestDownloadStatusService.cs:15-56 | each listed entry corresponds to one of the user's recent top-level requests, with its fields |
| RequestStatus.ShowEpisodesSpec | Services/Media/Downloads/RequestDownloadStatusService.cs:45-47 | a show's episodes are exactly the recent rows with its TVDB id and an episode id, in row order, each with that row's id, status, percentage and minutes |
| Caching.Lookup | Services/Helpers/Caching.cs:15-20 | a hit is a row with the key that has not expired; none exactly when no such row exists |
| Caching.Store | Services/Helpers/Caching.cs:22-43 | the new row is stored, every row of another key is kept, and nothing else is added |
| Caching.RemoveKey | Services/Helpers/Caching.cs:24-31 | removing keeps only existing rows and every row of another key |
| Caching.StoreUnique | Services/Helpers/Caching.cs:22-43 | storing keeps cache keys unique |
| Caching.StoreThenLookup | Services/Helpers/Caching.cs:22-43 | a lookup right after storing for a positive number of hours returns the stored data |
| Caching.LookupUnique | Services/Helpers/Caching.cs:15-20 | with unique keys, a lookup returns the one live row of that key |
| Caching.StoreOtherKeys | Services/Helpers/Caching.cs:22-43 | storing one key leaves every other key's rows and lookups unchanged |
| Caching.StoreExpired | Services/Helpers/Caching.cs:33-39 | data stored for zero or negative hours is never found |
| Caching.CacheTable.GetCachedData | Services/Helpers/Caching.cs:15-20 | returns the specified lookup |
| Caching.CacheTable.CacheData | Services/Helpers/Caching.cs:22-43 | the table becomes the specified store of the old one and keeps its keys unique |
| Util.RunTimeParts | src/Services/Helpers/UtilService.cs:13-15 | hours*60+minutes is the runtime; minutes in 0..59 for a non-negative runtime, in -59..0 for a negative one |
| Util.CalculateRunTimeHours | src/Services/Helpers/UtilService.cs:9-25 | empty exactly for a null runtime; otherwise "Hh Mm" for the hour/minute split |
| Util.RunTimePartsInInt32 | src/Services/Helpers/UtilService.cs:13-15 | the split never overflows a 32-bit int |
| Util.RunTimeHoursReadBack | src/Services/Helpers/UtilService.cs:17 | the hours and minutes can be parsed back from the string |
| Util.RunTimeExamples | src/Services/Helpers/UtilService.cs:9-25 | 135 gives "2h 15m", 60 gives "1h 0m", -75 gives "-1h -15m" |
| AccountRules.CheckUsername | Services/Admin/UserService.cs:119-134 | valid exactly for 4 to 14 characters, and valid exactly when there is no reason |
| AccountRules.CheckEmail | Services/Admin/UserService.cs:135-171 | valid exactly when there is no reason |
| AccountRules.CheckEmailShape | Services/Admin/UserService.cs:135-171 | a valid email is local@name.rest with exactly one '@', all parts non-empty, and no dot in the name |
| AccountRules.CheckEmailAccepts | Services/Admin/UserService.cs:135-171 | conversely every such local@name.rest is valid |
| AccountRules.TrailingDotRejected | Services/Admin/UserService.cs:135-171 | "a@b." is rejected for missing parts |
| AccountRules.DoubledDotAccepted | Services/Admin/UserService.cs:135-171 | "a@b..c" is accepted |
| AccountRules.TwoAtsRejected | Services/Admin/UserService.cs:135-171 | "a@@b.c" is rejected for the '@' count |
| AccountRules.NoDotRejected | Services/Admin/UserService.cs:135-171 | "a@bc" is rejected for the missing dot |
| AccountRules.HighestRole | Services/Admin/UserService.cs:172-199 | no role gives the empty string; otherwise the result is one of the roles held |
| AccountRules.HighestRoleRanks | Services/Admin/UserService.cs:172-199 | for known roles the result is the highest-ranked role held (Admin, then Maintainer, then User) |
| AccountRules.HighestRoleOrderFree | Services/Admin/UserService.cs:172-199 | for known roles the result does not depend on their order |
| AccountRules.AdminStays | Services/Admin/UserService.cs:172-199 | once Admin is found, it is the result |
| AccountRules.GetHighestRole | Services/Admin/UserService.cs:172-199 | the loop returns the specified highest role |
| AccountRules.UnknownRoleOrder | Services/Admin/UserService.cs:172-199 | with an unknown role the result depends on order: it can override Maintainer or be overridden by it |
| UserServices.ValidationRejection | Services/Admin/UserService.cs:30-46 | rejected exactly when a rule fails, with the username's reason first, then the email's |
| UserServices.AddUserRejection | Services/Admin/UserService.cs:22-46 | a taken username or email is rejected with "already exists" before any rule is checked |
| UserServices.AddUserKeepsNoDuplicates | Services/Admin/UserService.cs:22-74 | adding through `UserService` keeps usernames and emails unique ignoring case |
| UserServices.AddUnlinkedUserAllowsDuplicates | Services/Admin/AddUserService.cs:15-61 | adding through `AddUserService` twice with the same data stores two users |
| UserServices.UsersListing | Services/Admin/UserService.cs:84-118 | success exactly when there are users; otherwise "No users" and no list; else one entry per user |
| UserServices.UserEntriesSpec | Services/Admin/UserService.cs:103-114 | each entry copies the user's id, name and email and shows the highest role, which is the ranked role for known roles |
| UserServices.UserService.AddUser | Services/Admin/UserService.cs:17-83 | the table gains the user exactly on success; success exactly when not taken and valid; the rejection reason; on success the generated password |
| UserServices.UserService.GetUsers | Services/Admin/UserService.cs:84-118 | the loop returns the specified listing |
| UserServices.AddUserService.AddUser | Services/Admin/AddUserService.cs:15-61 | the table gains the user exactly when both rules pass; no password is returned |
| Dashboard.SortByYearDescending | Services/Dashboard/DashboardService.cs:430 | the sort is a permutation of the input, newest first |
| Dashboard.InsertByYearSorted | Services/Dashboard/DashboardService.cs:430 | inserting into a newest-first list keeps it newest first |
| Dashboard.FilterMoviesMostRecent | Services/Dashboard/DashboardService.cs:428-431 | at most 30 movies, newest first, all from the input, and all of them when there are at most 30 |
| Dashboard.MostRecentKeepsNewest | Services/Dashboard/DashboardService.cs:428-431 | beyond 30 movies, the kept ones are the first 30 of the newest-first order, each no older than any dropped one |
| Dashboard.RemoveUnreleased | Services/Dashboard/DashboardService.cs:432-448 | the loop drops every movie with a parsable future release date, then keeps the 30 newest |
| Dashboard.RemoveMarked | Services/Dashboard/DashboardService.cs:446 | removing the marked movies is filtering on being released |
| Dashboard.FilterExistingMoviesOut | Services/Dashboard/DashboardService.cs:412-427 | drops downloaded movies, then unreleased ones, then keeps the 30 newest |
| Dashboard.FilteredMoviesSpec | Services/Dashboard/DashboardService.cs:412-448 | at most 30 movies, newest first, each from the list, not downloaded and not unreleased |
| Dashboard.GetImdbRatingFromRatingsList | Services/Dashboard/DashboardService.cs:305-315 | the score of the first "imdb" rating, none without one |
| Dashboard.DatePart | Services/Dashboard/DashboardService.cs:263 | the part of an air date before the first 'T' |
| Dashboard.SeasonItems | Services/Dashboard/DashboardService.cs:251-266 | only seasons with episodes, and at least one item exactly when some season has episodes |
| Dashboard.BuildSeasonItems | Services/Dashboard/DashboardService.cs:251-266 | the loop builds the specified season items |
| Dashboard.ShowSeasons | Services/Dashboard/DashboardService.cs:246-273 | a season list, when present, is non-empty and every season has episodes |
| Dashboard.BuildTvShowMediaItems | Services/Dashboard/DashboardService.cs:227-304 | the loop builds the specified items |
| Dashboard.ShowItemsSpec | Services/Dashboard/DashboardService.cs:234-301 | one item per show with an IMDB id and matching info, in order |
| Dashboard.ShowEntrySpec | Services/Dashboard/DashboardService.cs:284-298 | an item takes the show's title and its non-empty IMDB id and the matching info's TMDB id; it has no runtime and no release date; it has seasons only when some have episodes |
| Dashboard.ShowsWithSeasons | Services/Dashboard/DashboardService.cs:348-350 | exactly the shows with a non-empty season list |

## Left out

- HTTP, JSON (de)serialisation, URL building, API keys and the qBittorrent login: the answers of Radarr, Sonarr and qBittorrent are inputs (`Passes.World`).
- Floating point: the percentage and the time-left estimate are computed with integers under C#'s truncating division; torrent progress and availability are exact reals.
- The size-on-disk columns (`SizeOnDiskGB` of movies and shows, lines 442, 478 and 564 of `Services/Media/Downloads/DownloadProcessorService.cs`) are rounded doubles and are not modelled; nor are the columns `Description`, `DownloadedAt`, `PosterPath`, `PhysicalPath` and `Added` of the scraped rows, which are copied through unchanged or are the wall clock.
- The 15-second loop and the 6-hour cache-refresh timer of the background service, and any concurrency between runs: one run is `Passes.Tick`.
- The clock: `DateTime.UtcNow` becomes one `now` per pass, so the two reads in `CacheDataAsync` and in the sweeper's per-row updates are the same instant.
- `DateTime.TryParse` is a parameter (`parseDate`) of the dashboard filters; air dates arrive already parsed.
- A failed refresh poke, which in the source throws before the pass's `try`, is not modelled: the poke always succeeds.
- The log and console output.
- Row ids of new rows are 0; the database assigns them.
- Null strings are modelled as "" where the source only reads them through `string.IsNullOrEmpty` or `??`.
- Text.ToLower: folds ASCII letters only; C#'s `ToLower` folds all of Unicode.
- Text.ParseInt32: models `int.TryParse` with the default integer style (leading and trailing white space, an optional sign, decimal digits); culture-specific signs are not modelled.
- Integer overflow: modelled where the source uses `int` arithmetic (the time-left sum wraps, the percentage sum is checked); `long` sizes are unbounded integers.
- Progress.GetMinutesLeft: the estimate `(int)(parsedMinutes / progress)` is computed in doubles and cast to `int`; the model divides exactly and truncates, and does not model the cast of a quotient beyond the 32-bit range, whose result in C# depends on the platform.
- Progress.GetDownloadPercentage: computed in doubles and cast to `int`; the model truncates the exact quotient downloaded*100/size, which can differ by one from the double result where the quotient rounds just below a whole number.
- AccountRules.CheckUsername: counts characters as Unicode scalar values; C#'s `Length` counts UTF-16 code units, so a name with characters outside the Basic Multilingual Plane is longer in C# than here.
- The `CachedData` row id and the `Config` table are not part of this model.
- Caching.Lookup: the key comparison `CacheKey == key` runs in MySQL, whose default utf8mb4 collation ignores case, and so does the unique index on the key; the model compares keys exactly. The keys are constants of the program, so the two agree on every key it uses.
- Password generation (`PasswordHelper.Generate`) is a parameter, and the password printed to the console by `AddUserService` is not modelled.
- UserServices.UserService.AddUser: assumes the "User" role row exists; the source would link a null role otherwise.
- UserServices.UserService.AddUser: a null username or email, on which `ToLower()` throws in the duplicate check, is not modelled; both arrive as strings.
- The TMDB and MDBList lookups of the dashboard (`GetTmdIdForMovieAsync`, `CheckReleased`, `GetTmdIdForTvShowAsync`, `FetchMediaFromApiAsync`) and the cache refresh are not part of this model; of `BuildDashboardTvShowsResponse` only the season filter is.
- Dashboard.FilterMoviesMostRecent: does not state the stable order of movies with the same release year.
- Dashboard.SortByYearDescending: the insertion keeps movies of the same year in their input order, as the stable `OrderByDescending` does, but its contract does not state that stability.
- Dashboard.BuildTvShowMediaItems: the guard for a null info list or show list is not modelled, since lists are never null here.
- Authentication, tokens, controllers, the search and media services and the request log are not part of this model.
