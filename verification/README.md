# A verified model of a Spotify Connect and AirPlay receiver

The receiver plays music sent to it by Spotify or by an AirPlay sender and tells its control clients what is playing.
This project models the parts of it that carry hard invariants, and proves them for every input and every run.
`dafny verify dfyconfig.toml` checks the whole project.

| file | what it models |
|---|---|
| `NowPlaying.dfy`, `NowPlayingRuns.dfy` | the published state of the control API: what each Spotify event, AirPlay event and fetched cover makes of it, and the lines that report it |
| `PublishedLaws.dfy`, `AnswerLaws.dfy` | what is published and answered after every run, told from the events alone |
| `ApiServer.dfy` | the connections with their bounded queues, the requests, and the loop that merges everything, as a state machine |
| `Histories.dfy` | properties that events break and mend, and when one is left broken |
| `Departures.dfy` | runs on which the control API does not do what its documentation says |
| `ApiServerTask.dfy` | the server itself: objects updated in place, proved to do exactly what the state machine does |
| `RangeSet.dfy` | the interval set that records which parts of a file have been downloaded |
| `SpotifyId.dfy` | base62 ids: the limb-by-limb conversion and its inverse |
| `ShuffleVec.dfy` | the queue that can be shuffled and put back |
| `Dmap.dfy`, `Dacp.dfy`, `Text.dfy`, `BigEndian.dfy` | the tag/value walker, the chunked decoder, the HTTP reader and the play status parser of the AirPlay remote control |
| `DacpLaws.dfy`, `StatusLaws.dfy`, `TextLaws.dfy`, `Utf8.dfy` | writers for what those read: whole responses, reports and texts, each shown to come through |
| `SizeLimiter.dfy` | the accounting behind the audio cache, and its pruning |
| `ContextResolver.dfy` | the queue of contexts to resolve, with its hour of blackout after a failure |
| `DiffieHellman.dfy` | modular exponentiation and the key exchange |
| `KeepAlive.dfy` | the Ping, Pong and PongAck machine of a session |
| `PlayPosition.dfy` | the play position machine of the connect task |
| `Wrappers.dfy` | `Option`, `byte` and two facts about concatenation and multiplication |

## How it is built

Code that works by updating objects, arrays or variables is modelled by classes and loops. Each such method is proved
equal to a function on values, and the theorems are about those functions. A run is a sequence of timed inputs, and the
theorems about runs hold for every sequence: clients, AirPlay sessions, cover fetches and the player may interleave
in any way.

The central theorem is the promise of the control protocol that the snapshot plus every event since is the state
(`src/server.rs:37-38`). `ApiServer.LogIsState` proves it of every subscriber after every run. Beside it,
`ApiServer.QueuesRefinePatience` proves that the bounded queues never lose, duplicate or reorder a line.
`PublishedLaws` and `AnswerLaws` say what that state is: which event decided each of its
fields, in terms of the events themselves.
`ApiServerTasks.RunTask` then proves that the mutable server does what these theorems are about.

## Where the code departs from its documentation

The model follows the code. Each departure has an instance that a run reaches, and its exact condition, in both
directions; for lines that wait, a bound.

- A progress report can supply a length that no track event carried, so a client may lack that length
  (`Departures.LengthGoesUnheard`). `NowPlaying.TrackExactUnlessFilled` says exactly when one event makes the two
  differ, `ApiServer.TrackIsExactly` when they differ after a whole run.
- A snapshot never gives a position past the end of the track. If the player has run over the end, a client that counts
  on from the snapshot is right while that track is shown and falls behind when another follows
  (`Departures.HeldBackSnapshotDrifts`), until the next playback event. `NowPlaying.SnapshotClockExactly` gives the
  condition.
- A position is said to be valid when the line is written, but the line may wait in the queue first. A client that counts
  from when lines arrive can be behind (`Departures.LateLineDrifts`), though never ahead, and by the longest wait at most
  (`ApiServer.ArrivalsAreState`).
- A snapshot does not say that there is no cover. A client that keeps its old picture across an `unsubscribe` and a new
  `subscribe` may show one that is gone (`Departures.PictureOutlivesTrack`). It is right exactly unless it has a picture
  and there is none (`ApiServer.ResubscribeExactly`).
- A cover is accepted from the AirPlay session on the air whatever track is published, so its picture can appear over a
  Spotify track (`Departures.PictureStrays`), over another session's, or over none. After every run the cover shown is
  not the track's exactly if such a stray picture was the last to decide on it
  (`NowPlayingRuns.CoverIsTheTracksExactly`).
- The limit on the size of a cover is not applied to one that comes with an AirPlay track
  (`Departures.OversizedIsPublished`); it is applied to every other (`NowPlaying.OversizedExactlyInline`), so
  after every run the cover shown is past the limit exactly if such a cover was the last to decide on it
  (`NowPlayingRuns.CoverFitsExactly`).
- A position is kept in 32 bits and wraps after about 49.7 days (`PlayPositions.PositionWraps`); it is right exactly
  while it fits (`PlayPositions.PositionExact`). A report that agrees with a count 32 bits cannot show leaves the wrapped
  position in place. That takes a count past 2^32 (`PlayPositions.AgreementCanWrap`), or a start that lies ahead because
  the clock was set back (`PlayPositions.SetBackClockWraps`): the system may do that, and every Ping adjusts the clock.
  Every other report settles the position (`PlayPositions.ReportSettlesPosition`).
- `powm` returns 1, not 0, for exponent 0 and modulus 1 (`DiffieHellman.EmptyProductUnreduced`), and the remainder
  exactly in all other cases (`DiffieHellman.PowMIsRemainder`).

Shuffling promises nothing about a vector its caller changes in between. The model says what happens: an unshuffle right
after a shuffle is exact whatever came before (`ShuffleVecs.UnshuffleUndoesShuffle`), a vector that has grown stays
shuffled (`ShuffleVecs.GrownStaysShuffled`), and one that has shrunk may not be undoable at all
(`ShuffleVecs.ShrunkMayNotBeUndoable`).

## Model

| member | source | states |
|---|---|---|
| ApiServer.LogIsState | src/server.rs:28-38 | after every run at non-decreasing times, what any subscribed client has been queued since it subscribed, replayed from nothing at the times it was queued, is the published track (short at most of a length no event carried), playing flag, volume, cover and clock; if its latest snapshot stood at the very end of a track, the clock is replaced by the reported positions while that track is shown, and by never being ahead once another is, until the next playback line |
| ApiServer.TrackIsExactly | src/server.rs:1407-1409 | after every run a subscriber's track is the published one to the last field if and only if no progress report has filled in the length since that client was last told the track |
| ApiServer.ArrivalsAreState | src/server.rs:54-56 | after every run, a subscriber that has taken all its lines and counts from when each arrived has the published state, with a clock that is never ahead and behind by no more than a line waited in the queue |
| ApiServer.RunRecords | src/server.rs:1016-1024 | in every run every line taken has its time of arrival, which is not before it was queued |
| ApiServer.StepTellsTrack | src/server.rs:1177-1463 | one step leaves a subscriber with the very track published if and only if it retells it, or the client had it and no length was filled in |
| ApiServer.QueuesRefinePatience | src/server.rs:1805-1857 | after every run a registered client has been queued exactly what a client with unbounded patience would have been, a dropped one a prefix of that, and ids are given out in order |
| ApiServer.OthersDoNotInterfere | src/server.rs:1805-1857 | strike from any run every request, close, drain and writer failure of all other clients: this client's queue, log, subscription and whether it was dropped are the same, and so are the published state and the ids |
| ApiServer.OfferAllExactly | src/server.rs:1843-1857 | a connection stays if and only if its writer runs and its queue comes to hold no more than sixteen lines; it then has them all, and otherwise those that fit before the first that did not |
| ApiServer.QueuesBounded | src/server.rs:171-171 | no queue ever holds more than sixteen lines |
| ApiServer.BroadcastAllAt | src/server.rs:1805-1822 | a broadcast reaches each subscriber as if it were the only client, and nobody else |
| ApiServer.SendAllAt | src/server.rs:1828-1857 | answers go to the one who asked and leave every other client, the published state and the ids alone |
| ApiServer.StepAt | src/server.rs:1032-1079 | every step treats each client as if it were alone, and keeps registered and dropped clients apart |
| ApiServer.PublishedByEvents | src/server.rs:1032-1079 | the published state after a run is that of its events alone: no client can change it |
| ApiServer.EventKeepsCurrent | src/server.rs:1177-1239 | an event leaves a subscriber current or drops it |
| ApiServer.RequestKeepsCurrent | src/server.rs:1577-1634 | any request leaves the client that made it current, whether it was subscribed, is now, or stops being |
| ApiServer.SubscribeShows | src/server.rs:1619-1634 | a first subscription is answered with lines that by themselves give the whole published state |
| ApiServer.ResubscribeExactly | src/server.rs:1619-1634 | a client that keeps its view across a new subscription is current if and only if there is a cover to send or it had none |
| ApiServer.StepKeepsCurrent | src/server.rs:1032-1079 | every step of the loop keeps every subscriber current |
| PublishedLaws.PlaysExactly | src/server.rs:1191-1231 | after every run it is published as playing if and only if the latest event to decide that was a start: Playing, Paused, Stopped, a playback report of the session on the air, and the two endings decide |
| PublishedLaws.PositionIsLatestReport | src/server.rs:1191-1231 | after every run the position and the time it was measured at are those of the latest report that counts |
| PublishedLaws.NoReportYet | src/server.rs:779-787 | before any report it is halted at the beginning |
| PublishedLaws.SnapshotSays | src/server.rs:804-818 | what a snapshot carries at any time: halted, the reported position; playing, that and the time since, no more than 2^32 - 1 and no more than a known length |
| PublishedLaws.VolumeIsLatest | src/server.rs:1206-1209 | after every run the volume is that of the latest volume event, of Spotify or of the session then on the air |
| PublishedLaws.NoVolumeYet | src/server.rs:1206-1209 | before any it is 0 |
| PublishedLaws.TrackIsLatest | src/server.rs:590-641 | after every run the track is the one announced last, field by field, for tracks, episodes, local files and AirPlay |
| PublishedLaws.LengthIsFirstKnown | src/server.rs:1407-1409 | a track announced without a length has that of the first progress report since that knows one |
| PublishedLaws.NoTrackYet | src/server.rs:1233-1239 | before any track is announced every field is empty |
| PublishedLaws.AwaitedIsPicked | src/server.rs:1475-1496 | after every run the url awaited is the one picked for the track announced last, and none if that was not Spotify's |
| PublishedLaws.CoverIsLatest | src/server.rs:1475-1541 | after every run the cover shown is what the latest event to decide on one made it: the cached one, the one it brought, or none |
| PublishedLaws.HoldsLastFour | src/server.rs:730-744 | after every run the covers at hand are those put in last, four at most |
| AnswerLaws.VolumeAnswered | src/server.rs:1616-1616 | after every run a client that asks for the volume is sent that of the latest volume event, and nothing else |
| AnswerLaws.TrackAnswered | src/server.rs:1617-1617 | after every run a client that asks for the track is sent the one announced last, and nothing else |
| AnswerLaws.StatusAnswered | src/server.rs:1618-1618 | after every run a client that asks for the status is sent a snapshot that says so much and no more |
| AnswerLaws.OthersAnswered | src/server.rs:1619-1638 | a subscription puts the client on the list, its end takes it off without a word, and a player command is not answered |
| NowPlaying.PublishKeepsViews | src/server.rs:1177-1239 | for every event, a view that is the published state and then hears the lines of the event is the new published state |
| NowPlaying.OnPlayerKeeps | src/server.rs:1177-1223 | the same for each Spotify event |
| NowPlaying.FromOnAirKeeps | src/server.rs:1262-1463 | the same for each event of the AirPlay session on the air |
| NowPlaying.SnapshotShows | src/server.rs:1669-1676 | a snapshot replaces everything but the cover by what is published |
| NowPlaying.ViewKnowsPosition | src/server.rs:54-56 | a client whose clock does not lag and that has the length reports the server's position at every later time, also after a snapshot held back at the end |
| NowPlaying.TrackExactUnlessFilled | src/server.rs:1407-1409 | after an event a client's track is identical to the published one if and only if the event replaced the track, or they were identical and it is not a progress report that fills in a missing length |
| NowPlaying.SnapshotClockExactly | src/server.rs:804-818 | counting on from a snapshot agrees with the server's clock for ever if and only if the player has not run past the end of the track |
| Departures.HeldBackSnapshotDrifts | src/server.rs:804-818 | a run in which a client that counts on from a snapshot is ten milliseconds behind after the next track starts |
| Departures.LateLineDrifts | src/server.rs:1016-1024 | runs after which a client that counts from when lines arrive is behind by just what a line waited in its queue |
| Departures.LengthGoesUnheard | src/server.rs:1407-1409 | runs after which a subscriber has no length for a track whose length is published |
| Departures.OversizedIsPublished | src/server.rs:1363-1365 | runs after which a cover past the limit is published |
| Departures.PictureOutlivesTrack | src/server.rs:1619-1634 | runs after which a client that subscribes again shows a picture that is no longer published |
| Departures.PictureStrays | src/server.rs:1367-1391 | runs after which a Spotify track is published with a picture of an AirPlay session |
| NowPlaying.OversizedExactlyInline | src/server.rs:1363-1390 | whatever cover is shown before, after an event the cover held is within the limit if and only if the event decides on the cover otherwise than by an AirPlay track with a larger one from the session on the air, or leaves one that is; and the covers it sends are, if and only if it is not such a track |
| NowPlayingRuns.CoverFitsExactly | src/server.rs:1363-1390 | after every run the cover shown is within the limit if and only if it was not last decided on by an AirPlay track with a larger one |
| NowPlayingRuns.CacheFits | src/server.rs:682-711 | after every run every cached cover is within the limit |
| NowPlaying.OffAirIsSilent | src/server.rs:1254-1463 | an AirPlay event other than a start, from a session not on the air, sends nothing and changes nothing but which session is remembered |
| NowPlaying.WidestIsShipped | src/server.rs:648-650 | the cover picked is the last of the widest |
| NowPlaying.ShippedIsOffered | src/server.rs:648-650 | if any cover is offered one is picked, and it is one of those offered |
| NowPlaying.MimeFollowsBytes | src/server.rs:654-676 | the type of a picture follows from its first bytes, for the four kinds told apart and for all others |
| NowPlaying.FetchBrings | src/server.rs:682-711 | a fetch brings its own bytes if and only if there are no more than 2 MiB of them |
| NowPlaying.InsertKeepsCache | src/server.rs:725-744 | the cover cache keeps one place in the eviction order per cover, never holds more than four, holds what was put in and changes no other entry |
| NowPlaying.EvictedKeepsCache | src/server.rs:730-744 | eviction makes room and leaves the remaining covers as they were |
| NowPlayingRuns.SourceIsLatestStart | src/server.rs:1191-1197 | after every run AirPlay is the source if and only if the latest start of playing was AirPlay's |
| NowPlayingRuns.OnAirExactly | src/server.rs:1254-1256 | a session is on the air if and only if the latest start was its own and it has not ended since |
| NowPlayingRuns.AwaitedCoverIsCurrent | src/server.rs:1475-1520 | the url whose cover is awaited is the one picked for a Spotify track that is the one published now, so a late fetch is never shown with another track |
| NowPlayingRuns.CoverBelongs | src/server.rs:1475-1565 | the cover held was fetched from the very url awaited for the track published now, or was handed over by the session on the air since that track was published |
| NowPlayingRuns.CoverIsTheTracksExactly | src/server.rs:1367-1391 | after every run the cover shown came from whom the track came from if and only if it was not last decided on by a picture of a session whose track is not the one published |
| NowPlayingRuns.StrayExactly | src/server.rs:1367-1391 | from a cover that is the track's, one event makes it another's if and only if it is such a picture, within the limit and from the session on the air |
| NowPlayingRuns.CacheStaysValid | src/server.rs:725-744 | after every run the cover cache is consistent and within its size |
| NowPlayingRuns.CachedWasFetched | src/server.rs:682-711 | after every run each cached cover is the one some fetch of that very url brought |
| ApiServerTasks.RunTask | src/server.rs:1032-1079 | for every sequence of inputs the mutable server ends in the state of the state machine |
| ApiServerTasks.ApiServerTask.Handle | src/server.rs:1032-1079 | each turn of the loop does exactly one step of the state machine |
| ApiServerTasks.ApiServerTask.Admit | src/server.rs:1142-1164 | a welcome peer is registered, unsubscribed, under a new id, and anyone else is refused without a trace |
| ApiServerTasks.ApiServerTask.DropConnection | src/server.rs:1168-1172 | one connection is forgotten and nothing else changes |
| ApiServerTasks.ApiServerTask.Send | src/server.rs:1828-1857 | one line is queued, or the connection that cannot take it is dropped |
| ApiServerTasks.ApiServerTask.BroadcastLine | src/server.rs:1805-1822 | the loop over the subscribers has the effect of one simultaneous broadcast |
| ApiServerTasks.BroadcastOneMore | src/server.rs:1819-1821 | sending to one more subscriber after the others comes to the same as sending to all at once |
| ApiServerTasks.ApiServerTask.AnnounceTrack | src/server.rs:1561-1565 | the published track goes to every subscriber |
| ApiServerTasks.ApiServerTask.AnnounceCover | src/server.rs:1526-1541 | a cover is held and goes to every subscriber; the shortcut when there is none changes nothing |
| ApiServerTasks.ApiServerTask.UpdatePlayback | src/server.rs:1567-1574 | playback is measured anew and reported |
| ApiServerTasks.ApiServerTask.ClearNowPlaying | src/server.rs:1233-1239 | track, cover and position go, in the published state and at every subscriber; the volume stays |
| ApiServerTasks.ApiServerTask.LoadCover | src/server.rs:1475-1496 | the awaited url is replaced, and a cached cover is announced after the track |
| ApiServerTasks.ApiServerTask.HandlePlayerEvent | src/server.rs:1177-1223 | a Spotify event does to the server what it does to the state machine |
| ApiServerTasks.ApiServerTask.HandleAirplayEvent | src/server.rs:1262-1463 | an AirPlay event does to the server what it does to the state machine |
| ApiServerTasks.ApiServerTask.HandleCover | src/server.rs:1503-1520 | a fetched cover is cached, and announced only if it is still awaited |
| ApiServerTasks.ApiServerTask.HandleRequest | src/server.rs:1577-1638 | a request marks its connection and is answered as the state machine says |
| ApiServerTasks.CoverCache.Insert | src/server.rs:730-744 | an insertion evicts and adds as the cache on values does |
| RangeSets.RangeSet.AddRange | audio/src/range_set.rs:99-133 | from any canonical list, for any range even an empty one, the list stays canonical and its members become the union |
| RangeSets.RangeSet.MergeAt | audio/src/range_set.rs:111-127 | the merge loop turns the list from an overlapping range on into what recursive insertion makes of it |
| RangeSets.AddedMembers | audio/src/range_set.rs:99-133 | recursive insertion adds exactly the interval |
| RangeSets.AddedCanonical | audio/src/range_set.rs:99-133 | recursive insertion keeps canonical form |
| RangeSets.RangeSet.SubtractRange | audio/src/range_set.rs:149-195 | from any canonical list, the list stays canonical and its members become the difference |
| RangeSets.RangeSet.CutOut | audio/src/range_set.rs:154-194 | the in-place cut, through every branch, yields the list of remaining pieces in order |
| RangeSets.RangeSet.PunchHole | audio/src/range_set.rs:176-189 | a range that sticks out on both sides is replaced by its two ends |
| RangeSets.RangeSet.CutBeginnings | audio/src/range_set.rs:160-175 | covered ranges are removed and the first that sticks out is trimmed |
| RangeSets.SubtractedMembers | audio/src/range_set.rs:149-195 | the remaining pieces have exactly the members outside the interval |
| RangeSets.SubtractedCanonical | audio/src/range_set.rs:149-195 | the remaining pieces are canonical |
| RangeSets.CanonicalUnique | audio/src/range_set.rs:28-32 | two canonical lists with the same members are the same list |
| RangeSets.RangeSet.Len | audio/src/range_set.rs:55-57 | the sum of the lengths is the number of members |
| RangeSets.RangeSet.Contains | audio/src/range_set.rs:67-76 | true if and only if the value is a member |
| RangeSets.RangeSet.ContainedLengthFromValue | audio/src/range_set.rs:78-87 | the longest run of members that starts at the value |
| RangeSets.RangeSet.ContainsRangeSet | audio/src/range_set.rs:90-97 | true if and only if the other set is a subset |
| RangeSets.RangeSet.AddRangeSet | audio/src/range_set.rs:136-140 | in-place union with another set |
| RangeSets.RangeSet.Union | audio/src/range_set.rs:143-147 | a new canonical set, the union, both operands untouched |
| RangeSets.RangeSet.SubtractRangeSet | audio/src/range_set.rs:197-201 | in-place difference with another set |
| RangeSets.RangeSet.Minus | audio/src/range_set.rs:203-207 | a new canonical set, the difference, both operands untouched |
| RangeSets.RangeSet.Intersection | audio/src/range_set.rs:209-242 | the two-index walk yields a new canonical set, the intersection |
| RangeSets.RangeSet.AddOverlap | audio/src/range_set.rs:224-232 | what two overlapping ranges have in common is added |
| SpotifyIds.ToBase62 | core/src/spotify_id.rs:100-138 | for every id below 2^128 the buffer algorithm, in 64-bit arithmetic and 22 places it never leaves, yields the 22-digit base62 numeral |
| SpotifyIds.ScaleDigits | core/src/spotify_id.rs:119-123 | the digits and the carry together hold the old value times 2^32 plus the limb, with no 64-bit overflow |
| SpotifyIds.SpillCarry | core/src/spotify_id.rs:125-129 | the carry moves into fresh digits with the value unchanged, and they never run out |
| SpotifyIds.FromBase62 | core/src/spotify_id.rs:56-75 | accepts exactly 22 base62 digits of value below 2^128 and returns that value, every other input being an error |
| SpotifyIds.ParseOfNumeral | core/src/spotify_id.rs:56-138 | parsing what was printed gives the id back |
| SpotifyIds.NumeralOfParse | core/src/spotify_id.rs:56-138 | printing what was parsed gives the string back |
| SpotifyIds.ValueOfNumeral | core/src/spotify_id.rs:100-138 | a numeral of k digits has k valid digits and the value it was made from |
| SpotifyIds.NumeralOfValue | core/src/spotify_id.rs:56-75 | every digit string is the numeral of its value |
| SpotifyIds.DigitsAre | core/src/spotify_id.rs:31-31 | the digits run from 0 to 9, a to z and A to Z, and there are no others |
| ShuffleVecs.ShuffleVec.ShuffleWithRng | connect/src/shuffle_vec.rs:63-90 | undoes an earlier shuffle, applies the draws, and exchanges the first match to the front, recording how to undo it; asked only that undoing by the log at hand stays within the vector |
| ShuffleVecs.ShuffleVec.ApplyDraws | connect/src/shuffle_vec.rs:80-82 | the in-place swap loop yields the recursive shuffle of the draws |
| ShuffleVecs.ShuffleVec.Unshuffle | connect/src/shuffle_vec.rs:92-109 | undoes the exchange and then the swaps, by any log that stays within the vector, and forgets the log |
| ShuffleVecs.ShuffleVec.UndoDraws | connect/src/shuffle_vec.rs:103-108 | the in-place swap loop undoes by a log of any length, and leaves the vector alone if the log is too short |
| ShuffleVecs.UndoneUnshuffles | connect/src/shuffle_vec.rs:103-108 | by the vector's own log that is the recursive inverse of the shuffle |
| ShuffleVecs.UnshuffleUndoesShuffle | connect/src/shuffle_vec.rs:63-109 | from any state that can be undone at all, a shuffle followed by an unshuffle gives back what the shuffle started from |
| ShuffleVecs.UnshufflePermutes | connect/src/shuffle_vec.rs:92-109 | undoing by any log only moves elements |
| ShuffleVecs.GrownStaysShuffled | connect/src/shuffle_vec.rs:103-106 | on a vector longer than the log was made for, an unshuffle undoes the exchange and nothing else |
| ShuffleVecs.ShrunkMayNotBeUndoable | connect/src/shuffle_vec.rs:103-107 | a shorter vector can be left with a log that reaches past its end |
| ShuffleVecs.UnshuffleShuffle | connect/src/shuffle_vec.rs:63-109 | undoing a shuffle restores the vector |
| ShuffleVecs.ShuffleUnshuffle | connect/src/shuffle_vec.rs:63-109 | shuffling what was unshuffled restores it too, so the draws act as a bijection |
| ShuffleVecs.ExactlyOneDraw | connect/src/shuffle_vec.rs:73-82 | each arrangement of a duplicate-free vector comes from exactly one sequence of draws |
| ShuffleVecs.DrawsInjective | connect/src/shuffle_vec.rs:73-82 | different draws give different arrangements |
| ShuffleVecs.DrawsSurjective | connect/src/shuffle_vec.rs:73-82 | every arrangement is reached, also of a vector with repeats |
| ShuffleVecs.RunRemembers | connect/src/shuffle_vec.rs:63-109 | after every sequence of shuffles and unshuffles the state still determines the original order |
| ShuffleVecs.RunPermutes | connect/src/shuffle_vec.rs:63-109 | after every such sequence the vector is a permutation of the original, and the original itself after an unshuffle |
| ShuffleVecs.ShuffleFronts | connect/src/shuffle_vec.rs:86-89 | after a shuffle of two or more, element 0 matches if and only if any element does, and only the exchange tells the result from the plain shuffle |
| Dacp.Get | airplay/src/dacp.rs:257-374 | the reply is a function of the concatenated bytes under every framing, however they were cut into reads, and reading stops at the first read that completes the message |
| Dacp.ReadHead | airplay/src/dacp.rs:257-280 | reads up to the blank line and no further than needed |
| Dacp.ReadReply | airplay/src/dacp.rs:282-374 | from the blank line on, parses the headers, reads the body and frames it, to the same end |
| Dacp.ReadBody | airplay/src/dacp.rs:336-359 | reads until the framing is satisfied and no further |
| Dacp.ResponseStable | airplay/src/dacp.rs:336-374 | bytes past a complete message change nothing |
| DacpLaws.BodilessResponse | airplay/src/dacp.rs:376-381 | a written response with status 100 to 199, 204 or 304 is read with its status and head and no body, whatever its headers and what follows, and is complete at once |
| DacpLaws.ChunkedResponse | airplay/src/dacp.rs:304-371 | a written chunked response, whatever other headers it has, is read with the data of its chunks, and is complete |
| DacpLaws.UnfinishedChunkedResponse | airplay/src/dacp.rs:361-369 | one cut short is read with no body, and is not complete |
| DacpLaws.LengthResponse | airplay/src/dacp.rs:302-371 | a written response of a declared length is read with that many bytes, or as many as came, and is complete if and only if they came |
| DacpLaws.UntilCloseResponse | airplay/src/dacp.rs:312-372 | a written response that declares neither is read with all that follows, and never complete before the close |
| DacpLaws.UnreadableStatus | airplay/src/dacp.rs:283-294 | a second word that is no 16-bit number makes no response |
| DacpLaws.NoHeadYet | airplay/src/dacp.rs:257-280 | without a blank line there is no response |
| DacpLaws.HeaderFound | airplay/src/dacp.rs:296-301 | the first header of a name, in whatever case, decides, and its value is read without the blanks around it |
| DacpLaws.NamesChunkedExactly | airplay/src/dacp.rs:304-308 | a list of codings counts as chunked if and only if one of them is that word, in whatever case |
| Dacp.DecodeChunked | airplay/src/dacp.rs:385-404 | the loop yields the data of all chunks up to the zero-size one, or nothing if there is more to read |
| Dacp.DechunkEncoded | airplay/src/dacp.rs:383-404 | decoding inverts encoding for every list of non-empty chunks, whatever they contain, however their size lines are written and whatever follows |
| Dacp.DechunkPrefix | airplay/src/dacp.rs:383-404 | nothing is decoded from any proper prefix of an encoding |
| Dacp.DechunkedStable | airplay/src/dacp.rs:383-404 | once decoded, appended bytes never change the result |
| Dacp.ReadChunkStable | airplay/src/dacp.rs:385-404 | a whole chunk is read the same with more bytes behind it |
| Dacp.FindStable | airplay/src/dacp.rs:258-258 | what has been found stays found at the same place when bytes arrive |
| Dacp.ChunkSizeOfLine | airplay/src/dacp.rs:389-391 | a chunk's size is read back from hexadecimal in either case, with blanks around it and extensions behind it |
| Dacp.ParsePlayStatus | airplay/src/dacp.rs:445-483 | the loop yields the last value of each tag, the length from either tag, and the length less the time left, never below zero |
| Dacp.PlayStatusRoundTrip | airplay/src/dacp.rs:445-483 | a status encoded item by item is read back, also with an incomplete last item and with anything after the container |
| StatusLaws.StatusFields | airplay/src/dacp.rs:445-483 | each field of a status is that of the last item under its own four letters: playing if the state is 4, three texts, the length from either tag, and the length less the time left or 0 |
| StatusLaws.SenderUnderstood | airplay/src/dacp.rs:445-483 | for every state, title, artist, album, length and time left, a report written item by item is read as just that |
| StatusLaws.OtherContainers | airplay/src/dacp.rs:448-453 | any other container says nothing |
| Dmap.ReadEncoded | airplay/src/dmap.rs:16-30 | reading inverts encoding for every item below 2^32 bytes, whatever follows |
| Dmap.ReadIsEncoded | airplay/src/dmap.rs:16-26 | whatever is read is the encoding of the item followed by the rest |
| Dmap.ReadItem | airplay/src/dmap.rs:16-26 | every item read takes at least eight bytes |
| Dmap.ReadCutShort | airplay/src/dmap.rs:16-26 | nothing is read from an incomplete item |
| Dmap.ItemsOfEncoded | airplay/src/dmap.rs:65-89 | the walk over an encoded list finds that list |
| Dmap.ItemsWithTruncatedTail | airplay/src/dmap.rs:65-89 | an incomplete last item changes nothing |
| Dmap.LastValueIsLast | airplay/src/dmap.rs:74-85 | the value taken for a tag is that of its last occurrence, if any |
| Dmap.ParseMetadata | airplay/src/dmap.rs:65-89 | the loop yields the last value of each known tag behind an eight-byte header, and nothing from a shorter body |
| Dmap.MetadataRoundTrip | airplay/src/dmap.rs:65-89 | metadata of an encoded list is that of the list, also with an incomplete last item |
| StatusLaws.MetadataFields | airplay/src/dmap.rs:65-89 | each field of the metadata is that of the last item under its own four letters, a length being four bytes, first most significant |
| BigEndian.ValueOfFixed | airplay/src/dmap.rs:18-30 | a number written in k bytes is read back |
| BigEndian.FixedOfValue | airplay/src/dmap.rs:18-30 | k bytes are the k-byte form of their value |
| BigEndian.ValueOfMinimal | core/src/diffie_hellman.rs:55-66 | a key written in the fewest bytes is read back |
| BigEndian.FourBytes | airplay/src/dmap.rs:28-30 | of four bytes the first counts most |
| BigEndian.MinimalIsShort | core/src/diffie_hellman.rs:55-66 | a key has no leading zero byte |
| Utf8.DecodersInvert | airplay/src/dacp.rs:282-282 | both decoders give back every string from its UTF-8 form |
| Utf8.AcceptedIsEncoded | airplay/src/dacp.rs:390-390 | the strict decoder accepts nothing but what some string encodes to |
| Utf8.StrayByte | airplay/src/dacp.rs:282-282 | the lossy decoder puts one replacement character for a byte that begins nothing, and reads on behind it |
| Utf8.BrokenOff | airplay/src/dacp.rs:282-282 | likewise for a beginning that is not gone on with |
| TextLaws.EqualButForCase | airplay/src/dacp.rs:299-299 | header names are the same if and only if letter by letter they are equal or the two cases of one letter |
| TextLaws.TrimPadded | airplay/src/dacp.rs:299-299 | trimming takes the blanks around a text and nothing of it |
| TextLaws.LinesJoined | airplay/src/dacp.rs:283-283 | lines put together with CRLF are read back |
| TextLaws.SecondWordOf | airplay/src/dacp.rs:287-290 | the second word of a line is found |
| TextLaws.ParsesDecimal | airplay/src/dacp.rs:290-303 | a number in decimal is read back |
| SizeLimiters.SizeLimiter.Add | core/src/cache.rs:56-64 | a file is added or replaced, and the amount in use stays the sum of the sizes |
| SizeLimiters.SizeLimiter.Pop | core/src/cache.rs:76-92 | the oldest file is removed from both maps if and only if the limit is exceeded, and the error branches are never reached |
| SizeLimiters.SizeLimiter.Update | core/src/cache.rs:95-99 | only the time of a known file changes |
| SizeLimiters.SizeLimiter.Remove | core/src/cache.rs:102-114 | a known file goes from both maps and from the sum, and the error branch is never reached |
| SizeLimiters.SizeLimiter.Prune | core/src/cache.rs:215-248 | whatever other threads do between the pops, each pop finds the limit exceeded and takes the oldest file there is then, the last finds it met, and the files deleted and the last failure are reported |
| SizeLimiters.AloneEvicts | core/src/cache.rs:215-248 | with no other thread about, the files popped are an eviction sequence and exactly they are gone |
| SizeLimiters.FailureExactly | core/src/cache.rs:226-242 | an error is returned if and only if a deletion failed, which is when fewer files are counted than were popped |
| SizeLimiters.EvictsOldestFirst | core/src/cache.rs:76-92 | files are evicted oldest first, each once, and no survivor is older than an evicted one |
| SizeLimiters.EvictsJustEnough | core/src/cache.rs:215-248 | the survivors fit, and before each eviction they did not |
| SizeLimiters.EvictionUnique | core/src/cache.rs:215-248 | with distinct times there is only one such sequence |
| ContextResolvers.ContextResolver.Add | connect/src/context_resolver.rs:141-172 | an entry is queued unless it failed within the last hour or is queued already, and an expired failure is forgotten |
| ContextResolvers.ContextResolver.AddList | connect/src/context_resolver.rs:174-178 | a list is added entry by entry |
| ContextResolvers.ContextResolver.FindNext | connect/src/context_resolver.rs:191-203 | the first entry that has something to resolve |
| ContextResolvers.ContextResolver.RemoveUsedAndInvalid | connect/src/context_resolver.rs:180-185 | that entry goes, and with it all the entries before it that have nothing to resolve |
| ContextResolvers.ContextResolver.Clear | connect/src/context_resolver.rs:187-189 | the queue is emptied and the failures stay |
| ContextResolvers.ContextResolver.MarkNextUnavailable | connect/src/context_resolver.rs:244-249 | the next entry is recorded as failed now |
| ContextResolvers.HandleNextContext | connect/src/spirc.rs:608-652 | the resolver's methods, called in this order, make one step of the run |
| ContextResolvers.QueueDistinct | connect/src/context_resolver.rs:141-172 | after every run the queue has no entry twice |
| ContextResolvers.FirstInFirstOut | connect/src/context_resolver.rs:141-203 | after every run the entries handled, followed by the valid ones still queued, are the valid ones accepted, in order |
| ContextResolvers.StepInOrder | connect/src/context_resolver.rs:141-203 | every step but a clear keeps that order |
| ContextResolvers.RefusedExactlyAfterFailure | connect/src/context_resolver.rs:141-172 | after every run an entry is refused if and only if it failed no more than 3600 s ago |
| ContextResolvers.QueuedExactly | connect/src/context_resolver.rs:141-172 | after every run an entry asked for is queued last, if and only if it is not queued already and did not fail within 3600 s |
| ContextResolvers.ResolvedWith | connect/src/context_resolver.rs:74-85 | the uri an entry is resolved with: its own if usable, or the first track's of a given context, or the fallback |
| ContextResolvers.OutForAnHour | connect/src/context_resolver.rs:130-172 | an entry that failed is not queued until more than 3600 s later |
| DiffieHellman.PowM | core/src/diffie_hellman.rs:21-35 | square-and-multiply ends and returns the value below |
| DiffieHellman.PowMIsRemainder | core/src/diffie_hellman.rs:21-35 | for every base, exponent and positive modulus that value is the power's remainder if and only if not both the exponent is 0 and the modulus 1 |
| DiffieHellman.EmptyProductUnreduced | core/src/diffie_hellman.rs:21-35 | in that case it is 1 and the remainder 0 |
| DiffieHellman.DhLocalKeys.constructor | core/src/diffie_hellman.rs:43-53 | the public key is 2 to the private key, modulo the prime |
| DiffieHellman.DhLocalKeys.SharedSecret | core/src/diffie_hellman.rs:59-66 | the bytes of the remote key to the private key, modulo the prime |
| DiffieHellman.SecretIsPower | core/src/diffie_hellman.rs:55-66 | a secret is the generator to the product of both private keys, for every generator and modulus above 1 |
| DiffieHellman.SecretsAgree | core/src/diffie_hellman.rs:55-66 | both parties' secrets are the same bytes, for all private keys |
| DiffieHellman.Exchange | core/src/diffie_hellman.rs:42-66 | two key objects that exchange public keys end with the same secret |
| KeepAlive.DispatchTask.Dispatch | core/src/session.rs:755-794 | a Ping or PongAck sets the state and the deadline, whatever the state was |
| KeepAlive.DispatchTask.PollOnce | core/src/session.rs:886-952 | the packets at hand are dispatched, then the deadline decides between waiting, a Pong and the end of the session |
| KeepAlive.WaitsForLatest | core/src/session.rs:670-686 | after every run of a live session its state and deadline are those the latest signal calls for |
| KeepAlive.TimesOutExactlyWhenOverdue | core/src/session.rs:926-941 | a poll ends the session if and only if the latest signal has gone unanswered for its full timeout |
| KeepAlive.PongExactlyWhenDue | core/src/session.rs:926-950 | a poll of a running session sends a Pong if and only if the latest signal is a Ping of at least 60 s ago |
| KeepAlive.ClosedEndsSession | core/src/session.rs:896-905 | a session whose connection closes is over for good |
| KeepAlive.PongsAnswerPings | core/src/session.rs:941-950 | each Pong directly follows a Ping at least 60 s before it, and no later than polling is late |
| KeepAlive.PongsNeverOutnumberPings | core/src/session.rs:755-952 | no run has more Pongs than Pings |
| KeepAlive.SilenceEndsSession | core/src/session.rs:683-952 | a session polled within `late` of each deadline has been shut down by the first poll that is 80 s plus `late` after it last heard anything |
| KeepAlive.AliveMeansHeard | core/src/session.rs:683-952 | at any moment between polls, a session that runs and whose next poll is not overdue heard something within 80 s plus twice `late` |
| KeepAlive.PollAll | core/src/session.rs:717-952 | the object, polled through any run, is in the state the run-level results are about and has sent as many Pongs as the run has, which are no more than the Pings |
| PlayPositions.SpircTask.HandlePlay | connect/src/spirc.rs:1516-1541 | the position does not jump, nothing is paused any more, and what was stopped, loading or loaded still is |
| PlayPositions.SpircTask.HandlePause | connect/src/spirc.rs:1555-1576 | the position is at every later time what it was at this moment, and nothing plays any more |
| PlayPositions.SpircTask.HandlePlayPause | connect/src/spirc.rs:1543-1553 | what runs is halted and what is halted runs, unless stopped, and the position does not jump |
| PlayPositions.SpircTask.HandleSeek | connect/src/spirc.rs:1578-1606 | the position becomes the target if that lies within the track and something is loaded, and nothing changes otherwise; running or halted stays as it was |
| PlayPositions.SpircTask.HandlePlayerEvent | connect/src/spirc.rs:812-870 | a report while playing or loading leaves the count within 100 ms of it, one of a pause sets the position for good, and neither wakes what is stopped |
| PlayPositions.AskAfter | connect/src/spirc.rs:1516-1872 | the object, having handled any run of commands, answers with the reading of the ideal stopwatch in 32 bits, and with the reading itself while that fits |
| PlayPositions.HandleAll | connect/src/spirc.rs:812-1606 | the object, having handled any mix of commands and reports, is in the status the run-level results are about |
| PlayPositions.PositionIsStopwatch | connect/src/spirc.rs:1516-1872 | after every run of commands at whatever times, the position is the reading of an ideal stopwatch, modulo 2^32 |
| PlayPositions.PositionExact | connect/src/spirc.rs:1862-1872 | it is that reading if and only if the reading fits 32 bits |
| PlayPositions.NeverStartsAhead | connect/src/spirc.rs:812-1606 | on a clock that does not run backwards, no run of commands and reports puts the start of a track in the future |
| PlayPositions.ReportSettlesPosition | connect/src/spirc.rs:812-839 | on any clock and after every run of commands and reports, a report handled while playing or loading leaves the time since the start within 100 ms of it, and the position too if and only if it did not find a count that agrees with it and lies outside 32 bits |
| PlayPositions.UnshownHasOutgrown | connect/src/spirc.rs:812-839 | on a clock that does not run backwards, such a count is one past 2^32 |
| PlayPositions.PositionWraps | connect/src/spirc.rs:1862-1872 | a track left to play for 2^32 milliseconds is back where it was resumed |
| PlayPositions.AgreementCanWrap | connect/src/spirc.rs:816-826 | a report of the last millisecond that fits can leave the position at 0 |
| PlayPositions.SetBackClockWraps | connect/src/spirc.rs:692-698 | after the clock was set back by 50 ms, a report of the very beginning leaves the position 50 ms short of 2^32 |

## Left out

- Sockets, tasks and channels: a client's queue is a sequence of at most sixteen lines, its writer an input that takes lines or ends.
- ApiServer.ArrivalsAreState: a line arrives when the writer takes it; the way through the socket and the network is not modelled.
- Request lines: a request is a value; which words stand for it is not modelled.
- JSON and base64: a line is a value, and encoding it never fails.
- Transport control, `set_volume`, the helper datagram and the DACP endpoint of a session: sent and forgotten.
- The allow list: whether a peer is welcome is an input.
- Volume scales: a volume arrives already converted.
- Cover fetches as tasks: what a fetch brings is an event that may come at any time, or never.
- The build without AirPlay support: the model is of the build with it.
- Machine limits on sizes: chunk sizes, `Content-Length`, range ends, file sizes and the connection counter are natural numbers.
- Parsing of volume replies and progress lines, mDNS, matching of DACP ids: short string code.
- Base16 and raw ids: fixed-width forms without a conversion loop.
- The random generator: the draws are a parameter, each within the range asked for.
- ShuffleVecs.ShuffleVec.Unshuffle: a log, or a remembered first position, that reaches past the end of a vector that has shrunk makes the source panic; that is excluded, and nothing else is.
- ShuffleVecs.RunPermutes: the runs are of shuffles and unshuffles; a caller that changes the vector in between is covered by the single-step results.
- ContextResolvers.HandleNextContext: what the connect state makes of a context, and so which further entries it asks for, is a parameter.
- SizeLimiters.SizeLimiter.Pop: among files of the same age any may go first, as the priority queue does not say.
- SizeLimiters.SizeLimiter.Prune: whether a file can be deleted from disk, and what other threads do between the pops, are parameters; there are finitely many of the latter, as a prune that is always outrun does not end.
- Dacp.Get: a deadline or a read error counts as the end of what arrives, so the two log messages are not told apart.
- KeepAlive.DispatchTask.Dispatch: only Ping and PongAck are told apart; every other packet, known or not, leaves the keep-alive state alone.
- PlayPositions.SpircTask.HandlePlayerEvent: `Seeked` and `Loading` leave the play status alone and are not modelled, nor is the published position; a report here is one for the current track.
- PlayPositions.SpircTask.HandlePlay: the clock is read once per command.
- `handle_stop`, track skipping and the rest of the connect state.
- Text.DecodeOne: models UTF-8 as the standard library does; that it finds maximal ill-formed stretches is by definition, not proved against the Unicode standard.
- Ciphers, hashes, login, discovery, metadata conversion, audio decoding and option parsing.
