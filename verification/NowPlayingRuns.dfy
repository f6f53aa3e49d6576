/** What holds of the published state after every run of events: who is on the air, and whose cover is shown. */
module NowPlayingRuns {
  import opened Wrappers
  import opened NowPlaying
  import opened Histories

  datatype Timed = Timed(event: Event, at: Time)

  function After(start: Time, run: seq<Timed>): Published {
    if run == [] then Initially(start)
    else
      var last := run[|run| - 1];
      Publish(After(start, run[..|run| - 1]), last.event, last.at).state
  }

  // ----- who is on the air -----

  predicate IsAirStart(e: Event, connection: nat) {
    e.Air? && e.air.AirPlayback? && e.air.isPlaying && e.air.connection == connection
  }

  predicate IsStart(e: Event) {
    (e.Player? && e.player.Playing?) || (e.Air? && IsAirStart(e, e.air.connection))
  }

  ghost predicate LatestStart(run: seq<Timed>, i: nat) {
    i < |run| && IsStart(run[i].event) && forall j :: i < j < |run| ==> !IsStart(run[j].event)
  }

  /** The session whose start is the latest start of all, and which has not ended since. */
  ghost predicate Broadcasting(run: seq<Timed>, connection: nat) {
    exists i: nat :: LatestStart(run, i) && IsAirStart(run[i].event, connection) && !EndedAfter(run, i, connection)
  }

  ghost predicate EndedAfter(run: seq<Timed>, i: nat, connection: nat) {
    exists j :: i < j < |run| && run[j].event == Air(AirEnded(connection))
  }

  /** The invariant behind the two theorems below, for the start at `i`. */
  ghost predicate Follows(p: Published, run: seq<Timed>, i: nat)
    requires i < |run|
  {
    var e := run[i].event;
    && p.source == (if e.Player? then Spotify else Airplay)
    && (e.Air? ==> p.airplayConnection == if EndedAfter(run, i, e.air.connection) then None else Some(e.air.connection))
  }

  lemma StepFollows(p: Published, run: seq<Timed>, i: nat, last: Timed)
    requires i < |run| && IsStart(run[i].event) && Follows(p, run, i) && !IsStart(last.event)
    ensures Follows(Publish(p, last.event, last.at).state, run + [last], i)
  {
    var all := run + [last];
    assert all[i] == run[i];
    if run[i].event.Air? {
      var c := run[i].event.air.connection;
      assert EndedAfter(all, i, c) <==> EndedAfter(run, i, c) || last.event == Air(AirEnded(c)) by {
        assert all[|run|] == last;
        assert forall j :: 0 <= j < |run| ==> all[j] == run[j];
      }
    }
  }

  lemma {:induction false} RunFollows(start: Time, run: seq<Timed>, i: nat)
    requires LatestStart(run, i)
    ensures Follows(After(start, run), run, i)
  {
    var prefix, last := run[..|run| - 1], run[|run| - 1];
    assert run == prefix + [last];
    if i < |prefix| {
      RunFollows(start, prefix, i);
      StepFollows(After(start, prefix), prefix, i, last);
    }
  }

  lemma {:induction false} NoStartMeansSpotify(start: Time, run: seq<Timed>)
    requires forall i :: 0 <= i < |run| ==> !IsStart(run[i].event)
    ensures After(start, run).source == Spotify && After(start, run).airplayConnection.None?
  {
    if run == [] {
    } else {
      NoStartMeansSpotify(start, run[..|run| - 1]);
    }
  }

  lemma {:induction false} LatestStartExists(run: seq<Timed>) returns (i: nat)
    requires exists k :: 0 <= k < |run| && IsStart(run[k].event)
    ensures LatestStart(run, i)
  {
    if IsStart(run[|run| - 1].event) {
      i := |run| - 1;
    } else {
      i := LatestStartExists(run[..|run| - 1]);
    }
  }

  /** The active source is that of the latest start, whatever has been paused or has ended since. */
  lemma {:induction false} SourceIsLatestStart(start: Time, run: seq<Timed>)
    ensures After(start, run).source == Airplay <==> exists i: nat :: LatestStart(run, i) && run[i].event.Air?
  {
    if exists k :: 0 <= k < |run| && IsStart(run[k].event) {
      var i := LatestStartExists(run);
      RunFollows(start, run, i);
    } else {
      NoStartMeansSpotify(start, run);
    }
  }

  /** A session is on the air exactly when it started last and has not ended. */
  lemma {:induction false} OnAirExactly(start: Time, run: seq<Timed>, connection: nat)
    ensures OnAir(After(start, run), connection) <==> Broadcasting(run, connection)
  {
    if exists k :: 0 <= k < |run| && IsStart(run[k].event) {
      var i := LatestStartExists(run);
      RunFollows(start, run, i);
    } else {
      NoStartMeansSpotify(start, run);
    }
  }

  // ----- whose cover is shown -----

  /** No event since the i-th has replaced the track. */
  ghost predicate TrackSince(start: Time, run: seq<Timed>, i: nat) {
    forall j :: i < j < |run| ==> !ReplacesTrack(After(start, run[..j]), run[j].event)
  }

  /** The i-th event is the Spotify track that is published now, and `url` is the cover picked for it. */
  ghost predicate Picked(start: Time, run: seq<Timed>, i: nat, url: string) {
    && i < |run| && TrackSince(start, run, i)
    && run[i].event.Player? && run[i].event.player.TrackChanged?
    && var item := run[i].event.player.item;
       && CoverToShip(item.covers).Some? && CoverToShip(item.covers).value.url == url
       && SameTrack(ToTrack(item), After(start, run).track)
  }

  lemma TrackSinceSnoc(start: Time, run: seq<Timed>, i: nat)
    requires run != [] && i < |run| - 1 && TrackSince(start, run[..|run| - 1], i)
    requires !ReplacesTrack(After(start, run[..|run| - 1]), run[|run| - 1].event)
    ensures TrackSince(start, run, i)
  {
    var prefix := run[..|run| - 1];
    forall j | i < j < |run|
      ensures !ReplacesTrack(After(start, run[..j]), run[j].event)
    {
      assert run[..j] == prefix[..j];
      if j == |prefix| {
        assert prefix[..j] == prefix;
      } else {
        assert run[j] == prefix[j];
      }
    }
  }

  /** What awaits a cover and is no new track leaves the awaited cover and the track as they were. */
  lemma StepKeepsAwaiting(p: Published, e: Event, now: Time, heard: Track)
    requires Publish(p, e, now).state.coverUrl.Some? && !(e.Player? && e.player.TrackChanged?)
    ensures !ReplacesTrack(p, e) && Publish(p, e, now).state.coverUrl == p.coverUrl
    ensures SameTrack(heard, p.track) ==> SameTrack(heard, Publish(p, e, now).state.track)
  {
  }

  /** In every interleaving the awaited cover is that of the Spotify track now published. */
  lemma {:induction false} AwaitedCoverIsCurrent(start: Time, run: seq<Timed>) returns (i: nat)
    requires After(start, run).coverUrl.Some?
    ensures Picked(start, run, i, After(start, run).coverUrl.value)
  {
    var prefix, last := run[..|run| - 1], run[|run| - 1];
    var p := After(start, prefix);
    if last.event.Player? && last.event.player.TrackChanged? {
      i := |run| - 1;
    } else {
      StepKeepsAwaiting(p, last.event, last.at, NO_TRACK);
      i := AwaitedCoverIsCurrent(start, prefix);
      StepKeepsAwaiting(p, last.event, last.at, ToTrack(prefix[i].event.player.item));
      TrackSinceSnoc(start, run, i);
    }
  }

  lemma {:induction false} CacheStaysValid(start: Time, run: seq<Timed>)
    ensures ValidCache(After(start, run).cache)
  {
    if run == [] {
    } else {
      var prefix, last := run[..|run| - 1], run[|run| - 1];
      CacheStaysValid(start, prefix);
      if last.event.Fetched? && FetchedCover(last.event.body).Some? {
        InsertKeepsCache(After(start, prefix).cache, last.event.url, FetchedCover(last.event.body).value);
      }
    }
  }

  /** Every cached cover is one that was fetched from the url it is held under. */
  lemma {:induction false} CachedWasFetched(start: Time, run: seq<Timed>, url: string) returns (i: nat)
    requires url in After(start, run).cache.covers
    ensures i < |run| && run[i].event.Fetched? && run[i].event.url == url
    ensures FetchedCover(run[i].event.body) == Some(After(start, run).cache.covers[url])
  {
    var prefix, last := run[..|run| - 1], run[|run| - 1];
    var p := After(start, prefix);
    CacheStaysValid(start, prefix);
    if last.event.Fetched? && FetchedCover(last.event.body).Some? {
      InsertKeepsCache(p.cache, last.event.url, FetchedCover(last.event.body).value);
    }
    if url in p.cache.covers && p.cache.covers[url] == After(start, run).cache.covers[url] {
      i := CachedWasFetched(start, prefix, url);
    } else {
      i := |run| - 1;
    }
  }

  /** A cover the session on the air handed over. */
  predicate HandsOver(p: Published, e: Event, cover: Cover) {
    && e.Air? && OnAir(p, e.air.connection)
    && ((e.air.AirTrack? && e.air.cover == Some(cover)) || (e.air.AirCover? && e.air.picture == cover))
  }

  /** The i-th event brought this cover, and it belongs to what is published now. */
  ghost predicate Brought(start: Time, run: seq<Timed>, i: nat, cover: Cover) {
    && i < |run|
    && var e := run[i].event;
       || (e.Fetched? && FetchedCover(e.body) == Some(cover) && After(start, run).coverUrl == Some(e.url))
       || (HandsOver(After(start, run[..i]), e, cover) && TrackSince(start, run, i))
  }

  predicate Brings(p: Published, e: Event, cover: Cover) {
    HandsOver(p, e, cover) || (e.Fetched? && FetchedCover(e.body) == Some(cover) && p.coverUrl == Some(e.url))
  }

  /** A cover shown after an event was shown before it, was held for the new track, or came with the event. */
  lemma StepKeepsCover(p: Published, e: Event, now: Time)
    requires Publish(p, e, now).state.cover.Some?
    ensures var q := Publish(p, e, now).state;
            if e.Player? && e.player.TrackChanged?
            then q.coverUrl.Some? && q.coverUrl.value in p.cache.covers && q.cover == Some(p.cache.covers[q.coverUrl.value])
            else Brings(p, e, q.cover.value) || (q.cover == p.cover && q.coverUrl == p.coverUrl && !ReplacesTrack(p, e))
  {
  }

  /** The cover shown was fetched for the track shown, or handed over by the session on the air since that track came. */
  lemma {:induction false} CoverBelongs(start: Time, run: seq<Timed>) returns (i: nat)
    requires After(start, run).cover.Some?
    ensures Brought(start, run, i, After(start, run).cover.value)
  {
    var prefix, last := run[..|run| - 1], run[|run| - 1];
    var p, q := After(start, prefix), After(start, run);
    StepKeepsCover(p, last.event, last.at);
    if last.event.Player? && last.event.player.TrackChanged? {
      i := CachedWasFetched(start, prefix, q.coverUrl.value);
    } else if Brings(p, last.event, q.cover.value) {
      i := |run| - 1;
      assert run[..i] == prefix;
    } else {
      i := CoverBelongs(start, prefix);
      assert run[..i] == prefix[..i];
      if !run[i].event.Fetched? {
        TrackSinceSnoc(start, run, i);
      }
    }
  }

  // ----- whether the cover is the track's -----

  datatype Owner = Nobody | SpotifyPlayer | Session(connection: nat)

  /** Whose an event is. */
  function OwnerOf(e: Event): Owner {
    match e
    case Player(player) => if player.TrackChanged? then SpotifyPlayer else Nobody
    case Air(air) => if air.AirTrack? || air.AirCover? then Session(air.connection) else Nobody
    case Fetched(_, _) => SpotifyPlayer
  }

  /** Who the published track came from. */
  function TrackOwner(start: Time, run: seq<Timed>): Owner {
    if run == [] then Nobody
    else
      var prefix, e := run[..|run| - 1], run[|run| - 1].event;
      if ReplacesTrack(After(start, prefix), e) then OwnerOf(e) else TrackOwner(start, prefix)
  }

  /** Who the cover came from. */
  function CoverOwner(start: Time, run: seq<Timed>): Owner {
    if run == [] then Nobody
    else
      var prefix, e := run[..|run| - 1], run[|run| - 1].event;
      if SetsCover(After(start, prefix), e) then OwnerOf(e) else CoverOwner(start, prefix)
  }

  /** The cover shown, if any, came from whom the track came from. */
  ghost predicate CoverMatches(start: Time, run: seq<Timed>) {
    After(start, run).cover.Some? ==> CoverOwner(start, run) == TrackOwner(start, run)
  }

  /** A picture for a track that is not that session's: Spotify's, another session's, or none. */
  predicate Stray(p: Published, owner: Owner, e: Event) {
    TakesPicture(p, e) && owner != Session(e.air.connection)
  }

  lemma {:induction false} AwaitedIsSpotifys(start: Time, run: seq<Timed>)
    ensures After(start, run).coverUrl.Some? ==> TrackOwner(start, run) == SpotifyPlayer
  {
    if run == [] {
    } else {
      AwaitedIsSpotifys(start, run[..|run| - 1]);
    }
  }

  /** What no event sets stays as it is. */
  lemma OtherEventsKeepCover(p: Published, e: Event, now: Time)
    requires !SetsCover(p, e)
    ensures Publish(p, e, now).state.cover == p.cover
  {
  }

  /** One event makes the cover another's than the track's exactly if it is a stray picture. */
  lemma StrayExactly(start: Time, run: seq<Timed>)
    requires run != [] && CoverMatches(start, run[..|run| - 1])
    ensures CoverMatches(start, run) <==>
            !Stray(After(start, run[..|run| - 1]), TrackOwner(start, run[..|run| - 1]), run[|run| - 1].event)
  {
    StrayLast(start, run);
  }

  lemma StrayLast(start: Time, run: seq<Timed>)
    requires run != []
    ensures var prefix, last := run[..|run| - 1], run[|run| - 1];
            var p := After(start, prefix);
            CoverMatches(start, run) <==>
            if SetsCover(p, last.event) then !Stray(p, TrackOwner(start, prefix), last.event)
            else CoverMatches(start, prefix)
  {
    var prefix, last := run[..|run| - 1], run[|run| - 1];
    AwaitedIsSpotifys(start, prefix);
    if !SetsCover(After(start, prefix), last.event) {
      OtherEventsKeepCover(After(start, prefix), last.event, last.at);
    }
  }

  function CoverMark(p: Published, owner: Owner, e: Event): Mark {
    if Stray(p, owner, e) then Broken else if SetsCover(p, e) then Mended else Kept
  }

  /** What each event of a run does to the cover's being the track's. */
  function CoverMarks(start: Time, run: seq<Timed>): (r: seq<Mark>)
    ensures |r| == |run|
  {
    if run == [] then []
    else
      var prefix := run[..|run| - 1];
      CoverMarks(start, prefix) + [CoverMark(After(start, prefix), TrackOwner(start, prefix), run[|run| - 1].event)]
  }

  /** After every run the cover shown is not the track's exactly if a stray picture was the last to decide on it. */
  lemma {:induction false} CoverIsTheTracksExactly(start: Time, run: seq<Timed>)
    ensures CoverMatches(start, run) <==> !LeftBroken(CoverMarks(start, run))
  {
    if run == [] {
    } else {
      var prefix := run[..|run| - 1];
      CoverIsTheTracksExactly(start, prefix);
      StrayLast(start, run);
      LeftBrokenSnoc(CoverMarks(start, prefix),
                     CoverMark(After(start, prefix), TrackOwner(start, prefix), run[|run| - 1].event));
    }
  }

  // ----- whether the cover is within the limit -----

  lemma CacheFits(start: Time, run: seq<Timed>)
    ensures CachedFit(After(start, run))
  {
    forall url | url in After(start, run).cache.covers
      ensures Fits(Some(After(start, run).cache.covers[url]))
    {
      var i := CachedWasFetched(start, run, url);
    }
  }

  function SizeMark(p: Published, e: Event): Mark {
    if InlineOversized(p, e) then Broken else if SetsCover(p, e) then Mended else Kept
  }

  /** What each event of a run does to the cover's being within the limit. */
  function SizeMarks(start: Time, run: seq<Timed>): (r: seq<Mark>)
    ensures |r| == |run|
  {
    if run == [] then []
    else SizeMarks(start, run[..|run| - 1]) + [SizeMark(After(start, run[..|run| - 1]), run[|run| - 1].event)]
  }

  /** After every run the cover shown is past the limit exactly if one that came with an AirPlay track decided on it last. */
  lemma {:induction false} CoverFitsExactly(start: Time, run: seq<Timed>)
    ensures Fits(After(start, run).cover) <==> !LeftBroken(SizeMarks(start, run))
  {
    if run == [] {
    } else {
      var prefix, last := run[..|run| - 1], run[|run| - 1];
      CoverFitsExactly(start, prefix);
      CacheFits(start, prefix);
      OversizedExactlyInline(After(start, prefix), last.event, last.at);
      LeftBrokenSnoc(SizeMarks(start, prefix), SizeMark(After(start, prefix), last.event));
    }
  }

  /** The marks of a run, event by event. */
  lemma {:induction false} MarksAt(start: Time, run: seq<Timed>, i: nat)
    requires i < |run|
    ensures CoverMarks(start, run)[i] == CoverMark(After(start, run[..i]), TrackOwner(start, run[..i]), run[i].event)
    ensures SizeMarks(start, run)[i] == SizeMark(After(start, run[..i]), run[i].event)
  {
    if i < |run| - 1 {
      MarksAt(start, run[..|run| - 1], i);
      assert run[..|run| - 1][..i] == run[..i];
    }
  }
}
