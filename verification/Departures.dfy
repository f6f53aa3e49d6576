/** Runs of the control API on which it does not do what its documentation says: `src/server.rs`. */
module Departures {
  import opened Wrappers
  import opened NowPlaying
  import opened NowPlayingRuns
  import opened ApiServer

  lemma AfterOne(start: Time, a: Timed)
    ensures After(start, [a]) == Publish(Initially(start), a.event, a.at).state
  {
    assert [a][..0] == [];
    assert After(start, []) == Initially(start);
  }

  lemma AfterMore(start: Time, run: seq<Timed>, last: Timed)
    ensures After(start, run + [last]) == Publish(After(start, run), last.event, last.at).state
  {
    var all := run + [last];
    assert all[..|all| - 1] == run && all[|all| - 1] == last;
  }

  predicate IsTrackOf(t: Timed, connection: nat) {
    t.event.Air? && t.event.air.AirTrack? && t.event.air.connection == connection
  }

  lemma TrackOnAir(start: Time, play: Timed, track: Timed, connection: nat)
    requires IsAirStart(play.event, connection) && IsTrackOf(track, connection)
    ensures var p, air := After(start, [play, track]), track.event.air;
            && OnAir(p, connection) && p.cover == air.cover && p.coverUrl == None
            && p.track == AirTrackOf(air.title, air.artist, air.album, air.albumArtist, air.durationMs)
            && p.playback.measuredAt == play.at
  {
    AfterOne(start, play);
    AfterMore(start, [play], track);
    assert [play] + [track] == [play, track];
  }

  /** A client that subscribes to a track without a length never hears of the length a progress report brings. */
  lemma LengthGoesUnheard(start: Time, play: Timed, track: Timed, connection: nat, positionMs: nat, durationMs: nat,
                          now: Time)
    requires IsAirStart(play.event, connection) && IsTrackOf(track, connection) && track.event.air.durationMs == 0
    requires play.at <= now && 0 < durationMs
    ensures var p := After(start, [play, track]);
            var progress := Air(AirProgress(connection, positionMs, durationMs));
            var v := HearAll(BLANK, Answers(p, false, Subscribe, now), now);
            && HearAll(v, Publish(p, progress, now).lines, now).track.durationMs == 0
            && After(start, [play, track] + [Timed(progress, now)]).track.durationMs == durationMs
  {
    var p := After(start, [play, track]);
    var progress := Air(AirProgress(connection, positionMs, durationMs));
    var v := HearAll(BLANK, Answers(p, false, Subscribe, now), now);
    TrackOnAir(start, play, track, connection);
    AfterMore(start, [play, track], Timed(progress, now));
    AnswersTellTrack(BLANK, p, false, Subscribe, now);
    HearTwo(v, Publish(p, progress, now).lines, now);
  }

  /** A picture of any size is published if it comes with an AirPlay track. */
  lemma OversizedIsPublished(start: Time, play: Timed, track: Timed, connection: nat)
    requires IsAirStart(play.event, connection) && IsTrackOf(track, connection)
    requires track.event.air.cover.Some? && MAX_COVER_BYTES < |track.event.air.cover.value.bytes|
    ensures !Fits(After(start, [play, track]).cover)
  {
    TrackOnAir(start, play, track, connection);
  }

  /** A client that unsubscribed with a picture and subscribes again after it is gone still has it. */
  lemma PictureOutlivesTrack(start: Time, play: Timed, track: Timed, next: Timed, connection: nat, now: Time, later: Time)
    requires IsAirStart(play.event, connection) && IsTrackOf(track, connection) && IsTrackOf(next, connection)
    requires track.event.air.cover.Some? && next.event.air.cover.None?
    ensures var p, q := After(start, [play, track]), After(start, [play, track] + [next]);
            var v := HearAll(BLANK, Answers(p, false, Subscribe, now), now);
            && HearAll(v, Answers(q, false, Subscribe, later), later).cover == track.event.air.cover
            && q.cover == None
  {
    var p, q := After(start, [play, track]), After(start, [play, track] + [next]);
    var v := HearAll(BLANK, Answers(p, false, Subscribe, now), now);
    TrackOnAir(start, play, track, connection);
    AfterMore(start, [play, track], next);
    HearTwo(BLANK, Answers(p, false, Subscribe, now), now);
    HearTwo(v, Answers(q, false, Subscribe, later), later);
  }

  /** A client that subscribes ten milliseconds past the end of a track is ten behind once a longer track follows it. */
  lemma HeldBackSnapshotDrifts(start: Time, short: AudioItem, long: AudioItem, at: Time)
    requires short.durationMs == 10 && long.durationMs == 100 && long.covers == []
    ensures var run := [Timed(Player(TrackChanged(short)), at), Timed(Player(Playing(0)), at)];
            var p, change := After(start, run), Timed(Player(TrackChanged(long)), at + 20);
            var q := After(start, run + [change]);
            var v := HearAll(BLANK, Answers(p, false, Subscribe, at + 20), at + 20);
            var w := HearAll(v, Publish(p, change.event, at + 20).lines, at + 20);
            && PositionAt(w.playback, w.track.durationMs, at + 20) == 10
            && PositionAt(q.playback, q.track.durationMs, at + 20) == 20
  {
    var a, b := Timed(Player(TrackChanged(short)), at), Timed(Player(Playing(0)), at);
    var change := Timed(Player(TrackChanged(long)), at + 20);
    AfterOne(start, a);
    AfterMore(start, [a], b);
    assert [a] + [b] == [a, b];
    var p := After(start, [a, b]);
    AfterMore(start, [a, b], change);
    var v := HearAll(BLANK, Answers(p, false, Subscribe, at + 20), at + 20);
    HearTwo(BLANK, Answers(p, false, Subscribe, at + 20), at + 20);
    HearTwo(v, Publish(p, change.event, at + 20).lines, at + 20);
  }

  /** An AirPlay session that has not said what it plays puts its picture over the Spotify track. */
  lemma PictureStrays(start: Time, item: AudioItem, play: Timed, connection: nat, picture: Cover, at: Time)
    requires IsAirStart(play.event, connection) && |picture.bytes| <= MAX_COVER_BYTES
    ensures var run := [Timed(Player(TrackChanged(item)), at), play] + [Timed(Air(AirCover(connection, picture)), at)];
            After(start, run).track == ToTrack(item) && After(start, run).cover == Some(picture)
  {
    var a, b := Timed(Player(TrackChanged(item)), at), Timed(Air(AirCover(connection, picture)), at);
    AfterOne(start, a);
    AfterMore(start, [a], play);
    assert [a] + [play] == [a, play];
    AfterMore(start, [a, play], b);
  }

  // ----- a line that waits -----

  /** A client is let in, something plays, and the client subscribes. */
  function Subscribing(at: Time): seq<Timely> {
    [Timely(Connect(true), at)] + [Timely(Happened(Player(Playing(0))), at)] + [Timely(Requested(0, Subscribe), at)]
  }

  /** What it is sent waits in its queue. */
  lemma SnapshotQueued(start: Time, run: seq<Timely>, at: Time)
    requires run == Subscribing(at)
    ensures var p := Run(start, run).published;
            && p.playback == Playback(true, 0, at) && p.track == NO_TRACK
            && PlaceOf(Run(start, run), 0)
               == Registered(Connection([], [], [Entry(Snapshot(p, at), at)], true, true, 0))
  {
    var a, b, c := Timely(Connect(true), at), Timely(Happened(Player(Playing(0))), at), Timely(Requested(0, Subscribe), at);
    var none: seq<Timely> := [];
    assert none + [a] == [a];
    StepMore(start, none, a, 0);
    StepMore(start, [a], b, 0);
    StepMore(start, [a] + [b], c, 0);
    var p := Run(start, run).published;
    assert p == Publish(Initially(start), Player(Playing(0)), at).state;
    var entries := Stamped(Answers(p, false, Subscribe, at), at);
    assert entries == [Entry(Snapshot(p, at), at)];
    OfferAllExactly(Marked(NEWCOMER, Subscribe), entries);
  }

  /** A line that waits for `wait` in the queue leaves a client that counts from its arrival just that much behind. */
  lemma LateLineDrifts(start: Time, run: seq<Timely>, at: Time, wait: Time)
    requires run == Subscribing(at)
    requires wait <= U32_MAX
    ensures var end := Run(start, run + [Timely(Drained(0), at + wait)]);
            && Listens(PlaceOf(end, 0))
            && Counted(HearArrivals(BLANK, ArrivedSince(PlaceOf(end, 0).c)).playback, at + wait) == 0
            && Counted(end.published.playback, at + wait) == wait
  {
    SnapshotQueued(start, run, at);
    StepMore(start, run, Timely(Drained(0), at + wait), 0);
    var p := Run(start, run).published;
    var c := PlaceOf(Run(start, run + [Timely(Drained(0), at + wait)]), 0).c;
    var entry := Entry(Snapshot(p, at), at);
    assert c.taken == [entry] && c.arrivals == [at + wait];
    ZipAt(c.taken[0..], c.arrivals[0..]);
    var log := ArrivedSince(c);
    assert log == [Arrival(entry, at + wait)];
    assert log[..0] == [];
    assert HearArrivals(BLANK, log) == Hear(HearArrivals(BLANK, log[..0]), entry.line, at + wait);
  }
}
