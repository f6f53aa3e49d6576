/**
 * What is published after every run of events, told from the events themselves and from nothing the server keeps:
 * `src/server.rs`.
 */
module PublishedLaws {
  import opened Wrappers
  import opened NowPlaying
  import opened NowPlayingRuns

  // ----- whose events count -----

  /** Spotify was the last to start playing, or nobody was. */
  ghost predicate SpotifyLeads(run: seq<Timed>) {
    !exists i: nat :: LatestStart(run, i) && run[i].event.Air?
  }

  /** The event of a session that is on the air. */
  ghost predicate Live(run: seq<Timed>, e: Event) {
    e.Air? && Broadcasting(run, e.air.connection)
  }

  lemma Standing(start: Time, run: seq<Timed>, e: Event)
    ensures SpotifyLeads(run) <==> After(start, run).source == Spotify
    ensures Live(run, e) <==> e.Air? && OnAir(After(start, run), e.air.connection)
  {
    SourceIsLatestStart(start, run);
    if e.Air? {
      OnAirExactly(start, run, e.air.connection);
    }
  }

  lemma Prefixes(run: seq<Timed>, i: nat)
    requires i < |run| - 1
    ensures run[..|run| - 1][..i] == run[..i]
  {
  }

  // ----- playing or not, and where -----

  /** Events that say where playback stands. */
  predicate Reports(e: Event, leads: bool, live: bool) {
    match e
    case Player(player) =>
      || player.Playing? || player.Paused? || player.Stopped? || player.Moved? || (player.SessionDisconnected? && leads)
    case Air(air) =>
      || (air.AirPlayback? && (air.isPlaying || live)) || (air.AirProgress? && live) || (air.AirEnded? && live)
    case Fetched(_, _) => false
  }

  function ReportedPosition(e: Event): nat {
    match e
    case Player(Playing(positionMs)) => positionMs
    case Player(Paused(positionMs)) => positionMs
    case Player(Moved(positionMs)) => positionMs
    case Air(AirPlayback(_, _, positionMs)) => positionMs
    case Air(AirProgress(_, positionMs, _)) => positionMs
    case _ => 0
  }

  /** Reports that also say whether it plays. */
  predicate Decides(e: Event, leads: bool, live: bool) {
    Reports(e, leads, live) && !(e.Player? && e.player.Moved?) && !(e.Air? && e.air.AirProgress?)
  }

  lemma PlaybackStep(p: Published, e: Event, now: Time, leads: bool, live: bool)
    requires (leads <==> p.source == Spotify) && (live <==> e.Air? && OnAir(p, e.air.connection))
    ensures Publish(p, e, now).state.playback
         == if Reports(e, leads, live)
            then Playback(if Decides(e, leads, live) then IsStart(e) else p.playback.isPlaying, ReportedPosition(e), now)
            else p.playback
  {
  }

  ghost predicate ReportsAt(run: seq<Timed>, i: nat)
    requires i < |run|
  {
    Reports(run[i].event, SpotifyLeads(run[..i]), Live(run[..i], run[i].event))
  }

  ghost predicate DecidesAt(run: seq<Timed>, i: nat)
    requires i < |run|
  {
    Decides(run[i].event, SpotifyLeads(run[..i]), Live(run[..i], run[i].event))
  }

  /** The i-th event is the latest that reports. */
  ghost predicate LatestReport(run: seq<Timed>, i: nat) {
    i < |run| && ReportsAt(run, i) && forall j :: i < j < |run| ==> !ReportsAt(run, j)
  }

  ghost predicate LatestDecision(run: seq<Timed>, i: nat) {
    i < |run| && DecidesAt(run, i) && forall j :: i < j < |run| ==> !DecidesAt(run, j)
  }

  lemma PlaybackLast(start: Time, run: seq<Timed>)
    requires run != []
    ensures var n, p := |run| - 1, After(start, run[..|run| - 1]);
            var playing := if DecidesAt(run, n) then IsStart(run[n].event) else p.playback.isPlaying;
            After(start, run).playback ==
            if ReportsAt(run, n) then Playback(playing, ReportedPosition(run[n].event), run[n].at) else p.playback
  {
    var prefix, last := run[..|run| - 1], run[|run| - 1];
    Standing(start, prefix, last.event);
    PlaybackStep(After(start, prefix), last.event, last.at, SpotifyLeads(prefix), Live(prefix, last.event));
  }

  lemma SameReports(run: seq<Timed>, i: nat)
    requires i < |run| - 1
    ensures ReportsAt(run, i) == ReportsAt(run[..|run| - 1], i) && DecidesAt(run, i) == DecidesAt(run[..|run| - 1], i)
  {
    Prefixes(run, i);
  }

  /** The published position and the time it was measured at are those of the latest report. */
  lemma {:induction false} PositionIsLatestReport(start: Time, run: seq<Timed>, i: nat)
    requires LatestReport(run, i)
    ensures After(start, run).playback.positionMs == ReportedPosition(run[i].event)
    ensures After(start, run).playback.measuredAt == run[i].at
  {
    PlaybackLast(start, run);
    if i == |run| - 1 {
    } else {
      var prefix := run[..|run| - 1];
      SameReports(run, i);
      forall j | i < j < |prefix|
        ensures !ReportsAt(prefix, j)
      {
        SameReports(run, j);
      }
      PositionIsLatestReport(start, prefix, i);
    }
  }

  /** Before any report it is at the beginning, and halted. */
  lemma {:induction false} NoReportYet(start: Time, run: seq<Timed>)
    requires forall j :: 0 <= j < |run| ==> !ReportsAt(run, j)
    ensures After(start, run).playback == Playback(false, 0, start)
  {
    if run == [] {
    } else {
      var prefix := run[..|run| - 1];
      PlaybackLast(start, run);
      forall j | 0 <= j < |prefix|
        ensures !ReportsAt(prefix, j)
      {
        SameReports(run, j);
      }
      NoReportYet(start, prefix);
    }
  }

  /** The latest event to decide whether it plays, if there was one. */
  ghost predicate DecidedBy(run: seq<Timed>, d: Option<nat>) {
    if d.Some? then LatestDecision(run, d.value) else forall j :: 0 <= j < |run| ==> !DecidesAt(run, j)
  }

  /** It plays exactly if the latest event to decide that was a start. */
  lemma {:induction false} PlaysExactly(start: Time, run: seq<Timed>, d: Option<nat>)
    requires DecidedBy(run, d)
    ensures After(start, run).playback.isPlaying <==> d.Some? && IsStart(run[d.value].event)
    decreases |run|
  {
    if run == [] {
    } else {
      var prefix := run[..|run| - 1];
      PlaybackLast(start, run);
      if d == Some(|prefix|) {
      } else {
        if d.Some? {
          SameReports(run, d.value);
        }
        forall j | 0 <= j < |prefix| && (d.Some? ==> d.value < j)
          ensures !DecidesAt(prefix, j)
        {
          SameReports(run, j);
        }
        PlaysExactly(start, prefix, d);
      }
    }
  }

  /**
   * What a snapshot says at any time: halted, the position of the latest report; playing, that position and the time
   * since, within 32 bits and within a length that is known.
   */
  lemma SnapshotSays(start: Time, run: seq<Timed>, i: nat, d: Option<nat>, now: Time)
    requires LatestReport(run, i) && DecidedBy(run, d)
    ensures var line, length := Snapshot(After(start, run), now), After(start, run).track.durationMs;
            var playing := d.Some? && IsStart(run[d.value].event);
            var elapsed := if run[i].at <= now then now - run[i].at else 0;
            var counted := ReportedPosition(run[i].event) + elapsed;
            var shown := if 4294967295 < counted then 4294967295 else counted;
            && (line.isPlaying <==> playing)
            && (!playing ==> line.positionMs == ReportedPosition(run[i].event))
            && (playing ==> line.positionMs == if 0 < length < shown then length else shown)
            && line.volume == After(start, run).volume && line.track == After(start, run).track
  {
    PositionIsLatestReport(start, run, i);
    PlaysExactly(start, run, d);
  }

  // ----- the volume -----

  predicate SetsVolume(e: Event, live: bool) {
    (e.Player? && e.player.VolumeChanged?) || (e.Air? && e.air.AirVolume? && live)
  }

  function VolumeOf(e: Event): nat {
    match e
    case Player(VolumeChanged(volume)) => volume
    case Air(AirVolume(_, volume)) => volume
    case _ => 0
  }

  ghost predicate SetsVolumeAt(run: seq<Timed>, i: nat)
    requires i < |run|
  {
    SetsVolume(run[i].event, Live(run[..i], run[i].event))
  }

  lemma VolumeLast(start: Time, run: seq<Timed>)
    requires run != []
    ensures var n := |run| - 1;
            After(start, run).volume ==
            if SetsVolumeAt(run, n) then VolumeOf(run[n].event) else After(start, run[..n]).volume
  {
    Standing(start, run[..|run| - 1], run[|run| - 1].event);
  }

  /** The published volume is that of the latest volume event, of Spotify or of the session then on the air. */
  lemma {:induction false} VolumeIsLatest(start: Time, run: seq<Timed>, i: nat)
    requires i < |run| && SetsVolumeAt(run, i) && forall j :: i < j < |run| ==> !SetsVolumeAt(run, j)
    ensures After(start, run).volume == VolumeOf(run[i].event)
  {
    VolumeLast(start, run);
    if i == |run| - 1 {
    } else {
      var prefix := run[..|run| - 1];
      Prefixes(run, i);
      forall j | i < j < |prefix|
        ensures !SetsVolumeAt(prefix, j)
      {
        Prefixes(run, j);
        assert !SetsVolumeAt(run, j);
      }
      VolumeIsLatest(start, prefix, i);
    }
  }

  lemma {:induction false} NoVolumeYet(start: Time, run: seq<Timed>)
    requires forall j :: 0 <= j < |run| ==> !SetsVolumeAt(run, j)
    ensures After(start, run).volume == 0
  {
    if run == [] {
    } else {
      var prefix := run[..|run| - 1];
      VolumeLast(start, run);
      forall j | 0 <= j < |prefix|
        ensures !SetsVolumeAt(prefix, j)
      {
        Prefixes(run, j);
        assert !SetsVolumeAt(run, j);
      }
      NoVolumeYet(start, prefix);
    }
  }

  // ----- the track -----

  /** Events that announce a track, or that there is none. */
  predicate Announces(e: Event, leads: bool, live: bool) {
    match e
    case Player(player) => player.TrackChanged? || (player.SessionDisconnected? && leads)
    case Air(air) => (air.AirTrack? || air.AirEnded?) && live
    case Fetched(_, _) => false
  }

  predicate DescribesItem(t: Track, item: AudioItem) {
    && t.songName == item.name && t.songUri == item.uri && t.itemType == item.itemType
    && t.isExplicit == item.isExplicit && t.source == "spotify"
    && (item.itemType == "track" ==> t.songId == item.id) && (item.itemType != "track" ==> t.songId == "")
    && match item.fields
       case TrackFields(artists, album, albumArtists) =>
         t.songArtists == artists && t.album == album && t.albumArtists == albumArtists
       case EpisodeFields(showName) => t.songArtists == [showName] && t.album == showName && t.albumArtists == []
       case LocalFields(artist, album, albumArtist) =>
         && (artist.Some? ==> t.songArtists == [artist.value]) && (artist.None? ==> t.songArtists == [])
         && (album.Some? ==> t.album == album.value) && (album.None? ==> t.album == "")
         && (albumArtist.Some? ==> t.albumArtists == [albumArtist.value]) && (albumArtist.None? ==> t.albumArtists == [])
  }

  predicate DescribesAir(t: Track, title: string, artist: string, album: string, albumArtist: string) {
    && t.songName == title && t.songArtists == [artist] && t.album == album
    && (albumArtist == "" ==> t.albumArtists == []) && (albumArtist != "" ==> t.albumArtists == [albumArtist])
    && t.songId == "" && t.songUri == "" && t.itemType == "airplay" && t.source == "airplay" && !t.isExplicit
  }

  predicate DescribesNothing(t: Track) {
    && t.songName == "" && t.songId == "" && t.songArtists == [] && t.songUri == "" && t.itemType == ""
    && t.album == "" && t.albumArtists == [] && !t.isExplicit && t.source == ""
  }

  /** All of a track that was announced but its length. */
  predicate Describes(t: Track, e: Event) {
    match e
    case Player(TrackChanged(item)) => DescribesItem(t, item)
    case Air(AirTrack(_, title, artist, album, albumArtist, _, _)) => DescribesAir(t, title, artist, album, albumArtist)
    case _ => DescribesNothing(t)
  }

  function AnnouncedLength(e: Event): nat {
    match e
    case Player(TrackChanged(item)) => item.durationMs
    case Air(AirTrack(_, _, _, _, _, durationMs, _)) => durationMs
    case _ => 0
  }

  /** A progress report of the session on the air that knows a length. */
  predicate KnowsLength(e: Event, live: bool) {
    e.Air? && e.air.AirProgress? && live && e.air.durationMs != 0
  }

  lemma TrackStep(p: Published, e: Event, now: Time, leads: bool, live: bool)
    requires (leads <==> p.source == Spotify) && (live <==> e.Air? && OnAir(p, e.air.connection))
    ensures var q := Publish(p, e, now).state.track;
            if Announces(e, leads, live) then Describes(q, e) && q.durationMs == AnnouncedLength(e)
            else if KnowsLength(e, live) && p.track.durationMs == 0 then q == p.track.(durationMs := e.air.durationMs)
            else q == p.track
  {
  }

  ghost predicate AnnouncesAt(run: seq<Timed>, i: nat)
    requires i < |run|
  {
    Announces(run[i].event, SpotifyLeads(run[..i]), Live(run[..i], run[i].event))
  }

  ghost predicate KnowsLengthAt(run: seq<Timed>, i: nat)
    requires i < |run|
  {
    KnowsLength(run[i].event, Live(run[..i], run[i].event))
  }

  ghost predicate LatestAnnouncement(run: seq<Timed>, i: nat) {
    i < |run| && AnnouncesAt(run, i) && forall j :: i < j < |run| ==> !AnnouncesAt(run, j)
  }

  lemma SameAnnouncements(run: seq<Timed>, i: nat)
    requires i < |run| - 1
    ensures AnnouncesAt(run, i) == AnnouncesAt(run[..|run| - 1], i)
    ensures KnowsLengthAt(run, i) == KnowsLengthAt(run[..|run| - 1], i)
  {
    Prefixes(run, i);
  }

  lemma TrackLast(start: Time, run: seq<Timed>)
    requires run != []
    ensures var n, p, q := |run| - 1, After(start, run[..|run| - 1]).track, After(start, run).track;
            if AnnouncesAt(run, n) then Describes(q, run[n].event) && q.durationMs == AnnouncedLength(run[n].event)
            else if KnowsLengthAt(run, n) && p.durationMs == 0 then q == p.(durationMs := run[n].event.air.durationMs)
            else q == p
  {
    var prefix, last := run[..|run| - 1], run[|run| - 1];
    Standing(start, prefix, last.event);
    TrackStep(After(start, prefix), last.event, last.at, SpotifyLeads(prefix), Live(prefix, last.event));
  }

  lemma DescribesAnyLength(t: Track, e: Event, durationMs: nat)
    requires Describes(t, e)
    ensures Describes(t.(durationMs := durationMs), e)
  {
  }

  lemma AnnouncedBefore(run: seq<Timed>, i: nat)
    requires LatestAnnouncement(run, i) && i < |run| - 1
    ensures LatestAnnouncement(run[..|run| - 1], i) && !AnnouncesAt(run, |run| - 1)
  {
    var prefix := run[..|run| - 1];
    SameAnnouncements(run, i);
    forall j | i < j < |prefix|
      ensures !AnnouncesAt(prefix, j)
    {
      SameAnnouncements(run, j);
    }
  }

  /** The published track is the one announced last, field by field. */
  lemma {:induction false} TrackIsLatest(start: Time, run: seq<Timed>, i: nat)
    requires LatestAnnouncement(run, i)
    ensures Describes(After(start, run).track, run[i].event)
    ensures AnnouncedLength(run[i].event) != 0 ==> After(start, run).track.durationMs == AnnouncedLength(run[i].event)
  {
    TrackLast(start, run);
    if i == |run| - 1 {
    } else {
      var prefix, n := run[..|run| - 1], |run| - 1;
      AnnouncedBefore(run, i);
      TrackIsLatest(start, prefix, i);
      if KnowsLengthAt(run, n) {
        DescribesAnyLength(After(start, prefix).track, run[i].event, run[n].event.air.durationMs);
      }
    }
  }

  /** A track announced without a length gets that of the first progress report since that knows one. */
  lemma {:induction false} LengthIsFirstKnown(start: Time, run: seq<Timed>, i: nat, k: Option<nat>)
    requires LatestAnnouncement(run, i) && AnnouncedLength(run[i].event) == 0
    requires if k.Some? then i < k.value < |run| && KnowsLengthAt(run, k.value)
                          && forall j :: i < j < k.value ==> !KnowsLengthAt(run, j)
             else forall j :: i < j < |run| ==> !KnowsLengthAt(run, j)
    ensures After(start, run).track.durationMs == if k.Some? then run[k.value].event.air.durationMs else 0
    decreases |run|
  {
    TrackLast(start, run);
    if i == |run| - 1 {
    } else {
      var prefix, n := run[..|run| - 1], |run| - 1;
      AnnouncedBefore(run, i);
      forall j | i < j < n
        ensures KnowsLengthAt(prefix, j) == KnowsLengthAt(run, j)
      {
        SameAnnouncements(run, j);
      }
      LengthIsFirstKnown(start, prefix, i, if k == Some(n) then None else k);
    }
  }

  lemma {:induction false} NoTrackYet(start: Time, run: seq<Timed>)
    requires forall j :: 0 <= j < |run| ==> !AnnouncesAt(run, j)
    ensures DescribesNothing(After(start, run).track)
  {
    if run == [] {
    } else {
      var prefix := run[..|run| - 1];
      TrackLast(start, run);
      forall j | 0 <= j < |prefix|
        ensures !AnnouncesAt(prefix, j)
      {
        SameAnnouncements(run, j);
      }
      NoTrackYet(start, prefix);
    }
  }

  // ----- the cover -----

  lemma AwaitedLast(start: Time, run: seq<Timed>)
    requires run != []
    ensures var n := |run| - 1;
            After(start, run).coverUrl ==
            if AnnouncesAt(run, n) then PickedUrl(run[n].event) else After(start, run[..n]).coverUrl
  {
    Standing(start, run[..|run| - 1], run[|run| - 1].event);
  }

  /** The url of the cover picked for a Spotify track. */
  function PickedUrl(e: Event): Option<string> {
    if e.Player? && e.player.TrackChanged? && CoverToShip(e.player.item.covers).Some?
    then Some(CoverToShip(e.player.item.covers).value.url)
    else None
  }

  /** The cover awaited is the one picked for the track announced last, if that was Spotify's. */
  lemma {:induction false} AwaitedIsPicked(start: Time, run: seq<Timed>, i: nat)
    requires LatestAnnouncement(run, i)
    ensures After(start, run).coverUrl == PickedUrl(run[i].event)
  {
    AwaitedLast(start, run);
    if i == |run| - 1 {
    } else {
      AnnouncedBefore(run, i);
      AwaitedIsPicked(start, run[..|run| - 1], i);
    }
  }

  /** The cover an event decides on, given the covers at hand. */
  function CoverDecided(e: Event, held: map<string, Cover>): Option<Cover> {
    match e
    case Player(player) =>
      if PickedUrl(e).Some? && PickedUrl(e).value in held then Some(held[PickedUrl(e).value]) else None
    case Air(AirTrack(_, _, _, _, _, _, cover)) => cover
    case Air(AirCover(_, picture)) => Some(picture)
    case Air(_) => None
    case Fetched(_, body) => FetchedCover(body)
  }

  ghost predicate SetsCoverAt(start: Time, run: seq<Timed>, i: nat)
    requires i < |run|
  {
    SetsCover(After(start, run[..i]), run[i].event)
  }

  lemma CoverLast(start: Time, run: seq<Timed>)
    requires run != []
    ensures var n := |run| - 1;
            After(start, run).cover ==
            if SetsCoverAt(start, run, n) then CoverDecided(run[n].event, After(start, run[..n]).cache.covers)
            else After(start, run[..n]).cover
  {
  }

  /** The cover shown is what the latest event to decide on one made it. */
  lemma {:induction false} CoverIsLatest(start: Time, run: seq<Timed>, i: nat)
    requires i < |run| && SetsCoverAt(start, run, i) && forall j :: i < j < |run| ==> !SetsCoverAt(start, run, j)
    ensures After(start, run).cover == CoverDecided(run[i].event, After(start, run[..i]).cache.covers)
  {
    CoverLast(start, run);
    if i == |run| - 1 {
    } else {
      var prefix := run[..|run| - 1];
      Prefixes(run, i);
      forall j | i < j < |prefix|
        ensures !SetsCoverAt(start, prefix, j)
      {
        Prefixes(run, j);
        assert !SetsCoverAt(start, run, j);
      }
      CoverIsLatest(start, prefix, i);
    }
  }

  // ----- the covers at hand -----

  function LastFour(urls: seq<string>): seq<string> {
    if |urls| <= 4 then urls else urls[|urls| - 4..]
  }

  /** The urls that were put into the cache, in order: those whose cover came while it was not at hand. */
  function Inserted(run: seq<Timed>): seq<string> {
    if run == [] then []
    else
      var before, e := Inserted(run[..|run| - 1]), run[|run| - 1].event;
      if e.Fetched? && FetchedCover(e.body).Some? && e.url !in LastFour(before) then before + [e.url] else before
  }

  lemma LastFourSnoc(urls: seq<string>, url: string)
    ensures LastFour(urls + [url])
         == (if |LastFour(urls)| < 4 then LastFour(urls) else LastFour(urls)[1..]) + [url]
  {
  }

  lemma InsertedOrder(c: Cache, url: string, cover: Cover)
    requires ValidCache(c)
    ensures CacheInsert(c, url, cover).order
         == if url in c.order then c.order else (if |c.order| < 4 then c.order else c.order[1..]) + [url]
  {
  }

  lemma CacheLast(start: Time, run: seq<Timed>)
    requires run != []
    ensures var c, e := After(start, run[..|run| - 1]).cache, run[|run| - 1].event;
            After(start, run).cache ==
            if e.Fetched? && FetchedCover(e.body).Some? then CacheInsert(c, e.url, FetchedCover(e.body).value) else c
  {
  }

  lemma {:induction false} OrderIsLastFour(start: Time, run: seq<Timed>)
    ensures After(start, run).cache.order == LastFour(Inserted(run))
  {
    if run == [] {
    } else {
      var prefix, e := run[..|run| - 1], run[|run| - 1].event;
      OrderIsLastFour(start, prefix);
      CacheLast(start, run);
      if e.Fetched? && FetchedCover(e.body).Some? {
        CacheStaysValid(start, prefix);
        InsertedOrder(After(start, prefix).cache, e.url, FetchedCover(e.body).value);
        LastFourSnoc(Inserted(prefix), e.url);
      }
    }
  }

  /** The covers at hand are those put in last, four at most, and the oldest goes first. */
  lemma HoldsLastFour(start: Time, run: seq<Timed>)
    ensures After(start, run).cache.order == LastFour(Inserted(run))
    ensures forall u :: u in After(start, run).cache.covers <==> u in LastFour(Inserted(run))
  {
    OrderIsLastFour(start, run);
    CacheStaysValid(start, run);
  }
}
