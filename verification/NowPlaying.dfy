/**
 * What the control API publishes, and the lines it pushes when that changes: the state half of
 * `src/server.rs`. Nothing here depends on who is connected.
 */
module NowPlaying {
  import opened Wrappers

  const U32_MAX: nat := 0xffff_ffff
  const MAX_COVER_BYTES: nat := 2 * 1024 * 1024
  const COVER_CACHE_SIZE: nat := 4

  /** Milliseconds, from a clock that does not run backwards. */
  type Time = nat

  // ----- tracks and covers -----

  datatype Track = Track(
    songName: string,
    songId: string,
    songArtists: seq<string>,
    songUri: string,
    itemType: string,
    album: string,
    albumArtists: seq<string>,
    durationMs: nat,
    isExplicit: bool,
    source: string)

  const NO_TRACK: Track := Track("", "", [], "", "", "", [], 0, false, "")

  datatype CoverImage = CoverImage(url: string, width: int)

  datatype UniqueFields =
    | TrackFields(artists: seq<string>, album: string, albumArtists: seq<string>)
    | LocalFields(artist: Option<string>, localAlbum: Option<string>, albumArtist: Option<string>)
    | EpisodeFields(showName: string)

  datatype AudioItem = AudioItem(
    name: string,
    uri: string,
    itemType: string,
    id: string,
    covers: seq<CoverImage>,
    durationMs: nat,
    isExplicit: bool,
    fields: UniqueFields)

  function AsList(s: Option<string>): seq<string> {
    if s.Some? then [s.value] else []
  }

  function ToTrack(item: AudioItem): Track {
    var (artists, album, albumArtists) :=
      match item.fields
      case TrackFields(artists, album, albumArtists) => (artists, album, albumArtists)
      case EpisodeFields(showName) => ([showName], showName, [])
      case LocalFields(artist, album, albumArtist) =>
        (AsList(artist), if album.Some? then album.value else "", AsList(albumArtist));
    Track(item.name, if item.itemType == "track" then item.id else "", artists, item.uri, item.itemType,
          album, albumArtists, item.durationMs, item.isExplicit, "spotify")
  }

  /** The cover to fetch: the widest on offer, and the last of those if several are. */
  function CoverToShip(covers: seq<CoverImage>): Option<CoverImage> {
    if covers == [] then None
    else
      var last := covers[|covers| - 1];
      match CoverToShip(covers[..|covers| - 1])
      case None => Some(last)
      case Some(best) => if best.width <= last.width then Some(last) else Some(best)
  }

  lemma {:induction false} WidestIsShipped(covers: seq<CoverImage>, i: nat)
    requires i < |covers|
    requires forall j :: 0 <= j < |covers| ==>
               if j <= i then covers[j].width <= covers[i].width else covers[j].width < covers[i].width
    ensures CoverToShip(covers) == Some(covers[i])
  {
    var init := covers[..|covers| - 1];
    if i < |init| {
      WidestIsShipped(init, i);
    } else if init != [] {
      ShippedIsOffered(init);
    }
  }

  lemma {:induction false} ShippedIsOffered(covers: seq<CoverImage>)
    requires covers != []
    ensures CoverToShip(covers).Some? && CoverToShip(covers).value in covers
  {
    var init := covers[..|covers| - 1];
    if init != [] {
      ShippedIsOffered(init);
      assert forall c :: c in init ==> c in covers;
    }
  }

  datatype Cover = Cover(bytes: seq<byte>, mime: string)

  function CoverMime(b: seq<byte>): string {
    if [0xff, 0xd8, 0xff] <= b then "image/jpeg"
    else if [0x89, 0x50, 0x4e, 0x47] <= b then "image/png"
    else if [0x47, 0x49, 0x46, 0x38] <= b then "image/gif"
    else if 12 <= |b| && b[..4] == [0x52, 0x49, 0x46, 0x46] && b[8..12] == [0x57, 0x45, 0x42, 0x50] then "image/webp"
    else "application/octet-stream"
  }

  /** What a fetch hands back: nothing if it failed, timed out or brought too much. */
  function FetchedCover(body: Option<seq<byte>>): Option<Cover> {
    if body.Some? && |body.value| <= MAX_COVER_BYTES then Some(Cover(body.value, CoverMime(body.value))) else None
  }

  predicate StartsWith(b: seq<byte>, at: nat, x: byte, y: byte, z: byte) {
    at + 3 <= |b| && b[at] == x && b[at + 1] == y && b[at + 2] == z
  }

  predicate IsWebp(b: seq<byte>) {
    && StartsWith(b, 0, 0x52, 0x49, 0x46) && 4 <= |b| && b[3] == 0x46
    && StartsWith(b, 8, 0x57, 0x45, 0x42) && 12 <= |b| && b[11] == 0x50
  }

  /** The first bytes of a picture say what it is: JPEG, PNG, GIF and WebP are told apart, and nothing else. */
  lemma MimeFollowsBytes(b: seq<byte>)
    ensures StartsWith(b, 0, 0xff, 0xd8, 0xff) ==> CoverMime(b) == "image/jpeg"
    ensures StartsWith(b, 0, 0x89, 0x50, 0x4e) && 4 <= |b| && b[3] == 0x47 ==> CoverMime(b) == "image/png"
    ensures StartsWith(b, 0, 0x47, 0x49, 0x46) && 4 <= |b| && b[3] == 0x38 ==> CoverMime(b) == "image/gif"
    ensures IsWebp(b) ==> CoverMime(b) == "image/webp"
    ensures || StartsWith(b, 0, 0xff, 0xd8, 0xff) || (StartsWith(b, 0, 0x89, 0x50, 0x4e) && 4 <= |b| && b[3] == 0x47)
            || (StartsWith(b, 0, 0x47, 0x49, 0x46) && 4 <= |b| && b[3] == 0x38) || IsWebp(b)
            || CoverMime(b) == "application/octet-stream"
  {
    if 12 <= |b| {
      assert b[8..12] == [b[8], b[9], b[10], b[11]];
    }
    if 4 <= |b| {
      assert b[..4] == [b[0], b[1], b[2], b[3]];
    }
  }

  /** A fetch brings its own bytes, and none if there are more than 2 MiB of them. */
  lemma FetchBrings(bytes: seq<byte>)
    ensures FetchedCover(Some(bytes)).Some? <==> |bytes| <= 2_097_152
    ensures FetchedCover(Some(bytes)).Some? ==> FetchedCover(Some(bytes)).value == Cover(bytes, CoverMime(bytes))
    ensures FetchedCover(None).None?
  {
  }

  // ----- the cache of fetched covers -----

  datatype Cache = Cache(covers: map<string, Cover>, order: seq<string>)

  /** Makes room for one more, oldest first. */
  function Evicted(c: Cache): Cache {
    if COVER_CACHE_SIZE <= |c.order| && c.order != [] then Cache(c.covers - {c.order[0]}, c.order[1..]) else c
  }

  function CacheInsert(c: Cache, url: string, cover: Cover): Cache {
    if url in c.covers then c
    else
      var room := Evicted(c);
      Cache(room.covers[url := cover], room.order + [url])
  }

  /** Each held url is queued for eviction once, and there are never more than the cache is meant to hold. */
  ghost predicate ValidCache(c: Cache) {
    && (forall u :: u in c.covers <==> u in c.order)
    && (forall i, j :: 0 <= i < j < |c.order| ==> c.order[i] != c.order[j])
    && |c.order| <= COVER_CACHE_SIZE
  }

  lemma EvictedKeepsCache(c: Cache)
    requires ValidCache(c)
    ensures ValidCache(Evicted(c)) && |Evicted(c).order| < COVER_CACHE_SIZE
    ensures forall u :: u in Evicted(c).covers ==> u in c.covers && Evicted(c).covers[u] == c.covers[u]
  {
    if COVER_CACHE_SIZE <= |c.order| {
      var oldest, rest := c.order[0], c.order[1..];
      assert c.order == [oldest] + rest && oldest !in rest;
    }
  }

  lemma InsertKeepsCache(c: Cache, url: string, cover: Cover)
    requires ValidCache(c)
    ensures ValidCache(CacheInsert(c, url, cover))
    ensures forall u :: u in CacheInsert(c, url, cover).covers && u != url ==>
              u in c.covers && CacheInsert(c, url, cover).covers[u] == c.covers[u]
    ensures url in CacheInsert(c, url, cover).covers
    ensures url in c.covers || CacheInsert(c, url, cover).covers[url] == cover
  {
    EvictedKeepsCache(c);
  }

  // ----- playback -----

  datatype Playback = Playback(isPlaying: bool, positionMs: nat, measuredAt: Time)

  function Min(a: nat, b: nat): nat {
    if a <= b then a else b
  }

  /** The position an observer counts up to from the last report, in 32 bits that do not wrap. */
  function Counted(p: Playback, now: Time): nat {
    if p.isPlaying then Min(U32_MAX, p.positionMs + if p.measuredAt <= now then now - p.measuredAt else 0)
    else p.positionMs
  }

  /** The position as it is reported: while playing, never past the end of a track whose length is known. */
  function PositionAt(p: Playback, durationMs: nat, now: Time): nat {
    if p.isPlaying && 0 < durationMs then Min(Counted(p, now), durationMs) else Counted(p, now)
  }

  // ----- the published state and the lines that report it -----

  datatype Source = Spotify | Airplay

  datatype Published = Published(
    track: Track,
    volume: nat,
    playback: Playback,
    cover: Option<Cover>,
    coverUrl: Option<string>,
    cache: Cache,
    source: Source,
    airplayConnection: Option<nat>)

  function Initially(now: Time): Published {
    Published(NO_TRACK, 0, Playback(false, 0, now), None, None, Cache(map[], []), Spotify, None)
  }

  datatype Line =
    | SnapshotLine(isPlaying: bool, positionMs: nat, volume: nat, track: Track)
    | TrackLine(track: Track)
    | PlaybackLine(isPlaying: bool, positionMs: nat)
    | VolumeLine(volume: nat)
    | CoverLine(cover: Cover)
    | VolumeAnswer(volume: nat)
    | TrackAnswer(track: Track)

  function Snapshot(p: Published, now: Time): Line {
    SnapshotLine(p.playback.isPlaying, PositionAt(p.playback, p.track.durationMs, now), p.volume, p.track)
  }

  // ----- events -----

  datatype PlayerEvent =
    | TrackChanged(item: AudioItem)
    | Playing(positionMs: nat)
    | Paused(positionMs: nat)
    | Stopped
    | Moved(positionMs: nat) // a seek, a position correction, or loading
    | VolumeChanged(volume: nat)
    | SessionDisconnected
    | Unreported

  datatype AirplayEvent =
    | AirPlayback(connection: nat, isPlaying: bool, positionMs: nat)
    | AirTrack(connection: nat, title: string, artist: string, album: string, albumArtist: string, durationMs: nat,
               cover: Option<Cover>)
    | AirCover(connection: nat, picture: Cover)
    | AirProgress(connection: nat, positionMs: nat, durationMs: nat)
    | AirVolume(connection: nat, volume: nat)
    | AirEnded(connection: nat)
    | AirOther(connection: nat) // a session starting, or its remote control becoming available

  datatype Event =
    | Player(player: PlayerEvent)
    | Air(air: AirplayEvent)
    | Fetched(url: string, body: Option<seq<byte>>)

  datatype Change = Change(state: Published, lines: seq<Line>)

  /** What this AirPlay session reports is published. */
  predicate OnAir(p: Published, connection: nat) {
    p.source == Airplay && p.airplayConnection == Some(connection)
  }

  function UpdatePlayback(p: Published, isPlaying: Option<bool>, positionMs: nat, now: Time): Change {
    var playing := if isPlaying.Some? then isPlaying.value else p.playback.isPlaying;
    Change(p.(playback := Playback(playing, positionMs, now)), [PlaybackLine(playing, positionMs)])
  }

  function ClearNowPlaying(p: Published, now: Time): Change {
    Change(p.(track := NO_TRACK, cover := None, coverUrl := None, playback := Playback(false, 0, now)),
           [TrackLine(NO_TRACK), PlaybackLine(false, 0)])
  }

  /** The new track goes out at once; its cover follows if it is held already. */
  function ChangeTrack(p: Published, track: Track, url: Option<string>): Change {
    var held := if url.Some? && url.value in p.cache.covers then Some(p.cache.covers[url.value]) else None;
    Change(p.(track := track, cover := held, coverUrl := url),
           [TrackLine(track)] + if held.Some? then [CoverLine(held.value)] else [])
  }

  function AirTrackOf(title: string, artist: string, album: string, albumArtist: string, durationMs: nat): Track {
    Track(title, "", [artist], "", "airplay", album, if albumArtist == "" then [] else [albumArtist], durationMs,
          false, "airplay")
  }

  function OnPlayer(p: Published, e: PlayerEvent, now: Time): Change {
    match e
    case TrackChanged(item) =>
      var image := CoverToShip(item.covers);
      ChangeTrack(p, ToTrack(item), if image.Some? then Some(image.value.url) else None)
    case Playing(positionMs) => UpdatePlayback(p.(source := Spotify), Some(true), positionMs, now)
    case Paused(positionMs) => UpdatePlayback(p, Some(false), positionMs, now)
    case Stopped => UpdatePlayback(p, Some(false), 0, now)
    case Moved(positionMs) => UpdatePlayback(p, None, positionMs, now)
    case VolumeChanged(volume) => Change(p.(volume := volume), [VolumeLine(volume)])
    case SessionDisconnected => if p.source == Spotify then ClearNowPlaying(p, now) else Change(p, [])
    case Unreported => Change(p, [])
  }

  /** The changes only the session on the air can make. */
  function FromOnAir(p: Published, e: AirplayEvent, now: Time): Change {
    match e
    case AirPlayback(_, isPlaying, positionMs) => UpdatePlayback(p, Some(isPlaying), positionMs, now)
    case AirTrack(_, title, artist, album, albumArtist, durationMs, cover) =>
      var track := AirTrackOf(title, artist, album, albumArtist, durationMs);
      Change(p.(track := track, cover := cover, coverUrl := None),
             [TrackLine(track)] + if cover.Some? then [CoverLine(cover.value)] else [])
    case AirCover(_, picture) =>
      if MAX_COVER_BYTES < |picture.bytes| then Change(p, [])
      else Change(p.(cover := Some(picture)), [CoverLine(picture)])
    case AirProgress(_, positionMs, durationMs) =>
      var filled := if Fills(p, durationMs) then p.(track := p.track.(durationMs := durationMs)) else p;
      UpdatePlayback(filled, None, positionMs, now)
    case AirVolume(_, volume) => Change(p.(volume := volume), [VolumeLine(volume)])
    case AirEnded(_) => ClearNowPlaying(p.(airplayConnection := None), now)
    case AirOther(_) => Change(p, [])
  }

  function OnAirplay(p: Published, e: AirplayEvent, now: Time): Change {
    if e.AirPlayback? && e.isPlaying then
      FromOnAir(p.(source := Airplay, airplayConnection := Some(e.connection)), e, now)
    else if OnAir(p, e.connection) then FromOnAir(p, e, now)
    else if e.AirEnded? && p.airplayConnection == Some(e.connection) then Change(p.(airplayConnection := None), [])
    else Change(p, [])
  }

  /** A progress report supplies a length the track came without. */
  predicate Fills(p: Published, durationMs: nat) {
    p.track.durationMs == 0 && durationMs != 0
  }

  function OnFetched(p: Published, url: string, body: Option<seq<byte>>): Change {
    match FetchedCover(body)
    case None => Change(p, [])
    case Some(cover) =>
      var q := p.(cache := CacheInsert(p.cache, url, cover));
      if p.coverUrl == Some(url) then Change(q.(cover := Some(cover)), [CoverLine(cover)]) else Change(q, [])
  }

  /** What an event makes of the published state, and the lines every subscriber is sent for it, in order. */
  function Publish(p: Published, e: Event, now: Time): Change {
    match e
    case Player(player) => OnPlayer(p, player, now)
    case Air(air) => OnAirplay(p, air, now)
    case Fetched(url, body) => OnFetched(p, url, body)
  }

  // ----- a client that only listens -----

  /**
   * What a client's clock is worth. A snapshot never places the player past the end of the track, so one that stands
   * there may have been held back: it is good for as long as that track is shown, and may lag once another one is.
   */
  datatype Clock = Exact | AtEnd | Lagging

  /** What a client makes of the lines it is sent. */
  datatype View = View(track: Track, volume: nat, playback: Playback, cover: Option<Cover>, clock: Clock)

  const BLANK: View := View(NO_TRACK, 0, Playback(false, 0, 0), None, Exact)

  function SnapshotClock(isPlaying: bool, positionMs: nat, durationMs: nat): Clock {
    if isPlaying && 0 < durationMs && positionMs == durationMs then AtEnd else Exact
  }

  function Hear(v: View, line: Line, at: Time): View {
    match line
    case SnapshotLine(isPlaying, positionMs, volume, track) =>
      View(track, volume, Playback(isPlaying, positionMs, at), v.cover, SnapshotClock(isPlaying, positionMs, track.durationMs))
    case TrackLine(track) => v.(track := track, cover := None, clock := if v.clock.Exact? then Exact else Lagging)
    case PlaybackLine(isPlaying, positionMs) => v.(playback := Playback(isPlaying, positionMs, at), clock := Exact)
    case VolumeLine(volume) => v.(volume := volume)
    case CoverLine(cover) => v.(cover := Some(cover))
    case VolumeAnswer(_) => v
    case TrackAnswer(_) => v
  }

  function HearAll(v: View, lines: seq<Line>, at: Time): View {
    if lines == [] then v else Hear(HearAll(v, lines[..|lines| - 1], at), lines[|lines| - 1], at)
  }

  /** The track as the client has it is the published one, short at most of a length that came with no event. */
  ghost predicate SameTrack(heard: Track, track: Track) {
    heard == track || (heard.durationMs == 0 && heard == track.(durationMs := 0))
  }

  /** From `now` on, both count up alike. */
  ghost predicate SameClock(a: Playback, b: Playback, now: Time) {
    a.isPlaying == b.isPlaying && forall t :: now <= t ==> Counted(a, t) == Counted(b, t)
  }

  /** From `now` on, both report the same positions. */
  ghost predicate SamePositions(v: View, p: Published, now: Time) {
    forall t :: now <= t ==>
      PositionAt(v.playback, v.track.durationMs, t) == PositionAt(p.playback, p.track.durationMs, t)
  }

  /** From `now` on, the first never counts ahead of the second. */
  ghost predicate NeverAhead(a: Playback, b: Playback, now: Time) {
    forall t :: now <= t ==> Counted(a, t) <= Counted(b, t)
  }

  ghost predicate ClockHolds(v: View, p: Published, now: Time) {
    match v.clock
    case Exact => SameClock(v.playback, p.playback, now)
    case AtEnd => 0 < v.track.durationMs && SamePositions(v, p, now) && NeverAhead(v.playback, p.playback, now)
    case Lagging => NeverAhead(v.playback, p.playback, now)
  }

  /** The client's view is the published state. */
  ghost predicate Shows(v: View, p: Published, now: Time) {
    && SameTrack(v.track, p.track)
    && v.volume == p.volume
    && v.cover == p.cover
    && v.playback.isPlaying == p.playback.isPlaying
    && ClockHolds(v, p, now)
  }

  ghost predicate Keeps(v: View, c: Change, now: Time) {
    Shows(HearAll(v, c.lines, now), c.state, now)
  }

  lemma UpdateKeeps(v: View, p: Published, isPlaying: Option<bool>, positionMs: nat, now: Time)
    requires Shows(v, p, now) || (SameTrack(v.track, p.track) && v.volume == p.volume && v.cover == p.cover
                                  && v.playback.isPlaying == p.playback.isPlaying)
    ensures Keeps(v, UpdatePlayback(p, isPlaying, positionMs, now), now)
  {
    HearTwo(v, UpdatePlayback(p, isPlaying, positionMs, now).lines, now);
  }

  lemma ClearKeeps(v: View, p: Published, now: Time)
    requires Shows(v, p, now)
    ensures Keeps(v, ClearNowPlaying(p, now), now)
  {
    HearTwo(v, ClearNowPlaying(p, now).lines, now);
  }

  /** A track line clears the picture, so a cover that goes with the new track has to follow it. */
  lemma NewTrackKeeps(v: View, p: Published, track: Track, cover: Option<Cover>, url: Option<string>, now: Time)
    requires Shows(v, p, now)
    ensures Keeps(v, Change(p.(track := track, cover := cover, coverUrl := url),
                            [TrackLine(track)] + if cover.Some? then [CoverLine(cover.value)] else []), now)
  {
    HearTwo(v, [TrackLine(track)] + if cover.Some? then [CoverLine(cover.value)] else [], now);
  }

  lemma CoverKeeps(v: View, p: Published, cover: Cover, now: Time)
    requires Shows(v, p, now)
    ensures Keeps(v, Change(p.(cover := Some(cover)), [CoverLine(cover)]), now)
  {
    HearTwo(v, [CoverLine(cover)], now);
  }

  lemma VolumeKeeps(v: View, p: Published, volume: nat, now: Time)
    requires Shows(v, p, now)
    ensures Keeps(v, Change(p.(volume := volume), [VolumeLine(volume)]), now)
  {
    HearTwo(v, [VolumeLine(volume)], now);
  }

  lemma OnPlayerKeeps(v: View, p: Published, e: PlayerEvent, now: Time)
    requires Shows(v, p, now)
    ensures Keeps(v, OnPlayer(p, e, now), now)
  {
    match e
    case TrackChanged(item) =>
      var image := CoverToShip(item.covers);
      var url := if image.Some? then Some(image.value.url) else None;
      NewTrackKeeps(v, p, ToTrack(item), ChangeTrack(p, ToTrack(item), url).state.cover, url, now);
    case Playing(positionMs) => UpdateKeeps(v, p.(source := Spotify), Some(true), positionMs, now);
    case Paused(positionMs) => UpdateKeeps(v, p, Some(false), positionMs, now);
    case Stopped => UpdateKeeps(v, p, Some(false), 0, now);
    case Moved(positionMs) => UpdateKeeps(v, p, None, positionMs, now);
    case VolumeChanged(volume) => VolumeKeeps(v, p, volume, now);
    case SessionDisconnected => ClearKeeps(v, p, now);
    case Unreported =>
  }

  lemma FromOnAirKeeps(v: View, p: Published, e: AirplayEvent, now: Time)
    requires Shows(v, p, now)
    ensures Keeps(v, FromOnAir(p, e, now), now)
  {
    match e
    case AirPlayback(_, isPlaying, positionMs) => UpdateKeeps(v, p, Some(isPlaying), positionMs, now);
    case AirTrack(_, title, artist, album, albumArtist, durationMs, cover) =>
      NewTrackKeeps(v, p, AirTrackOf(title, artist, album, albumArtist, durationMs), cover, None, now);
    case AirCover(_, picture) => CoverKeeps(v, p, picture, now);
    case AirProgress(_, positionMs, durationMs) =>
      var filled := if Fills(p, durationMs) then p.(track := p.track.(durationMs := durationMs)) else p;
      UpdateKeeps(v, filled, None, positionMs, now);
    case AirVolume(_, volume) => VolumeKeeps(v, p, volume, now);
    case AirEnded(_) => ClearKeeps(v, p.(airplayConnection := None), now);
    case AirOther(_) =>
  }

  /** Every event keeps every client's view true: the lines it pushes say all that it changed. */
  lemma PublishKeepsViews(v: View, p: Published, e: Event, now: Time)
    requires Shows(v, p, now)
    ensures Keeps(v, Publish(p, e, now), now)
  {
    match e
    case Player(player) => OnPlayerKeeps(v, p, player, now);
    case Air(air) =>
      FromOnAirKeeps(v, p, air, now);
      FromOnAirKeeps(v, p.(source := Airplay, airplayConnection := Some(air.connection)), air, now);
    case Fetched(url, body) =>
      var cover := FetchedCover(body);
      if cover.Some? {
        CoverKeeps(v, p.(cache := CacheInsert(p.cache, url, cover.value)), cover.value, now);
      }
  }

  lemma HearTwo(v: View, lines: seq<Line>, at: Time)
    ensures |lines| == 1 ==> HearAll(v, lines, at) == Hear(v, lines[0], at)
    ensures |lines| == 2 ==> HearAll(v, lines, at) == Hear(Hear(v, lines[0], at), lines[1], at)
  {
    if |lines| == 2 {
      assert lines[..1] == [lines[0]];
    }
  }

  /** A snapshot says everything but the cover. */
  lemma SnapshotShows(v: View, p: Published, now: Time)
    requires v.cover == p.cover && p.playback.measuredAt <= now
    ensures Shows(Hear(v, Snapshot(p, now), now), p, now)
  {
  }

  /** A clock that does not lag and the right length are all it takes to know the position at any later time. */
  lemma ViewKnowsPosition(v: View, p: Published, now: Time)
    requires Shows(v, p, now) && !v.clock.Lagging? && v.track.durationMs == p.track.durationMs
    ensures SamePositions(v, p, now)
  {
  }

  // ----- the two exceptions, exactly -----

  /** A progress report of the session on the air that supplies a length the track came without. */
  predicate FillsLength(p: Published, e: Event) {
    e.Air? && e.air.AirProgress? && OnAir(p, e.air.connection) && Fills(p, e.air.durationMs)
  }

  /** Events after which another track, or none, is published. */
  predicate ReplacesTrack(p: Published, e: Event) {
    match e
    case Player(player) => player.TrackChanged? || (player.SessionDisconnected? && p.source == Spotify)
    case Air(air) => (air.AirTrack? || air.AirEnded?) && OnAir(p, air.connection)
    case Fetched(_, _) => false
  }

  /** A client has the very track that is published exactly if it is told it anew, or had it and no length was filled in. */
  lemma TrackExactUnlessFilled(v: View, p: Published, e: Event, now: Time)
    requires Shows(v, p, now)
    ensures HearAll(v, Publish(p, e, now).lines, now).track == Publish(p, e, now).state.track <==>
            ReplacesTrack(p, e) || (v.track == p.track && !FillsLength(p, e))
  {
    match e
    case Player(player) => HeardTrack(v, OnPlayer(p, player, now).lines, now);
    case Air(air) => HeardTrack(v, OnAirplay(p, air, now).lines, now);
    case Fetched(url, body) => HeardTrack(v, OnFetched(p, url, body).lines, now);
  }

  /** A track line comes first, if there is one. */
  lemma HeardTrack(v: View, lines: seq<Line>, at: Time)
    requires |lines| <= 2 && (forall i :: 0 <= i < |lines| ==> !lines[i].SnapshotLine?)
    requires |lines| == 2 ==> !lines[1].TrackLine?
    ensures HearAll(v, lines, at).track == if lines != [] && lines[0].TrackLine? then lines[0].track else v.track
  {
    HearTwo(v, lines, at);
  }

  /** A snapshot sets the client's clock right for good, whatever track comes next, unless it was held back at the end. */
  lemma SnapshotClockExactly(v: View, p: Published, now: Time)
    requires p.playback.measuredAt <= now
    ensures SameClock(Hear(v, Snapshot(p, now), now).playback, p.playback, now) <==>
            !(p.playback.isPlaying && 0 < p.track.durationMs < Counted(p.playback, now))
  {
    var clock := Hear(v, Snapshot(p, now), now).playback;
    if p.playback.isPlaying && 0 < p.track.durationMs < Counted(p.playback, now) {
      assert Counted(clock, now) != Counted(p.playback, now);
    }
  }

  // ----- sizes -----

  predicate Fits(cover: Option<Cover>) {
    cover.Some? ==> |cover.value.bytes| <= MAX_COVER_BYTES
  }

  ghost predicate CachedFit(p: Published) {
    forall u :: u in p.cache.covers ==> Fits(Some(p.cache.covers[u]))
  }

  /** A picture of the session on the air that is small enough to be taken. */
  predicate TakesPicture(p: Published, e: Event) {
    e.Air? && e.air.AirCover? && OnAir(p, e.air.connection) && |e.air.picture.bytes| <= MAX_COVER_BYTES
  }

  /** Events that decide anew which cover is shown, if any. */
  predicate SetsCover(p: Published, e: Event) {
    || ReplacesTrack(p, e) || TakesPicture(p, e)
    || (e.Fetched? && FetchedCover(e.body).Some? && p.coverUrl == Some(e.url))
  }

  /** A track of the session on the air that brings along a cover past the limit. */
  predicate InlineOversized(p: Published, e: Event) {
    e.Air? && e.air.AirTrack? && OnAir(p, e.air.connection) && !Fits(e.air.cover)
  }

  /** That is the one way past the limit, for the cover that is held as for the covers that are sent. */
  lemma OversizedExactlyInline(p: Published, e: Event, now: Time)
    requires CachedFit(p)
    ensures Fits(Publish(p, e, now).state.cover) <==> if SetsCover(p, e) then !InlineOversized(p, e) else Fits(p.cover)
    ensures InlineOversized(p, e) ==> SetsCover(p, e)
    ensures (forall i :: 0 <= i < |Publish(p, e, now).lines| && Publish(p, e, now).lines[i].CoverLine? ==>
               Fits(Some(Publish(p, e, now).lines[i].cover))) <==> !InlineOversized(p, e)
  {
    var lines := Publish(p, e, now).lines;
    if InlineOversized(p, e) {
      assert lines[1] == CoverLine(e.air.cover.value);
    }
  }

  // ----- sessions that are not on the air -----

  /** Anything but a start from an AirPlay session that is not on the air changes nothing that is reported. */
  lemma OffAirIsSilent(p: Published, e: AirplayEvent, now: Time)
    requires !OnAir(p, e.connection) && !(e.AirPlayback? && e.isPlaying)
    ensures var c := Publish(p, Air(e), now);
            c.lines == [] && c.state == p.(airplayConnection := c.state.airplayConnection)
  {
  }
}
