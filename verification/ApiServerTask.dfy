/** The server task itself, `src/server.rs`: handlers that change fields and queue lines as they go. */
module ApiServerTasks {
  import opened Wrappers
  import opened NowPlaying
  import opened ApiServer

  /** A change takes effect and its lines go out. */
  ghost function Applied(st: State, change: Change, now: Time): State {
    BroadcastAll(st.(published := change.state), Stamped(change.lines, now))
  }

  // ----- broadcasting does not depend on what is published -----

  lemma BroadcastElsewhere(st: State, p: Published, e: Entry)
    ensures Broadcast(st.(published := p), e) == Broadcast(st, e).(published := p)
  {
    assert Subscribers(st.(published := p)) == Subscribers(st);
  }

  lemma AppliedNone(st: State, p: Published, now: Time)
    ensures Applied(st, Change(p, []), now) == st.(published := p)
  {
  }

  /** The state changes first, then its one line goes out. */
  lemma AnnounceChange(st: State, p: Published, line: Line, now: Time)
    ensures Broadcast(st.(published := p), Entry(line, now)) == Applied(st, Change(p, [line]), now)
  {
    var e, q := Entry(line, now), st.(published := p);
    assert Stamped([line], now) == [e] && [e][..0] == [];
    assert BroadcastAll(q, [e]) == Broadcast(BroadcastAll(q, []), e);
  }

  lemma {:induction false} BroadcastAllElsewhere(st: State, p: Published, entries: seq<Entry>)
    ensures BroadcastAll(st.(published := p), entries) == BroadcastAll(st, entries).(published := p)
    decreases |entries|
  {
    if entries == [] {
    } else {
      var init := entries[..|entries| - 1];
      BroadcastAllElsewhere(st, p, init);
      BroadcastElsewhere(BroadcastAll(st, init), p, entries[|entries| - 1]);
    }
  }

  lemma {:induction false} BroadcastAllConcat(st: State, a: seq<Entry>, b: seq<Entry>)
    ensures BroadcastAll(BroadcastAll(st, a), b) == BroadcastAll(st, a + b)
    decreases |b|
  {
    if b == [] {
      assert a + b == a;
    } else {
      BroadcastAllConcat(st, a, b[..|b| - 1]);
      assert (a + b)[..|a + b| - 1] == a + b[..|b| - 1];
    }
  }

  lemma AppliedPublishes(st: State, change: Change, now: Time)
    ensures Applied(st, change, now).published == change.state
  {
    BroadcastAllElsewhere(st, change.state, Stamped(change.lines, now));
  }

  /** Two changes in a row are one change with all the lines. */
  lemma AppliedThen(st: State, a: Change, b: Change, now: Time)
    ensures Applied(Applied(st, a, now), b, now) == Applied(st, Change(b.state, a.lines + b.lines), now)
  {
    var ea, eb := Stamped(a.lines, now), Stamped(b.lines, now);
    assert Stamped(a.lines + b.lines, now) == ea + eb;
    BroadcastAllElsewhere(st, a.state, ea);
    BroadcastAllElsewhere(st, b.state, ea);
    BroadcastAllConcat(st.(published := b.state), ea, eb);
  }

  /** What was published before does not matter once it is replaced. */
  lemma AppliedAnew(st: State, p: Published, change: Change, now: Time)
    ensures Applied(st.(published := p), change, now) == Applied(st, change, now)
  {
  }

  lemma SendOne(st: State, id: nat, line: Line, now: Time)
    ensures SendAll(st, id, Stamped([line], now)) == SendLine(st, id, Entry(line, now))
  {
    var e := Entry(line, now);
    assert Stamped([line], now) == [e] && [e][..0] == [];
    assert SendAll(st, id, [e]) == SendLine(SendAll(st, id, []), id, e);
  }

  lemma SendTwo(st: State, id: nat, a: Line, b: Line, now: Time)
    ensures SendAll(st, id, Stamped([a] + [b], now)) == SendLine(SendLine(st, id, Entry(a, now)), id, Entry(b, now))
  {
    var ea, eb := Entry(a, now), Entry(b, now);
    assert Stamped([a] + [b], now) == [ea, eb] && [ea, eb][..1] == [ea];
    assert Stamped([a], now) == [ea];
    SendOne(st, id, a, now);
  }

  lemma NobodyListens(st: State, e: Entry)
    requires Subscribers(st) == {}
    ensures Broadcast(st, e) == st
  {
    assert forall id :: id in st.connections ==> id in Broadcast(st, e).connections;
    assert Broadcast(st, e).connections == st.connections;
    assert Broadcast(st, e).gone == st.gone;
  }

  /** One connection after another comes to the same as all at once. */
  lemma BroadcastOneMore(st: State, ids: set<nat>, id: nat, e: Entry)
    requires id in st.connections && id !in ids
    ensures SendLine(BroadcastTo(st, ids, e), id, e) == BroadcastTo(st, ids + {id}, e)
  {
    var a, b := SendLine(BroadcastTo(st, ids, e), id, e), BroadcastTo(st, ids + {id}, e);
    assert BroadcastTo(st, ids, e).connections[id] == st.connections[id];
    assert a.connections.Keys == b.connections.Keys;
    assert a.connections == b.connections;
    GoneOneMore(st, ids, id, e);
  }

  lemma GoneOneMore(st: State, ids: set<nat>, id: nat, e: Entry)
    requires id in st.connections && id !in ids
    ensures SendLine(BroadcastTo(st, ids, e), id, e).gone == BroadcastTo(st, ids + {id}, e).gone
  {
    assert BroadcastTo(st, ids, e).connections[id] == st.connections[id];
  }

  class CoverCache {
    var covers: map<string, Cover>
    var order: seq<string>

    ghost function Model(): Cache
      reads this
    {
      Cache(covers, order)
    }

    constructor ()
      ensures Model() == Cache(map[], [])
    {
      covers, order := map[], [];
    }

    method Get(url: string) returns (r: Option<Cover>)
      ensures r == if url in covers then Some(covers[url]) else None
    {
      r := if url in covers then Some(covers[url]) else None;
    }

    method Insert(url: string, cover: Cover)
      modifies this
      ensures Model() == CacheInsert(old(Model()), url, cover)
    {
      if url in covers {
        return;
      }
      if COVER_CACHE_SIZE <= |order| {
        if order != [] {
          covers := covers - {order[0]};
          order := order[1..];
        }
      }
      order := order + [url];
      covers := covers[url := cover];
    }
  }

  class ApiServerTask {
    var connections: map<nat, Connection>
    var nextConnectionId: nat
    var currentTrack: Track
    var currentVolume: nat
    var playback: Playback
    const covers: CoverCache
    var currentCover: Option<Cover>
    var currentCoverUrl: Option<string>
    var activeSource: Source
    var airplayConnection: Option<nat>
    /** History: the connections that were dropped. */
    ghost var gone: map<nat, Connection>

    ghost function Shown(): Published
      reads this, covers
    {
      Published(currentTrack, currentVolume, playback, currentCover, currentCoverUrl, covers.Model(), activeSource,
                airplayConnection)
    }

    ghost function Model(): State
      reads this, covers
    {
      State(Shown(), connections, nextConnectionId, gone)
    }

    constructor (now: Time)
      ensures fresh(covers) && Model() == State(Initially(now), map[], 0, map[])
    {
      connections, nextConnectionId, gone := map[], 0, map[];
      currentTrack, currentVolume, playback := NO_TRACK, 0, Playback(false, 0, now);
      covers := new CoverCache();
      currentCover, currentCoverUrl := None, None;
      activeSource, airplayConnection := Spotify, None;
    }

    // ----- connections -----

    method Admit(allowed: bool) returns (id: Option<nat>)
      modifies this
      ensures Model() == Step(old(Model()), Timely(Connect(allowed), 0))
      ensures id == if allowed then Some(old(nextConnectionId)) else None
    {
      if !allowed {
        return None;
      }
      id := Some(nextConnectionId);
      connections := connections[nextConnectionId := NEWCOMER];
      nextConnectionId := nextConnectionId + 1;
    }

    method DropConnection(id: nat)
      modifies this`connections, this`gone
      ensures Model() == Disconnect(old(Model()), id)
    {
      if id in connections {
        gone := gone[id := connections[id]];
        connections := connections - {id};
      }
    }

    method Send(line: Line, id: nat, now: Time)
      modifies this`connections, this`gone
      ensures Model() == SendLine(old(Model()), id, Entry(line, now))
    {
      if id !in connections {
        return;
      }
      var connection := connections[id];
      if connection.open && |connection.queue| < CONNECTION_QUEUE {
        connections := connections[id := connection.(queue := connection.queue + [Entry(line, now)])];
        return;
      }
      DropConnection(id);
    }

    /** To every subscribed connection, in whatever order the table yields them. */
    method BroadcastLine(line: Line, now: Time)
      modifies this`connections, this`gone
      ensures Model() == Broadcast(old(Model()), Entry(line, now))
    {
      var subscribed := set id | id in connections && connections[id].subscribed;
      var pending := subscribed;
      ghost var e := Entry(line, now);
      ghost var done: set<nat> := {};
      assert BroadcastTo(Model(), {}, e) == Model();
      while pending != {}
        invariant done + pending == subscribed && done !! pending
        invariant Model() == BroadcastTo(old(Model()), done, e)
        decreases pending
      {
        var id :| id in pending;
        BroadcastOneMore(old(Model()), done, id, e);
        Send(line, id, now);
        pending := pending - {id};
        done := done + {id};
      }
      assert done == Subscribers(old(Model()));
    }

    predicate HasSubscribers()
      reads this
    {
      exists id :: id in connections && connections[id].subscribed
    }

    // ----- announcing -----

    method AnnounceTrack(now: Time)
      modifies this`connections, this`gone
      ensures Model() == Broadcast(old(Model()), Entry(TrackLine(currentTrack), now))
    {
      BroadcastLine(TrackLine(currentTrack), now);
    }

    method AnnounceCover(cover: Cover, now: Time)
      modifies this`currentCover, this`connections, this`gone
      ensures Model() == Applied(old(Model()), Change(old(Shown()).(cover := Some(cover)), [CoverLine(cover)]), now)
    {
      currentCover := Some(cover);
      ghost var e := Entry(CoverLine(cover), now);
      AnnounceChange(old(Model()), Shown(), CoverLine(cover), now);
      if !HasSubscribers() {
        assert Subscribers(Model()) == {};
        NobodyListens(Model(), e);
        return;
      }
      BroadcastLine(CoverLine(cover), now);
    }

    method UpdatePlayback(isPlaying: Option<bool>, positionMs: nat, now: Time)
      modifies this`playback, this`connections, this`gone
      ensures Model() == Applied(old(Model()), NowPlaying.UpdatePlayback(old(Shown()), isPlaying, positionMs, now), now)
    {
      var playing := if isPlaying.Some? then isPlaying.value else playback.isPlaying;
      playback := Playback(playing, positionMs, now);
      AnnounceChange(old(Model()), Shown(), PlaybackLine(playing, positionMs), now);
      BroadcastLine(PlaybackLine(playback.isPlaying, positionMs), now);
    }

    method ClearNowPlaying(now: Time)
      modifies this
      ensures Model() == Applied(old(Model()), NowPlaying.ClearNowPlaying(old(Shown()), now), now)
    {
      currentTrack := NO_TRACK;
      currentCover := None;
      currentCoverUrl := None;
      ghost var cleared := Change(Shown(), [TrackLine(NO_TRACK)]);
      AnnounceChange(old(Model()), cleared.state, TrackLine(NO_TRACK), now);
      AnnounceTrack(now);
      ghost var stopped := NowPlaying.UpdatePlayback(Shown(), Some(false), 0, now);
      UpdatePlayback(Some(false), 0, now);
      AppliedThen(old(Model()), cleared, stopped, now);
      assert [TrackLine(NO_TRACK)] + [PlaybackLine(false, 0)] == [TrackLine(NO_TRACK), PlaybackLine(false, 0)];
    }

    /** Announces the new cover if it is at hand; a fetch of one that is not comes back as an event. */
    method LoadCover(url: Option<string>, now: Time)
      modifies this`currentCover, this`currentCoverUrl, this`connections, this`gone
      ensures var held := if url.Some? && url.value in covers.covers then Some(covers.covers[url.value]) else None;
              var p := old(Shown()).(cover := held, coverUrl := url);
              var lines := if held.Some? then [CoverLine(held.value)] else [];
              Shown() == p && Model() == Applied(old(Model()), Change(p, lines), now)
    {
      currentCover := None;
      currentCoverUrl := url;
      AppliedNone(old(Model()), Shown(), now);
      if url.None? {
        return;
      }
      var cover := covers.Get(url.value);
      if cover.Some? {
        assert [] + [CoverLine(cover.value)] == [CoverLine(cover.value)];
        ghost var p := Shown().(cover := cover);
        AnnounceCover(cover.value, now);
        AppliedThen(old(Model()), Change(p.(cover := None), []), Change(p, [CoverLine(cover.value)]), now);
        AppliedPublishes(old(Model()), Change(p, [CoverLine(cover.value)]), now);
      }
    }

    // ----- events -----

    method HandlePlayerEvent(event: PlayerEvent, now: Time)
      modifies this
      ensures Model() == Step(old(Model()), Timely(Happened(Player(event)), now))
    {
      match event {
        case TrackChanged(item) =>
          ChangeToItem(item, now);
        case Playing(positionMs) =>
          activeSource := Spotify;
          AppliedAnew(old(Model()), Shown(), NowPlaying.UpdatePlayback(Shown(), Some(true), positionMs, now), now);
          UpdatePlayback(Some(true), positionMs, now);
        case Paused(positionMs) =>
          UpdatePlayback(Some(false), positionMs, now);
        case Stopped =>
          UpdatePlayback(Some(false), 0, now);
        case Moved(positionMs) =>
          UpdatePlayback(None, positionMs, now);
        case VolumeChanged(volume) =>
          ChangeVolume(volume, now);
        case SessionDisconnected =>
          if activeSource != Spotify {
            return;
          }
          ClearNowPlaying(now);
        case Unreported =>
      }
    }

    method ChangeToItem(item: AudioItem, now: Time)
      modifies this
      ensures Model() == Step(old(Model()), Timely(Happened(Player(TrackChanged(item))), now))
    {
      var image := CoverToShip(item.covers);
      var url := if image.Some? then Some(image.value.url) else None;
      currentTrack := ToTrack(item);
      ghost var changed := Change(Shown(), [TrackLine(currentTrack)]);
      AnnounceChange(old(Model()), changed.state, TrackLine(currentTrack), now);
      AnnounceTrack(now);
      ghost var mid := Model();
      LoadCover(url, now);
      ghost var lines := if currentCover.Some? then [CoverLine(currentCover.value)] else [];
      assert Model() == Applied(mid, Change(Shown(), lines), now) by {
        AppliedPublishes(mid, Change(changed.state.(cover := currentCover, coverUrl := url), lines), now);
      }
      AppliedThen(old(Model()), changed, Change(Shown(), lines), now);
      assert Shown() == ChangeTrack(old(Shown()), ToTrack(item), url).state;
    }

    method ChangeVolume(volume: nat, now: Time)
      modifies this
      ensures Model() == Applied(old(Model()), Change(old(Shown()).(volume := volume), [VolumeLine(volume)]), now)
    {
      currentVolume := volume;
      AnnounceChange(old(Model()), Shown(), VolumeLine(volume), now);
      BroadcastLine(VolumeLine(volume), now);
    }

    predicate AirplayIsOnTheAir(connection: nat)
      reads this
    {
      activeSource == Airplay && airplayConnection == Some(connection)
    }

    method HandleAirplayEvent(event: AirplayEvent, now: Time)
      modifies this
      ensures Model() == Step(old(Model()), Timely(Happened(Air(event)), now))
    {
      match event {
        case AirPlayback(connection, isPlaying, positionMs) =>
          if isPlaying {
            activeSource := Airplay;
            airplayConnection := Some(connection);
          } else if !AirplayIsOnTheAir(connection) {
            return;
          }
          AppliedAnew(old(Model()), Shown(), NowPlaying.UpdatePlayback(Shown(), Some(isPlaying), positionMs, now), now);
          UpdatePlayback(Some(isPlaying), positionMs, now);
        case AirTrack(connection, title, artist, album, albumArtist, durationMs, cover) =>
          if !AirplayIsOnTheAir(connection) {
            return;
          }
          ChangeToAirTrack(AirTrackOf(title, artist, album, albumArtist, durationMs), cover, now);
        case AirCover(connection, picture) =>
          if !AirplayIsOnTheAir(connection) {
            return;
          }
          if |picture.bytes| > MAX_COVER_BYTES {
            return;
          }
          AnnounceCover(picture, now);
        case AirProgress(connection, positionMs, durationMs) =>
          if !AirplayIsOnTheAir(connection) {
            return;
          }
          if currentTrack.durationMs == 0 && durationMs != 0 {
            currentTrack := currentTrack.(durationMs := durationMs);
          }
          AppliedAnew(old(Model()), Shown(), NowPlaying.UpdatePlayback(Shown(), None, positionMs, now), now);
          UpdatePlayback(None, positionMs, now);
        case AirVolume(connection, volume) =>
          if !AirplayIsOnTheAir(connection) {
            return;
          }
          ChangeVolume(volume, now);
        case AirEnded(connection) =>
          if airplayConnection != Some(connection) {
            return;
          }
          var wasOnTheAir := AirplayIsOnTheAir(connection);
          airplayConnection := None;
          if wasOnTheAir {
            AppliedAnew(old(Model()), Shown(), NowPlaying.ClearNowPlaying(Shown(), now), now);
            ClearNowPlaying(now);
          }
        case AirOther(_) =>
      }
    }

    method ChangeToAirTrack(track: Track, cover: Option<Cover>, now: Time)
      modifies this
      ensures Model() == Applied(old(Model()),
                                 Change(old(Shown()).(track := track, cover := cover, coverUrl := None),
                                        [TrackLine(track)] + if cover.Some? then [CoverLine(cover.value)] else []), now)
    {
      currentCover := None;
      currentCoverUrl := None;
      currentTrack := track;
      ghost var changed := Change(Shown(), [TrackLine(track)]);
      AnnounceChange(old(Model()), changed.state, TrackLine(track), now);
      AnnounceTrack(now);
      if cover.Some? {
        ghost var mid := Model();
        AnnounceCover(cover.value, now);
        AppliedPublishes(mid, Change(changed.state.(cover := cover), [CoverLine(cover.value)]), now);
        AppliedThen(old(Model()), changed, Change(Shown(), [CoverLine(cover.value)]), now);
      } else {
        assert [TrackLine(track)] + [] == [TrackLine(track)];
      }
    }

    method HandleCover(url: string, body: Option<seq<byte>>, now: Time)
      modifies this, covers
      ensures Model() == Step(old(Model()), Timely(Happened(Fetched(url, body)), now))
    {
      var cover := FetchedCover(body);
      if cover.None? {
        return;
      }
      covers.Insert(url, cover.value);
      if currentCoverUrl != Some(url) {
        return;
      }
      AppliedAnew(old(Model()), Shown(), Change(Shown().(cover := cover), [CoverLine(cover.value)]), now);
      AnnounceCover(cover.value, now);
    }

    // ----- requests -----

    /** Says whether the connection was not subscribed already. */
    method MarkSubscribed(id: nat) returns (isNew: bool)
      modifies this`connections
      ensures isNew == (id in old(connections) && !old(connections)[id].subscribed)
      ensures connections == if id in old(connections)
                             then old(connections)[id := Marked(old(connections)[id], Subscribe)]
                             else old(connections)
    {
      if id !in connections || connections[id].subscribed {
        return false;
      }
      var connection := connections[id];
      connections := connections[id := connection.(subscribed := true, since := |connection.Log()|)];
      return true;
    }

    method HandleRequest(id: nat, request: Request, now: Time)
      modifies this`connections, this`gone
      ensures Model() == Step(old(Model()), Timely(Requested(id, request), now))
    {
      if id !in connections {
        return;
      }
      assert connections[id := connections[id]] == connections;
      match request {
        case GetVolume =>
          SendOne(old(Model()), id, VolumeAnswer(currentVolume), now);
          Send(VolumeAnswer(currentVolume), id, now);
        case CurrentTrack =>
          SendOne(old(Model()), id, TrackAnswer(currentTrack), now);
          Send(TrackAnswer(currentTrack), id, now);
        case Status =>
          SendOne(old(Model()), id, Snapshot(Shown(), now), now);
          Send(CurrentSnapshot(now), id, now);
        case Subscribe =>
          var isNew := MarkSubscribed(id);
          ghost var marked := Model();
          SendOne(marked, id, Snapshot(Shown(), now), now);
          Send(CurrentSnapshot(now), id, now);
          if isNew && currentCover.Some? {
            SendTwo(marked, id, Snapshot(Shown(), now), CoverLine(currentCover.value), now);
            Send(CoverLine(currentCover.value), id, now);
          }
        case Unsubscribe =>
          if connections[id].subscribed {
            connections := connections[id := connections[id].(subscribed := false)];
          }
        case Command =>
      }
    }

    function CurrentSnapshot(now: Time): Line
      reads this
    {
      SnapshotLine(playback.isPlaying, PositionAt(playback, currentTrack.durationMs, now), currentVolume, currentTrack)
    }

    // ----- the loop -----

    method Handle(t: Timely)
      modifies this, covers
      ensures Model() == Step(old(Model()), t)
    {
      match t.input {
        case Happened(event) =>
          match event {
            case Player(player) => HandlePlayerEvent(player, t.at);
            case Air(air) => HandleAirplayEvent(air, t.at);
            case Fetched(url, body) => HandleCover(url, body, t.at);
          }
        case Connect(allowed) =>
          var _ := Admit(allowed);
        case Requested(id, request) => HandleRequest(id, request, t.at);
        case ClosedBy(id) => DropConnection(id);
        case Drained(id) =>
          if id in connections {
            connections := connections[id := Drain(connections[id], t.at)];
          } else if id in gone {
            gone := gone[id := Drain(gone[id], t.at)];
          }
        case WriterEnded(id) =>
          if id in connections {
            connections := connections[id := connections[id].(open := false)];
          } else if id in gone {
            gone := gone[id := gone[id].(open := false)];
          }
      }
    }
  }

  /** The server's loop over any sequence of inputs is the run the theorems speak of. */
  method RunTask(start: Time, run: seq<Timely>) returns (task: ApiServerTask)
    ensures fresh(task) && task.Model() == Run(start, run)
  {
    task := new ApiServerTask(start);
    for i := 0 to |run|
      invariant fresh(task) && fresh(task.covers) && task.Model() == Run(start, run[..i])
    {
      assert run[..i + 1][..i] == run[..i];
      task.Handle(run[i]);
    }
    assert run[..|run|] == run;
  }
}
