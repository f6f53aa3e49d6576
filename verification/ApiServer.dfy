/**
 * The push protocol of the control API, `src/server.rs`: bounded queues, clients that come and go, and what each of
 * them is told, over every run.
 */
module ApiServer {
  import opened Wrappers
  import opened Histories
  import opened NowPlaying
  import opened NowPlayingRuns

  const CONNECTION_QUEUE: nat := 16

  // ----- connections -----

  /** A line and the time it was queued. */
  datatype Entry = Entry(line: Line, at: Time)

  /**
   * `queue` is what waits for the writer task, `open` whether that task still runs. The rest is history: what the
   * writer has taken and when, and where in the whole log the present subscription begins.
   */
  datatype Connection = Connection(
    taken: seq<Entry>,
    arrivals: seq<Time>,
    queue: seq<Entry>,
    open: bool,
    subscribed: bool,
    since: nat)
  {
    function Log(): seq<Entry> {
      taken + queue
    }

    predicate HasRoom() {
      open && |queue| < CONNECTION_QUEUE
    }

    function Push(e: Entry): Connection {
      this.(queue := queue + [e])
    }
  }

  const NEWCOMER: Connection := Connection([], [], [], true, false, 0)

  /** Where a client stands: never seen, registered, or dropped with the log it had. */
  datatype Place = Nowhere | Registered(c: Connection) | Gone(c: Connection)

  datatype State = State(published: Published, connections: map<nat, Connection>, nextId: nat, gone: map<nat, Connection>)

  function PlaceOf(st: State, id: nat): Place {
    if id in st.connections then Registered(st.connections[id])
    else if id in st.gone then Gone(st.gone[id])
    else Nowhere
  }

  function Disconnect(st: State, id: nat): State {
    if id in st.connections then
      st.(connections := st.connections - {id}, gone := st.gone[id := st.connections[id]])
    else st
  }

  /** A line for one connection, at the cost of the connection if there is no room for it. */
  function SendLine(st: State, id: nat, e: Entry): State {
    if id !in st.connections then st
    else if st.connections[id].HasRoom() then st.(connections := st.connections[id := st.connections[id].Push(e)])
    else Disconnect(st, id)
  }

  function SendAll(st: State, id: nat, entries: seq<Entry>): State {
    if entries == [] then st else SendLine(SendAll(st, id, entries[..|entries| - 1]), id, entries[|entries| - 1])
  }

  function Subscribers(st: State): set<nat> {
    set id | id in st.connections && st.connections[id].subscribed
  }

  /** The same line to each of a set of connections, all at once. */
  function BroadcastTo(st: State, ids: set<nat>, e: Entry): State {
    st.(connections := map id | id in st.connections && (id in ids ==> st.connections[id].HasRoom())
                         :: if id in ids then st.connections[id].Push(e) else st.connections[id],
        gone := st.gone + map id | id in st.connections && id in ids && !st.connections[id].HasRoom() :: st.connections[id])
  }

  function Broadcast(st: State, e: Entry): State {
    BroadcastTo(st, Subscribers(st), e)
  }

  function BroadcastAll(st: State, entries: seq<Entry>): State {
    if entries == [] then st else Broadcast(BroadcastAll(st, entries[..|entries| - 1]), entries[|entries| - 1])
  }

  // ----- requests -----

  /** `Command` is any request that only acts on a player: transport control and volume. */
  datatype Request = GetVolume | CurrentTrack | Status | Subscribe | Unsubscribe | Command

  /** The lines a request is answered with. */
  function Answers(p: Published, subscribed: bool, r: Request, now: Time): seq<Line> {
    match r
    case GetVolume => [VolumeAnswer(p.volume)]
    case CurrentTrack => [TrackAnswer(p.track)]
    case Status => [Snapshot(p, now)]
    case Subscribe => [Snapshot(p, now)] + if !subscribed && p.cover.Some? then [CoverLine(p.cover.value)] else []
    case Unsubscribe => []
    case Command => []
  }

  function Marked(c: Connection, r: Request): Connection {
    match r
    case Subscribe => if c.subscribed then c else c.(subscribed := true, since := |c.Log()|)
    case Unsubscribe => c.(subscribed := false)
    case _ => c
  }

  function Stamped(lines: seq<Line>, at: Time): seq<Entry> {
    seq(|lines|, i requires 0 <= i < |lines| => Entry(lines[i], at))
  }

  // ----- the loop -----

  datatype Input =
    | Happened(event: Event)
    | Connect(allowed: bool)
    | Requested(id: nat, request: Request)
    | ClosedBy(id: nat)
    | Drained(id: nat) // the writer task takes a line
    | WriterEnded(id: nat) // its socket is down

  datatype Timely = Timely(input: Input, at: Time)

  function Drain(c: Connection, at: Time): Connection {
    if c.open && c.queue != []
    then c.(taken := c.taken + [c.queue[0]], arrivals := c.arrivals + [at], queue := c.queue[1..])
    else c
  }

  function Step(st: State, t: Timely): State {
    match t.input
    case Happened(event) =>
      var change := Publish(st.published, event, t.at);
      BroadcastAll(st.(published := change.state), Stamped(change.lines, t.at))
    case Connect(allowed) =>
      if !allowed then st
      else st.(connections := st.connections[st.nextId := NEWCOMER], nextId := st.nextId + 1)
    case Requested(id, request) =>
      if id !in st.connections then st
      else
        var c := st.connections[id];
        SendAll(st.(connections := st.connections[id := Marked(c, request)]), id,
                Stamped(Answers(st.published, c.subscribed, request, t.at), t.at))
    case ClosedBy(id) => Disconnect(st, id)
    case Drained(id) =>
      if id in st.connections then st.(connections := st.connections[id := Drain(st.connections[id], t.at)])
      else if id in st.gone then st.(gone := st.gone[id := Drain(st.gone[id], t.at)])
      else st
    case WriterEnded(id) =>
      if id in st.connections then st.(connections := st.connections[id := st.connections[id].(open := false)])
      else if id in st.gone then st.(gone := st.gone[id := st.gone[id].(open := false)])
      else st
  }

  function Run(start: Time, run: seq<Timely>): State {
    if run == [] then State(Initially(start), map[], 0, map[])
    else Step(Run(start, run[..|run| - 1]), run[|run| - 1])
  }

  // ----- one client at a time -----

  function Offer(place: Place, e: Entry): Place {
    if !place.Registered? then place
    else if place.c.HasRoom() then Registered(place.c.Push(e))
    else Gone(place.c)
  }

  function OfferAll(place: Place, entries: seq<Entry>): Place {
    if entries == [] then place else Offer(OfferAll(place, entries[..|entries| - 1]), entries[|entries| - 1])
  }

  predicate Listens(place: Place) {
    place.Registered? && place.c.subscribed
  }

  /** No client is both registered and gone, and ids are never given out twice. */
  ghost predicate Tidy(st: State) {
    && (forall id :: id in st.connections ==> id !in st.gone && id < st.nextId)
    && (forall id :: id in st.gone ==> id < st.nextId)
  }

  /** Only the connections differ. */
  predicate SameBut(a: State, b: State) {
    a.published == b.published && a.nextId == b.nextId
  }

  lemma SendLineAt(st: State, id: nat, e: Entry, other: nat)
    requires Tidy(st)
    ensures Tidy(SendLine(st, id, e)) && SameBut(SendLine(st, id, e), st)
    ensures PlaceOf(SendLine(st, id, e), other) == if other == id then Offer(PlaceOf(st, id), e) else PlaceOf(st, other)
  {
  }

  lemma {:induction false} SendAllAt(st: State, id: nat, entries: seq<Entry>, other: nat)
    requires Tidy(st)
    ensures Tidy(SendAll(st, id, entries)) && SameBut(SendAll(st, id, entries), st)
    ensures PlaceOf(SendAll(st, id, entries), other)
         == if other == id then OfferAll(PlaceOf(st, id), entries) else PlaceOf(st, other)
    decreases |entries|
  {
    if entries == [] {
    } else {
      var init, last := entries[..|entries| - 1], entries[|entries| - 1];
      SendAllAt(st, id, init, other);
      SendAllAt(st, id, init, id);
      SendLineAt(SendAll(st, id, init), id, last, other);
    }
  }

  lemma BroadcastAt(st: State, e: Entry, id: nat)
    requires Tidy(st)
    ensures Tidy(Broadcast(st, e)) && SameBut(Broadcast(st, e), st)
    ensures PlaceOf(Broadcast(st, e), id) == if Listens(PlaceOf(st, id)) then Offer(PlaceOf(st, id), e) else PlaceOf(st, id)
  {
  }

  lemma {:induction false} OfferAllListens(place: Place, entries: seq<Entry>)
    requires Listens(place)
    ensures OfferAll(place, entries).Registered? ==> Listens(OfferAll(place, entries))
    decreases |entries|
  {
    if entries == [] {
    } else {
      OfferAllListens(place, entries[..|entries| - 1]);
    }
  }

  /** A broadcast reaches each subscriber as if it were the only one. */
  lemma {:induction false} BroadcastAllAt(st: State, entries: seq<Entry>, id: nat)
    requires Tidy(st)
    ensures Tidy(BroadcastAll(st, entries)) && SameBut(BroadcastAll(st, entries), st)
    ensures PlaceOf(BroadcastAll(st, entries), id)
         == if Listens(PlaceOf(st, id)) then OfferAll(PlaceOf(st, id), entries) else PlaceOf(st, id)
    decreases |entries|
  {
    if entries == [] {
    } else {
      var init := entries[..|entries| - 1];
      BroadcastAllAt(st, init, id);
      BroadcastAt(BroadcastAll(st, init), entries[|entries| - 1], id);
      if Listens(PlaceOf(st, id)) {
        OfferAllListens(PlaceOf(st, id), init);
      }
    }
  }

  /**
   * A connection stays exactly when its writer runs and its queue takes every line; then it has every line. If not,
   * it is dropped, with the first of the lines that fit and nothing after the one that did not.
   */
  lemma {:induction false} OfferAllExactly(c: Connection, entries: seq<Entry>)
    ensures var r := OfferAll(Registered(c), entries);
            && (r.Registered? <==> entries == [] || (c.open && |c.queue| + |entries| <= 16))
            && (r.Registered? ==> r.c == c.(queue := c.queue + entries))
            && (r.Gone? ==> exists k :: 0 <= k < |entries| && r.c == c.(queue := c.queue + entries[..k])
                                  && !r.c.HasRoom() && (k == 0 || |r.c.queue| <= CONNECTION_QUEUE))
            && !r.Nowhere?
    decreases |entries|
  {
    if entries == [] {
      assert c.queue + entries == c.queue;
    } else {
      var init, last := entries[..|entries| - 1], entries[|entries| - 1];
      OfferAllExactly(c, init);
      var r := OfferAll(Registered(c), init);
      if r.Registered? {
        assert c.queue + init + [last] == c.queue + entries;
        if !r.c.HasRoom() {
          assert entries[..|init|] == init;
        }
      } else {
        var k :| 0 <= k < |init| && r.c == c.(queue := c.queue + init[..k]) && !r.c.HasRoom()
                 && (k == 0 || |r.c.queue| <= CONNECTION_QUEUE);
        assert init[..k] == entries[..k];
      }
    }
  }

  // ----- what a subscriber makes of its log -----

  function HearLog(v: View, log: seq<Entry>): View {
    if log == [] then v else Hear(HearLog(v, log[..|log| - 1]), log[|log| - 1].line, log[|log| - 1].at)
  }

  lemma {:induction false} HearLogConcat(v: View, a: seq<Entry>, b: seq<Entry>)
    ensures HearLog(v, a + b) == HearLog(HearLog(v, a), b)
    decreases |b|
  {
    if b == [] {
      assert a + b == a;
    } else {
      HearLogConcat(v, a, b[..|b| - 1]);
      assert (a + b)[..|a + b| - 1] == a + b[..|b| - 1];
    }
  }

  lemma {:induction false} HearStamped(v: View, lines: seq<Line>, at: Time)
    ensures HearLog(v, Stamped(lines, at)) == HearAll(v, lines, at)
    decreases |lines|
  {
    if lines == [] {
    } else {
      HearStamped(v, lines[..|lines| - 1], at);
      var s := Stamped(lines, at);
      assert s[..|s| - 1] == Stamped(lines[..|lines| - 1], at);
    }
  }

  /** The view a connection's present subscription gives. */
  function ViewOf(c: Connection): View
    requires c.since <= |c.Log()|
  {
    HearLog(BLANK, c.Log()[c.since..])
  }

  /** A subscriber's log is the published state. */
  ghost predicate Current(place: Place, p: Published, now: Time) {
    Listens(place) ==> place.c.since <= |place.c.Log()| && Shows(ViewOf(place.c), p, now)
  }

  /** Lines a subscription has been sent go on from the view it had. */
  lemma ViewGrows(c: Connection, lines: seq<Line>, at: Time)
    requires c.since <= |c.Log()|
    ensures var d := c.(queue := c.queue + Stamped(lines, at));
            d.since <= |d.Log()| && ViewOf(d) == HearAll(ViewOf(c), lines, at)
  {
    var d := c.(queue := c.queue + Stamped(lines, at));
    assert d.Log()[d.since..] == c.Log()[c.since..] + Stamped(lines, at);
    HearLogConcat(BLANK, c.Log()[c.since..], Stamped(lines, at));
    HearStamped(ViewOf(c), lines, at);
  }

  /** An event keeps every subscriber current, or drops it. */
  lemma EventKeepsCurrent(place: Place, p: Published, e: Event, now: Time)
    requires Listens(place) && Current(place, p, now)
    ensures var change := Publish(p, e, now);
            Current(OfferAll(place, Stamped(change.lines, now)), change.state, now)
  {
    var change := Publish(p, e, now);
    OfferAllExactly(place.c, Stamped(change.lines, now));
    ViewGrows(place.c, change.lines, now);
    PublishKeepsViews(ViewOf(place.c), p, e, now);
  }

  /** A new subscription starts from nothing, and its first lines say everything. */
  lemma SubscribeShows(p: Published, now: Time)
    requires p.playback.measuredAt <= now
    ensures Shows(HearAll(BLANK, Answers(p, false, Subscribe, now), now), p, now)
  {
    var lines := Answers(p, false, Subscribe, now);
    HearTwo(BLANK, lines, now);
    SnapshotShows(BLANK.(cover := p.cover), p, now);
  }

  /** The answer to any request of a subscriber repeats what it knows. */
  lemma AnswersKeepShown(v: View, p: Published, r: Request, now: Time)
    requires Shows(v, p, now) && p.playback.measuredAt <= now
    ensures Shows(HearAll(v, Answers(p, true, r, now), now), p, now)
  {
    HearTwo(v, Answers(p, true, r, now), now);
    SnapshotShows(v, p, now);
  }

  lemma RequestKeepsCurrent(c: Connection, p: Published, r: Request, now: Time)
    requires Current(Registered(c), p, now) && p.playback.measuredAt <= now
    ensures Current(OfferAll(Registered(Marked(c, r)), Stamped(Answers(p, c.subscribed, r, now), now)), p, now)
  {
    var lines := Answers(p, c.subscribed, r, now);
    var m := Marked(c, r);
    OfferAllExactly(m, Stamped(lines, now));
    if m.subscribed {
      ViewGrows(m, lines, now);
      if c.subscribed {
        AnswersKeepShown(ViewOf(m), p, r, now);
      } else {
        assert m.Log()[m.since..] == [];
        SubscribeShows(p, now);
      }
    }
  }

  /**
   * A client that keeps its old picture across an `unsubscribe` and a new `subscribe`, rather than starting anew, is
   * right exactly unless it has a picture and there is none to send it: a snapshot does not say that there is no cover.
   */
  lemma ResubscribeExactly(v: View, p: Published, now: Time)
    requires p.playback.measuredAt <= now
    ensures Shows(HearAll(v, Answers(p, false, Subscribe, now), now), p, now) <==> p.cover.Some? || v.cover.None?
  {
    HearTwo(v, Answers(p, false, Subscribe, now), now);
    SnapshotShows(v.(cover := p.cover), p, now);
  }

  // ----- over every run -----

  ghost predicate InOrder(start: Time, run: seq<Timely>, now: Time) {
    && start <= now
    && (forall i :: 0 <= i < |run| ==> start <= run[i].at <= now)
    && (forall i, j :: 0 <= i < j < |run| ==> run[i].at <= run[j].at)
  }

  /** What a step makes of one client's place. */
  function PlaceAfter(place: Place, p: Published, nextId: nat, t: Timely, id: nat): Place {
    match t.input
    case Happened(event) =>
      if Listens(place) then OfferAll(place, Stamped(Publish(p, event, t.at).lines, t.at)) else place
    case Connect(allowed) => if allowed && id == nextId then Registered(NEWCOMER) else place
    case Requested(who, r) =>
      if who == id && place.Registered?
      then OfferAll(Registered(Marked(place.c, r)), Stamped(Answers(p, place.c.subscribed, r, t.at), t.at))
      else place
    case ClosedBy(who) => if who == id && place.Registered? then Gone(place.c) else place
    case Drained(who) => if who == id && !place.Nowhere? then place.(c := Drain(place.c, t.at)) else place
    case WriterEnded(who) => if who == id && !place.Nowhere? then place.(c := place.c.(open := false)) else place
  }

  /** A step treats every client as if it were the only one. */
  lemma StepAt(st: State, t: Timely, id: nat)
    requires Tidy(st)
    ensures Tidy(Step(st, t))
    ensures PlaceOf(Step(st, t), id) == PlaceAfter(PlaceOf(st, id), st.published, st.nextId, t, id)
    ensures Step(st, t).published
         == if t.input.Happened? then Publish(st.published, t.input.event, t.at).state else st.published
    ensures Step(st, t).nextId == st.nextId + if t.input.Connect? && t.input.allowed then 1 else 0
  {
    match t.input
    case Happened(event) =>
      var change := Publish(st.published, event, t.at);
      BroadcastAllAt(st.(published := change.state), Stamped(change.lines, t.at), id);
    case Requested(who, r) =>
      if who in st.connections {
        var c := st.connections[who];
        var marked := st.(connections := st.connections[who := Marked(c, r)]);
        SendAllAt(marked, who, Stamped(Answers(st.published, c.subscribed, r, t.at), t.at), id);
      }
    case _ =>
  }

  lemma {:induction false} RunTidy(start: Time, run: seq<Timely>)
    ensures Tidy(Run(start, run))
  {
    if run == [] {
    } else {
      RunTidy(start, run[..|run| - 1]);
      StepAt(Run(start, run[..|run| - 1]), run[|run| - 1], 0);
    }
  }

  /** One more input, seen from one client. */
  lemma StepMore(start: Time, run: seq<Timely>, last: Timely, id: nat)
    ensures var st := Run(start, run);
            && PlaceOf(Run(start, run + [last]), id) == PlaceAfter(PlaceOf(st, id), st.published, st.nextId, last, id)
            && Run(start, run + [last]).nextId == st.nextId + (if last.input.Connect? && last.input.allowed then 1 else 0)
            && Run(start, run + [last]).published
               == if last.input.Happened? then Publish(st.published, last.input.event, last.at).state else st.published
  {
    var all := run + [last];
    assert all[..|all| - 1] == run && all[|all| - 1] == last;
    RunTidy(start, run);
    StepAt(Run(start, run), last, id);
  }

  lemma MeasuredByNow(p: Published, e: Event, now: Time)
    requires p.playback.measuredAt <= now
    ensures Publish(p, e, now).state.playback.measuredAt <= now
  {
  }

  lemma {:induction false} MeasuredInThePast(start: Time, run: seq<Timely>, now: Time)
    requires InOrder(start, run, now)
    ensures Run(start, run).published.playback.measuredAt <= now
  {
    if run == [] {
    } else {
      var prefix, last := run[..|run| - 1], run[|run| - 1];
      MeasuredInThePast(start, prefix, last.at);
      RunTidy(start, prefix);
      StepAt(Run(start, prefix), last, 0);
      if last.input.Happened? {
        MeasuredByNow(Run(start, prefix).published, last.input.event, last.at);
      }
    }
  }

  lemma StepKeepsCurrent(st: State, t: Timely, id: nat)
    requires Tidy(st) && st.published.playback.measuredAt <= t.at
    requires Current(PlaceOf(st, id), st.published, t.at)
    ensures Current(PlaceOf(Step(st, t), id), Step(st, t).published, t.at)
  {
    var place := PlaceOf(st, id);
    StepAt(st, t, id);
    match t.input
    case Happened(event) =>
      if Listens(place) {
        EventKeepsCurrent(place, st.published, event, t.at);
      }
    case Requested(who, r) =>
      if who == id && place.Registered? {
        RequestKeepsCurrent(place.c, st.published, r, t.at);
      }
    case Drained(_) =>
      if !place.Nowhere? {
        assert Drain(place.c, t.at).Log() == place.c.Log();
      }
    case _ =>
  }

  /**
   * The promise of the protocol: after every run, the lines a subscriber has been queued from its subscription on,
   * taken by themselves, are the published state.
   */
  lemma {:induction false} LogIsState(start: Time, run: seq<Timely>, id: nat, now: Time)
    requires InOrder(start, run, now)
    ensures Current(PlaceOf(Run(start, run), id), Run(start, run).published, now)
  {
    if run == [] {
    } else {
      var prefix, last := run[..|run| - 1], run[|run| - 1];
      LogIsState(start, prefix, id, last.at);
      RunTidy(start, prefix);
      MeasuredInThePast(start, prefix, last.at);
      StepKeepsCurrent(Run(start, prefix), last, id);
    }
  }

  // ----- a client that goes by when lines arrive -----

  /** A line with the time it was queued and the time the client had it. */
  datatype Arrival = Arrival(entry: Entry, at: Time)

  function HearArrivals(v: View, log: seq<Arrival>): View {
    if log == [] then v else Hear(HearArrivals(v, log[..|log| - 1]), log[|log| - 1].entry.line, log[|log| - 1].at)
  }

  function Queued(log: seq<Arrival>): seq<Entry> {
    seq(|log|, i requires 0 <= i < |log| => log[i].entry)
  }

  /** The same view but for a clock that was set `wait` later at most. */
  ghost predicate HeardLater(late: View, prompt: View, wait: Time) {
    && late == prompt.(playback := late.playback)
    && late.playback == prompt.playback.(measuredAt := late.playback.measuredAt)
    && prompt.playback.measuredAt <= late.playback.measuredAt <= prompt.playback.measuredAt + wait
  }

  /** Lines that arrive within `wait` of being queued give the same view, with a clock at most that much late. */
  lemma {:induction false} ArrivalsHeardLater(v: View, log: seq<Arrival>, wait: Time)
    requires forall i :: 0 <= i < |log| ==> log[i].entry.at <= log[i].at <= log[i].entry.at + wait
    ensures HeardLater(HearArrivals(v, log), HearLog(v, Queued(log)), wait)
  {
    if log == [] {
    } else {
      var init := log[..|log| - 1];
      ArrivalsHeardLater(v, init, wait);
      assert Queued(log)[..|Queued(log)| - 1] == Queued(init);
    }
  }

  /** A clock set late is never ahead, and behind by the lateness at most. */
  lemma LateClock(late: View, prompt: View, wait: Time, t: Time)
    requires HeardLater(late, prompt, wait) && late.playback.measuredAt <= t
    ensures Counted(late.playback, t) <= Counted(prompt.playback, t) <= Counted(late.playback, t) + wait
    ensures var durationMs := prompt.track.durationMs;
            && PositionAt(late.playback, durationMs, t) <= PositionAt(prompt.playback, durationMs, t)
            && PositionAt(prompt.playback, durationMs, t) <= PositionAt(late.playback, durationMs, t) + wait
  {
  }

  /** Lines are queued before they arrive, and neither lies ahead. */
  ghost predicate Recorded(c: Connection, now: Time) {
    && |c.arrivals| == |c.taken|
    && (forall i :: 0 <= i < |c.taken| ==> c.taken[i].at <= c.arrivals[i] <= now)
    && (forall i :: 0 <= i < |c.queue| ==> c.queue[i].at <= now)
  }

  lemma OfferedIsRecorded(c: Connection, lines: seq<Line>, now: Time)
    requires Recorded(c, now)
    ensures var r := OfferAll(Registered(c), Stamped(lines, now)); !r.Nowhere? && Recorded(r.c, now)
  {
    OfferAllExactly(c, Stamped(lines, now));
  }

  lemma StepRecords(place: Place, p: Published, nextId: nat, t: Timely, id: nat)
    requires !place.Nowhere? ==> Recorded(place.c, t.at)
    ensures var after := PlaceAfter(place, p, nextId, t, id);
            !after.Nowhere? ==> Recorded(after.c, t.at)
  {
    match t.input
    case Happened(event) =>
      if Listens(place) {
        OfferedIsRecorded(place.c, Publish(p, event, t.at).lines, t.at);
      }
    case Requested(who, r) =>
      if who == id && place.Registered? {
        OfferedIsRecorded(Marked(place.c, r), Answers(p, place.c.subscribed, r, t.at), t.at);
      }
    case _ =>
  }

  lemma {:induction false} RunRecords(start: Time, run: seq<Timely>, id: nat, now: Time)
    requires InOrder(start, run, now)
    ensures var place := PlaceOf(Run(start, run), id);
            !place.Nowhere? ==> Recorded(place.c, now)
  {
    if run == [] {
    } else {
      var prefix, last := run[..|run| - 1], run[|run| - 1];
      RunRecords(start, prefix, id, last.at);
      RunTidy(start, prefix);
      StepAt(Run(start, prefix), last, id);
      StepRecords(PlaceOf(Run(start, prefix), id), Run(start, prefix).published, Run(start, prefix).nextId, last, id);
    }
  }

  function Zip(entries: seq<Entry>, times: seq<Time>): seq<Arrival> {
    if entries == [] || times == [] then []
    else [Arrival(entries[0], times[0])] + Zip(entries[1..], times[1..])
  }

  lemma {:induction false} ZipAt(entries: seq<Entry>, times: seq<Time>)
    requires |entries| == |times|
    ensures |Zip(entries, times)| == |entries|
    ensures forall i :: 0 <= i < |entries| ==> Zip(entries, times)[i] == Arrival(entries[i], times[i])
  {
    if entries == [] {
    } else {
      ZipAt(entries[1..], times[1..]);
    }
  }

  /** What a client has had since it subscribed. */
  function ArrivedSince(c: Connection): seq<Arrival> {
    if c.since <= |c.taken| == |c.arrivals| then Zip(c.taken[c.since..], c.arrivals[c.since..]) else []
  }

  /** No line since the subscription waited longer than this. */
  ghost predicate Prompt(c: Connection, wait: Time) {
    forall i :: 0 <= i < |ArrivedSince(c)| ==> ArrivedSince(c)[i].at <= ArrivedSince(c)[i].entry.at + wait
  }

  /**
   * The documented client counts from when a line arrived. Once it has taken all it was queued, its view is the
   * published state, except that its clock is late by what a line waited in the queue: never ahead, and behind by the
   * longest wait at most.
   */
  lemma ArrivalsAreState(start: Time, run: seq<Timely>, id: nat, wait: Time, now: Time)
    requires InOrder(start, run, now) && Listens(PlaceOf(Run(start, run), id))
    requires var c := PlaceOf(Run(start, run), id).c; c.queue == [] && Prompt(c, wait)
    ensures PlaceOf(Run(start, run), id).c.since <= |PlaceOf(Run(start, run), id).c.Log()|
    ensures var c, p := PlaceOf(Run(start, run), id).c, Run(start, run).published;
            var heard, queued := HearArrivals(BLANK, ArrivedSince(c)), ViewOf(c);
            && HeardLater(heard, queued, wait) && Shows(queued, p, now)
            && (forall t :: now <= t ==> Counted(heard.playback, t) <= Counted(p.playback, t))
            && (forall t :: now <= t && heard.clock.Exact? ==>
                  Counted(p.playback, t) <= Counted(heard.playback, t) + wait)
  {
    var c, p := PlaceOf(Run(start, run), id).c, Run(start, run).published;
    LogIsState(start, run, id, now);
    RunRecords(start, run, id, now);
    var log := ArrivedSince(c);
    assert c.Log() == c.taken;
    ZipAt(c.taken[c.since..], c.arrivals[c.since..]);
    assert c.taken[c.since..] == Queued(log);
    ArrivalsHeardLater(BLANK, log, wait);
    var heard, queued := HearArrivals(BLANK, log), ViewOf(c);
    MeasuredOnArrival(BLANK, log, now);
    forall t | now <= t
      ensures Counted(heard.playback, t) <= Counted(p.playback, t)
      ensures heard.clock.Exact? ==> Counted(p.playback, t) <= Counted(heard.playback, t) + wait
    {
      LateClock(heard, queued, wait, t);
    }
  }

  lemma {:induction false} MeasuredOnArrival(v: View, log: seq<Arrival>, now: Time)
    requires v.playback.measuredAt <= now && forall i :: 0 <= i < |log| ==> log[i].at <= now
    ensures HearArrivals(v, log).playback.measuredAt <= now
  {
    if log == [] {
    } else {
      MeasuredOnArrival(v, log[..|log| - 1], now);
    }
  }

  // ----- the one thing a subscriber may lack -----

  /** An input after which this client has just been told the whole track. */
  predicate Retells(p: Published, t: Timely, id: nat) {
    || (t.input.Happened? && ReplacesTrack(p, t.input.event))
    || (t.input.Requested? && t.input.id == id && (t.input.request.Subscribe? || t.input.request.Status?))
  }

  predicate FillsIn(p: Published, t: Timely) {
    t.input.Happened? && FillsLength(p, t.input.event)
  }

  lemma AnswersTellTrack(v: View, p: Published, subscribed: bool, r: Request, now: Time)
    ensures HearAll(v, Answers(p, subscribed, r, now), now).track
         == if r.Subscribe? || r.Status? then p.track else v.track
  {
    HearTwo(v, Answers(p, subscribed, r, now), now);
  }

  lemma EventTellsTrack(place: Place, p: Published, e: Event, now: Time)
    requires Listens(place) && Current(place, p, now)
    ensures var change := Publish(p, e, now);
            var after := OfferAll(place, Stamped(change.lines, now));
            Listens(after) ==>
              && after.c.since <= |after.c.Log()|
              && (ViewOf(after.c).track == change.state.track <==>
                  ReplacesTrack(p, e) || (ViewOf(place.c).track == p.track && !FillsLength(p, e)))
  {
    var lines := Publish(p, e, now).lines;
    OfferAllExactly(place.c, Stamped(lines, now));
    ViewGrows(place.c, lines, now);
    TrackExactUnlessFilled(ViewOf(place.c), p, e, now);
    assert place.c.queue + Stamped([], now) == place.c.queue;
  }

  lemma RequestTellsTrack(c: Connection, p: Published, r: Request, now: Time)
    requires Current(Registered(c), p, now)
    ensures var after := OfferAll(Registered(Marked(c, r)), Stamped(Answers(p, c.subscribed, r, now), now));
            Listens(after) ==>
              && after.c.since <= |after.c.Log()|
              && (ViewOf(after.c).track == p.track <==>
                  r.Subscribe? || r.Status? || (c.subscribed && ViewOf(c).track == p.track))
  {
    var lines := Answers(p, c.subscribed, r, now);
    var m := Marked(c, r);
    OfferAllExactly(m, Stamped(lines, now));
    if m.subscribed {
      ViewGrows(m, lines, now);
      AnswersTellTrack(ViewOf(m), p, c.subscribed, r, now);
    }
  }

  function PublishedAfter(p: Published, t: Timely): Published {
    if t.input.Happened? then Publish(p, t.input.event, t.at).state else p
  }

  /** Inputs that are no event and no request of this client leave its log alone. */
  lemma QuietKeepsLog(place: Place, p: Published, nextId: nat, t: Timely, id: nat)
    requires !t.input.Happened? && !(t.input.Requested? && t.input.id == id)
    requires Listens(PlaceAfter(place, p, nextId, t, id))
    ensures var after := PlaceAfter(place, p, nextId, t, id);
            Listens(place) && after.c.Log() == place.c.Log() && after.c.since == place.c.since
  {
    if t.input.Drained? {
      assert Drain(place.c, t.at).Log() == place.c.Log();
    }
  }

  lemma PlaceTellsTrack(place: Place, p: Published, nextId: nat, t: Timely, id: nat)
    requires Current(place, p, t.at) && Listens(PlaceAfter(place, p, nextId, t, id))
    ensures var after := PlaceAfter(place, p, nextId, t, id);
            && after.c.since <= |after.c.Log()|
            && (Listens(place) || Retells(p, t, id))
            && (ViewOf(after.c).track == PublishedAfter(p, t).track <==>
                Retells(p, t, id) || (Listens(place) && ViewOf(place.c).track == p.track && !FillsIn(p, t)))
  {
    if t.input.Happened? {
      EventTellsTrack(place, p, t.input.event, t.at);
    } else if t.input.Requested? && t.input.id == id {
      RequestTellsTrack(place.c, p, t.input.request, t.at);
    } else {
      QuietKeepsLog(place, p, nextId, t, id);
      SameLogSameView(place.c, PlaceAfter(place, p, nextId, t, id).c);
    }
  }

  lemma SameLogSameView(c: Connection, d: Connection)
    requires c.Log() == d.Log() && c.since == d.since <= |c.Log()|
    ensures ViewOf(c) == ViewOf(d)
  {
  }

  /** A step leaves a subscriber with the very track that is published exactly if it retells it, or fills in no length. */
  lemma StepTellsTrack(st: State, t: Timely, id: nat)
    requires Tidy(st) && Current(PlaceOf(st, id), st.published, t.at)
    requires Listens(PlaceOf(Step(st, t), id))
    ensures var before, after := PlaceOf(st, id), PlaceOf(Step(st, t), id);
            && after.c.since <= |after.c.Log()|
            && (Listens(before) || Retells(st.published, t, id))
            && (ViewOf(after.c).track == Step(st, t).published.track <==>
                || Retells(st.published, t, id)
                || (Listens(before) && ViewOf(before.c).track == st.published.track && !FillsIn(st.published, t)))
  {
    StepAt(st, t, id);
    PlaceTellsTrack(PlaceOf(st, id), st.published, st.nextId, t, id);
  }

  /** No input both tells the track and fills in its length. */
  lemma TellsOrFills(p: Published, t: Timely, id: nat)
    ensures !(FillsIn(p, t) && Retells(p, t, id))
  {
  }

  function TellingMark(p: Published, t: Timely, id: nat): Mark {
    if FillsIn(p, t) then Broken else if Retells(p, t, id) then Mended else Kept
  }

  /** What each input of a run does to this client's having the very track that is published. */
  function Tellings(start: Time, run: seq<Timely>, id: nat): (r: seq<Mark>)
    ensures |r| == |run|
  {
    if run == [] then []
    else
      var prefix := run[..|run| - 1];
      Tellings(start, prefix, id) + [TellingMark(Run(start, prefix).published, run[|run| - 1], id)]
  }

  lemma {:induction false} TellingsAt(start: Time, run: seq<Timely>, id: nat, i: nat)
    requires i < |run|
    ensures Tellings(start, run, id)[i] == TellingMark(Run(start, run[..i]).published, run[i], id)
  {
    if i < |run| - 1 {
      TellingsAt(start, run[..|run| - 1], id, i);
      assert run[..|run| - 1][..i] == run[..i];
    }
  }

  /**
   * After every run a subscriber's track is the published one to the last field, exactly unless a progress report has
   * filled in the length since it was last told the track.
   */
  lemma {:induction false} TrackIsExactly(start: Time, run: seq<Timely>, id: nat, now: Time)
    requires InOrder(start, run, now)
    requires Listens(PlaceOf(Run(start, run), id))
    ensures var c := PlaceOf(Run(start, run), id).c;
            && c.since <= |c.Log()|
            && (ViewOf(c).track == Run(start, run).published.track <==> !LeftBroken(Tellings(start, run, id)))
  {
    if run == [] {
      assert false;
    } else {
      var prefix, last := run[..|run| - 1], run[|run| - 1];
      LogIsState(start, prefix, id, last.at);
      RunTidy(start, prefix);
      StepTellsTrack(Run(start, prefix), last, id);
      TellsOrFills(Run(start, prefix).published, last, id);
      LeftBrokenSnoc(Tellings(start, prefix, id), TellingMark(Run(start, prefix).published, last, id));
      if Listens(PlaceOf(Run(start, prefix), id)) {
        TrackIsExactly(start, prefix, id, last.at);
      }
    }
  }

  // ----- the events alone -----

  /** The published state is that of the events alone: no client can affect it. */
  function EventsOf(run: seq<Timely>): seq<Timed> {
    if run == [] then []
    else
      var last := run[|run| - 1];
      EventsOf(run[..|run| - 1]) + if last.input.Happened? then [Timed(last.input.event, last.at)] else []
  }

  lemma {:induction false} PublishedByEvents(start: Time, run: seq<Timely>)
    ensures Run(start, run).published == After(start, EventsOf(run))
  {
    if run == [] {
    } else {
      var prefix, last := run[..|run| - 1], run[|run| - 1];
      PublishedByEvents(start, prefix);
      RunTidy(start, prefix);
      StepAt(Run(start, prefix), last, 0);
      if last.input.Happened? {
        var events := EventsOf(run);
        assert events[..|events| - 1] == EventsOf(prefix);
      } else {
        assert EventsOf(prefix) + [] == EventsOf(prefix);
      }
    }
  }

  // ----- a client with all the room in the world -----

  /** A client that is never dropped: what it would have been sent, and whether it is subscribed. */
  datatype Patient = Absent | Present(subscribed: bool, log: seq<Entry>)

  function Admitted(run: seq<Timely>): nat {
    if run == [] then 0
    else
      var last := run[|run| - 1];
      Admitted(run[..|run| - 1]) + if last.input.Connect? && last.input.allowed then 1 else 0
  }

  function DueAfter(before: Patient, p: Published, admitted: nat, t: Timely, id: nat): Patient {
    match t.input
    case Connect(allowed) => if allowed && id == admitted then Present(false, []) else before
    case Happened(event) =>
      if before.Present? && before.subscribed
      then before.(log := before.log + Stamped(Publish(p, event, t.at).lines, t.at))
      else before
    case Requested(who, r) =>
      if who == id && before.Present?
      then Present(if r.Subscribe? then true else if r.Unsubscribe? then false else before.subscribed,
                   before.log + Stamped(Answers(p, before.subscribed, r, t.at), t.at))
      else before
    case _ => before
  }

  /** What the client with this id is due after a run: its own requests and the published events decide, nothing else. */
  function Due(start: Time, run: seq<Timely>, id: nat): Patient {
    if run == [] then Absent
    else
      var prefix := run[..|run| - 1];
      DueAfter(Due(start, prefix, id), After(start, EventsOf(prefix)), Admitted(prefix), run[|run| - 1], id)
  }

  /** What became of a client against what it was due: everything while registered, a gap-free beginning once dropped. */
  ghost predicate Served(place: Place, due: Patient) {
    match place
    case Nowhere => due.Absent?
    case Registered(c) => due == Present(c.subscribed, c.Log())
    case Gone(c) => due.Present? && c.Log() <= due.log
  }

  lemma LogGrows(c: Connection, entries: seq<Entry>)
    ensures c.(queue := c.queue + entries).Log() == c.Log() + entries
  {
    Reassociate(c.taken, c.queue, entries);
  }

  lemma OfferedIsServed(c: Connection, due: Patient, lines: seq<Line>, at: Time)
    requires due == Present(c.subscribed, c.Log())
    ensures Served(OfferAll(Registered(c), Stamped(lines, at)), due.(log := due.log + Stamped(lines, at)))
  {
    var entries := Stamped(lines, at);
    OfferAllExactly(c, entries);
    var r := OfferAll(Registered(c), entries);
    if r.Registered? {
      LogGrows(c, entries);
    } else {
      var k :| 0 <= k < |entries| && r.c == c.(queue := c.queue + entries[..k]) && !r.c.HasRoom();
      LogGrows(c, entries[..k]);
      assert entries == entries[..k] + entries[k..];
      Reassociate(c.Log(), entries[..k], entries[k..]);
    }
  }

  lemma StepServes(place: Place, due: Patient, p: Published, nextId: nat, t: Timely, id: nat)
    requires Served(place, due)
    ensures Served(PlaceAfter(place, p, nextId, t, id), DueAfter(due, p, nextId, t, id))
  {
    match t.input
    case Happened(event) =>
      if Listens(place) {
        OfferedIsServed(place.c, due, Publish(p, event, t.at).lines, t.at);
      }
    case Requested(who, r) =>
      if who == id && place.Registered? {
        var c := place.c;
        OfferedIsServed(Marked(c, r), due.(subscribed := Marked(c, r).subscribed), Answers(p, c.subscribed, r, t.at), t.at);
      }
    case Drained(who) =>
      if !place.Nowhere? {
        assert Drain(place.c, t.at).Log() == place.c.Log();
      }
    case _ =>
  }

  /**
   * Bounded queues refine unbounded ones: after every run a registered client has been queued exactly what a client
   * with unbounded patience would have been, and a dropped one a prefix of it. No line goes missing, comes twice or out
   * of order, and no other client, however slow, can change it.
   */
  lemma {:induction false} QueuesRefinePatience(start: Time, run: seq<Timely>, id: nat)
    ensures Served(PlaceOf(Run(start, run), id), Due(start, run, id))
    ensures Run(start, run).nextId == Admitted(run)
  {
    if run == [] {
    } else {
      var prefix := run[..|run| - 1];
      QueuesRefinePatience(start, prefix, id);
      RunTidy(start, prefix);
      PublishedByEvents(start, prefix);
      var st, last := Run(start, prefix), run[|run| - 1];
      StepAt(st, last, id);
      StepServes(PlaceOf(st, id), Due(start, prefix, id), st.published, st.nextId, last, id);
    }
  }

  // ----- one client does not depend on another -----

  /** The inputs that bear on one client: the events, who was let in, and all that is its own. */
  predicate Concerns(t: Timely, id: nat) {
    match t.input
    case Happened(_) => true
    case Connect(_) => true
    case Requested(who, _) => who == id
    case ClosedBy(who) => who == id
    case Drained(who) => who == id
    case WriterEnded(who) => who == id
  }

  function Own(run: seq<Timely>, id: nat): seq<Timely> {
    if run == [] then []
    else
      var last := run[|run| - 1];
      Own(run[..|run| - 1], id) + if Concerns(last, id) then [last] else []
  }

  /**
   * Strike from a run every request, close, drain and failure of all other clients: this one's queue, what it was
   * sent, whether it is subscribed and whether it was dropped stay the same. So no other client, however slow or
   * however much it asks, can delay it, have it dropped, or change what it sees.
   */
  lemma {:induction false} OthersDoNotInterfere(start: Time, run: seq<Timely>, id: nat)
    ensures PlaceOf(Run(start, Own(run, id)), id) == PlaceOf(Run(start, run), id)
    ensures Run(start, Own(run, id)).published == Run(start, run).published
    ensures Run(start, Own(run, id)).nextId == Run(start, run).nextId
  {
    if run == [] {
    } else {
      var prefix, last := run[..|run| - 1], run[|run| - 1];
      OthersDoNotInterfere(start, prefix, id);
      RunTidy(start, prefix);
      StepAt(Run(start, prefix), last, id);
      if Concerns(last, id) {
        var mine := Own(run, id);
        assert mine[..|mine| - 1] == Own(prefix, id);
        RunTidy(start, Own(prefix, id));
        StepAt(Run(start, Own(prefix, id)), last, id);
      } else {
        assert Own(run, id) == Own(prefix, id);
      }
    }
  }

  lemma {:induction false} QueuesBounded(start: Time, run: seq<Timely>, id: nat)
    ensures var place := PlaceOf(Run(start, run), id);
            !place.Nowhere? ==> |place.c.queue| <= 16
  {
    if run == [] {
    } else {
      var st, last := Run(start, run[..|run| - 1]), run[|run| - 1];
      QueuesBounded(start, run[..|run| - 1], id);
      RunTidy(start, run[..|run| - 1]);
      StepAt(st, last, id);
      var place := PlaceOf(st, id);
      match last.input
      case Happened(event) =>
        if Listens(place) {
          OfferAllExactly(place.c, Stamped(Publish(st.published, event, last.at).lines, last.at));
        }
      case Requested(_, r) =>
        if place.Registered? {
          OfferAllExactly(Marked(place.c, r), Stamped(Answers(st.published, place.c.subscribed, r, last.at), last.at));
        }
      case _ =>
    }
  }
}
