/** The keep-alive part of the session's dispatch task: `core/src/session.rs`. */
module KeepAlive {
  import opened Wrappers

  /** Milliseconds. */
  type Time = nat

  const INITIAL_PING_TIMEOUT: Time := 20_000
  const PING_TIMEOUT: Time := 80_000
  const PONG_DELAY: Time := 60_000
  const PONG_ACK_TIMEOUT: Time := 20_000

  datatype KeepAliveState = ExpectingPing | PendingPong | ExpectingPongAck

  datatype Packet = Ping | PongAck | Other

  datatype Task = Task(state: KeepAliveState, deadline: Time, alive: bool)

  /** One call of `poll`: the packets that were ready, whether the stream ended behind them, and the time. */
  datatype Poll = Poll(packets: seq<Packet>, closed: bool, at: Time)

  // ----- the dispatch task as a value -----

  function Start(now: Time): Task {
    Task(ExpectingPing, now + INITIAL_PING_TIMEOUT, true)
  }

  function AfterPacket(t: Task, packet: Packet, now: Time): Task {
    match packet
    case Ping => t.(state := PendingPong, deadline := now + PONG_DELAY)
    case PongAck => t.(state := ExpectingPing, deadline := now + PING_TIMEOUT)
    case Other => t
  }

  function AfterPackets(t: Task, packets: seq<Packet>, now: Time): Task {
    if packets == [] then t
    else AfterPacket(AfterPackets(t, packets[..|packets| - 1], now), packets[|packets| - 1], now)
  }

  function AfterTimer(t: Task, now: Time): Task {
    if now < t.deadline then t
    else
      match t.state
      case PendingPong => t.(state := ExpectingPongAck, deadline := now + PONG_ACK_TIMEOUT)
      case _ => t.(alive := false)
  }

  function AfterPoll(t: Task, poll: Poll): Task {
    if !t.alive then t
    else
      var u := AfterPackets(t, poll.packets, poll.at);
      if poll.closed then u.(alive := false) else AfterTimer(u, poll.at)
  }

  function Run(start: Time, polls: seq<Poll>): Task {
    if polls == [] then Start(start) else AfterPoll(Run(start, polls[..|polls| - 1]), polls[|polls| - 1])
  }

  class DispatchTask {
    var keepAliveState: KeepAliveState
    var timeout: Time
    var invalid: bool
    var pongs: nat

    ghost function Model(): Task
      reads this
    {
      Task(keepAliveState, timeout, !invalid)
    }

    constructor (now: Time)
      ensures Model() == Start(now) && pongs == 0
    {
      keepAliveState := ExpectingPing;
      timeout := now + INITIAL_PING_TIMEOUT;
      invalid := false;
      pongs := 0;
    }

    method Dispatch(packet: Packet, now: Time)
      modifies this
      ensures Model() == AfterPacket(old(Model()), packet, now) && pongs == old(pongs)
    {
      match packet {
        case Ping =>
          keepAliveState := PendingPong;
          timeout := now + PONG_DELAY;
        case PongAck =>
          keepAliveState := ExpectingPing;
          timeout := now + PING_TIMEOUT;
        case Other =>
      }
    }

    method PollOnce(packets: seq<Packet>, closed: bool, now: Time)
      requires !invalid
      modifies this
      ensures Model() == AfterPoll(old(Model()), Poll(packets, closed, now))
      ensures pongs == old(pongs) + if SendsPong(old(Model()), Poll(packets, closed, now)) then 1 else 0
    {
      for i := 0 to |packets|
        invariant Model() == AfterPackets(old(Model()), packets[..i], now) && pongs == old(pongs)
      {
        assert packets[..i + 1][..i] == packets[..i];
        Dispatch(packets[i], now);
      }
      assert packets[..|packets|] == packets;
      AlivePackets(old(Model()), packets, now);
      if closed {
        invalid := true;
        return;
      }
      if timeout <= now {
        match keepAliveState {
          case ExpectingPing =>
            invalid := true;
          case ExpectingPongAck =>
            invalid := true;
          case PendingPong =>
            pongs := pongs + 1;
            keepAliveState := ExpectingPongAck;
            timeout := now + PONG_ACK_TIMEOUT;
        }
      }
    }
  }

  lemma {:induction false} AlivePackets(t: Task, packets: seq<Packet>, now: Time)
    ensures AfterPackets(t, packets, now).alive == t.alive
  {
    if packets == [] {
    } else {
      AlivePackets(t, packets[..|packets| - 1], now);
    }
  }

  // ----- what passes over the wire -----

  datatype Signal = Started(at: Time) | GotPing(at: Time) | SentPong(at: Time) | GotPongAck(at: Time)

  predicate SendsPong(t: Task, poll: Poll) {
    var u := AfterPackets(t, poll.packets, poll.at);
    t.alive && !poll.closed && u.deadline <= poll.at && u.state == PendingPong
  }

  function PacketSignals(packets: seq<Packet>, now: Time): seq<Signal> {
    if packets == [] then []
    else
      var init := PacketSignals(packets[..|packets| - 1], now);
      match packets[|packets| - 1]
      case Ping => init + [GotPing(now)]
      case PongAck => init + [GotPongAck(now)]
      case Other => init
  }

  function PollSignals(t: Task, poll: Poll): seq<Signal> {
    if !t.alive then []
    else PacketSignals(poll.packets, poll.at) + if SendsPong(t, poll) then [SentPong(poll.at)] else []
  }

  /** Every keep-alive signal of a run, in order. */
  function Trace(start: Time, polls: seq<Poll>): (r: seq<Signal>)
    ensures r != [] && r[0] == Started(start)
  {
    if polls == [] then [Started(start)]
    else
      Trace(start, polls[..|polls| - 1]) + PollSignals(Run(start, polls[..|polls| - 1]), polls[|polls| - 1])
  }

  function Last(trace: seq<Signal>): Signal
    requires trace != []
  {
    trace[|trace| - 1]
  }

  /** What a dispatch task waits for, and until when, after a signal. */
  function Waiting(s: Signal): (KeepAliveState, Time) {
    match s
    case Started(at) => (ExpectingPing, at + INITIAL_PING_TIMEOUT)
    case GotPing(at) => (PendingPong, at + PONG_DELAY)
    case SentPong(at) => (ExpectingPongAck, at + PONG_ACK_TIMEOUT)
    case GotPongAck(at) => (ExpectingPing, at + PING_TIMEOUT)
  }

  /** The signals before a poll's packets, and the packets, settle what it waits for. */
  lemma {:induction false} PacketsWait(t: Task, trace: seq<Signal>, packets: seq<Packet>, now: Time)
    requires trace != [] && (t.state, t.deadline) == Waiting(Last(trace))
    ensures var u := AfterPackets(t, packets, now);
            (u.state, u.deadline) == Waiting(Last(trace + PacketSignals(packets, now)))
    decreases |packets|
  {
    if packets == [] {
    } else {
      PacketsWait(t, trace, packets[..|packets| - 1], now);
    }
  }

  lemma PollWaits(t: Task, trace: seq<Signal>, poll: Poll)
    requires trace != [] && (t.state, t.deadline) == Waiting(Last(trace))
    requires t.alive && AfterPoll(t, poll).alive
    ensures var u := AfterPoll(t, poll);
            (u.state, u.deadline) == Waiting(Last(trace + PollSignals(t, poll)))
  {
    PacketsWait(t, trace, poll.packets, poll.at);
    AlivePackets(t, poll.packets, poll.at);
    var heard := PacketSignals(poll.packets, poll.at);
    if SendsPong(t, poll) {
      assert Last(trace + (heard + [SentPong(poll.at)])) == SentPong(poll.at);
    } else {
      assert heard + [] == heard;
    }
  }

  /** A running session always waits for what its latest signal calls for, and for nothing else. */
  lemma {:induction false} WaitsForLatest(start: Time, polls: seq<Poll>)
    requires Run(start, polls).alive
    ensures (Run(start, polls).state, Run(start, polls).deadline) == Waiting(Last(Trace(start, polls)))
  {
    if polls == [] {
    } else {
      var before, poll := polls[..|polls| - 1], polls[|polls| - 1];
      WaitsForLatest(start, before);
      PollWaits(Run(start, before), Trace(start, before), poll);
    }
  }

  /**
   * A session that is running times out at a poll exactly when what it waits for is overdue: the first Ping
   * 20 s after the start, the PongAck 20 s after the Pong, the next Ping 80 s after the PongAck.
   */
  lemma TimesOutExactlyWhenOverdue(start: Time, polls: seq<Poll>, poll: Poll)
    requires Run(start, polls).alive && !poll.closed
    ensures var latest := Last(Trace(start, polls) + PacketSignals(poll.packets, poll.at));
            !AfterPoll(Run(start, polls), poll).alive <==>
            match latest
            case Started(at) => at + 20_000 <= poll.at
            case SentPong(at) => at + 20_000 <= poll.at
            case GotPongAck(at) => at + 80_000 <= poll.at
            case GotPing(_) => false
  {
    WaitsForLatest(start, polls);
    PacketsWait(Run(start, polls), Trace(start, polls), poll.packets, poll.at);
    AlivePackets(Run(start, polls), poll.packets, poll.at);
  }

  /** A session that is running sends a Pong at a poll exactly when the latest signal is a Ping of 60 s ago or more. */
  lemma PongExactlyWhenDue(start: Time, polls: seq<Poll>, poll: Poll)
    requires Run(start, polls).alive && !poll.closed
    ensures var latest := Last(Trace(start, polls) + PacketSignals(poll.packets, poll.at));
            SendsPong(Run(start, polls), poll) <==> latest.GotPing? && latest.at + 60_000 <= poll.at
  {
    WaitsForLatest(start, polls);
    PacketsWait(Run(start, polls), Trace(start, polls), poll.packets, poll.at);
  }

  /** A session whose connection is closed is over, and so it stays. */
  lemma ClosedEndsSession(start: Time, polls: seq<Poll>, poll: Poll)
    requires poll.closed || !Run(start, polls).alive
    ensures !Run(start, polls + [poll]).alive
  {
    assert (polls + [poll])[..|polls|] == polls;
  }

  // ----- every Pong answers a Ping -----

  /** Each Pong directly follows a Ping, at least 60 s and at most `late` more behind it. */
  ghost predicate Answered(trace: seq<Signal>, late: Option<Time>) {
    forall k :: 0 <= k < |trace| && trace[k].SentPong? ==>
      && 0 < k && trace[k - 1].GotPing? && trace[k - 1].at + 60_000 <= trace[k].at
      && (late.Some? ==> trace[k].at <= trace[k - 1].at + 60_000 + late.value)
  }

  /** Polls come no later than `late` after the deadline in force. */
  ghost predicate Punctual(start: Time, polls: seq<Poll>, late: Time) {
    forall k :: 0 <= k < |polls| && Run(start, polls[..k]).alive ==> polls[k].at <= Run(start, polls[..k]).deadline + late
  }

  lemma {:induction false} NoPongAmongPackets(packets: seq<Packet>, now: Time)
    ensures forall k :: 0 <= k < |PacketSignals(packets, now)| ==>
              !PacketSignals(packets, now)[k].SentPong? && PacketSignals(packets, now)[k].at == now
  {
    if packets == [] {
    } else {
      NoPongAmongPackets(packets[..|packets| - 1], now);
    }
  }

  /** A poll that sends a Pong heard no Ping and no PongAck, and the Ping before it is 60 s old. */
  lemma PongAnswers(t: Task, trace: seq<Signal>, poll: Poll)
    requires trace != [] && (t.state, t.deadline) == Waiting(Last(trace)) && SendsPong(t, poll)
    ensures PacketSignals(poll.packets, poll.at) == []
    ensures Last(trace).GotPing? && t.deadline == Last(trace).at + 60_000 <= poll.at
  {
    PacketsWait(t, trace, poll.packets, poll.at);
    NoPongAmongPackets(poll.packets, poll.at);
    var heard := PacketSignals(poll.packets, poll.at);
    assert trace + [] == trace;
  }

  lemma {:induction false} PongsAnswerPings(start: Time, polls: seq<Poll>, late: Option<Time>)
    requires late.Some? ==> Punctual(start, polls, late.value)
    ensures Answered(Trace(start, polls), late)
  {
    if polls == [] {
    } else {
      var before, poll := polls[..|polls| - 1], polls[|polls| - 1];
      var t, trace := Run(start, before), Trace(start, before);
      assert forall k :: 0 <= k < |before| ==> before[..k] == polls[..k] && before[k] == polls[k];
      PongsAnswerPings(start, before, late);
      if t.alive {
        WaitsForLatest(start, before);
        if SendsPong(t, poll) {
          PongAnswers(t, trace, poll);
          assert PollSignals(t, poll) == [SentPong(poll.at)];
          assert late.Some? ==> poll.at <= t.deadline + late.value;
        } else {
          NoPongAmongPackets(poll.packets, poll.at);
          assert PollSignals(t, poll) == PacketSignals(poll.packets, poll.at);
        }
      }
      AnsweredAppend(trace, PollSignals(t, poll), late);
    }
  }

  lemma AnsweredAppend(trace: seq<Signal>, more: seq<Signal>, late: Option<Time>)
    requires trace != [] && Answered(trace, late)
    requires forall k :: 0 <= k < |more| && more[k].SentPong? ==>
               && k == 0 && Last(trace).GotPing? && Last(trace).at + 60_000 <= more[k].at
               && (late.Some? ==> more[k].at <= Last(trace).at + 60_000 + late.value)
    ensures Answered(trace + more, late)
  {
    var all := trace + more;
    forall k | 0 <= k < |all| && all[k].SentPong?
      ensures 0 < k && all[k - 1].GotPing? && all[k - 1].at + 60_000 <= all[k].at
      ensures late.Some? ==> all[k].at <= all[k - 1].at + 60_000 + late.value
    {
      if |trace| <= k {
        assert all[k] == more[k - |trace|] && all[|trace| - 1] == Last(trace);
      } else {
        assert all[k] == trace[k];
      }
    }
  }

  function Pings(trace: seq<Signal>): nat {
    if trace == [] then 0 else Pings(trace[..|trace| - 1]) + if Last(trace).GotPing? then 1 else 0
  }

  function Pongs(trace: seq<Signal>): nat {
    if trace == [] then 0 else Pongs(trace[..|trace| - 1]) + if Last(trace).SentPong? then 1 else 0
  }

  lemma {:induction false} AnsweredCounts(trace: seq<Signal>)
    requires Answered(trace, None)
    ensures Pongs(trace) + (if trace != [] && Last(trace).GotPing? then 1 else 0) <= Pings(trace)
  {
    if trace == [] {
    } else {
      AnsweredCounts(trace[..|trace| - 1]);
    }
  }

  /** Pongs never outnumber Pings. */
  lemma PongsNeverOutnumberPings(start: Time, polls: seq<Poll>)
    ensures Pongs(Trace(start, polls)) <= Pings(Trace(start, polls))
  {
    PongsAnswerPings(start, polls, None);
    AnsweredCounts(Trace(start, polls));
  }

  // ----- silence ends the session -----

  /** When the server was last heard from; the start counts. */
  function LastHeard(trace: seq<Signal>): Time
    requires trace != [] && trace[0].Started?
  {
    if Last(trace).SentPong? then LastHeard(trace[..|trace| - 1]) else Last(trace).at
  }

  /** A poll that leaves the session running leaves it a deadline still to come. */
  lemma DeadlineAhead(t: Task, poll: Poll)
    requires t.alive && AfterPoll(t, poll).alive
    ensures poll.at < AfterPoll(t, poll).deadline
  {
    AlivePackets(t, poll.packets, poll.at);
  }

  /** Where the deadline of a running session lies: within 80 s of what was last heard, plus the lateness of a Pong. */
  lemma DeadlineAfterHeard(start: Time, polls: seq<Poll>, late: Time)
    requires Punctual(start, polls, late) && Run(start, polls).alive
    ensures Run(start, polls).deadline <= LastHeard(Trace(start, polls)) + 80_000 + late
  {
    WaitsForLatest(start, polls);
    PongsAnswerPings(start, polls, Some(late));
    var trace := Trace(start, polls);
    if Last(trace).SentPong? {
      assert trace[|trace| - 2] == Last(trace[..|trace| - 1]);
    }
  }

  /**
   * Polls that are at most `late` behind each deadline, and nothing from the server for 80 s: the poll that finds it
   * so, or one before it, has ended the session.
   */
  lemma SilenceEndsSession(start: Time, polls: seq<Poll>, late: Time)
    requires Punctual(start, polls, late) && polls != []
    requires LastHeard(Trace(start, polls)) + 80_000 + late <= polls[|polls| - 1].at
    ensures !Run(start, polls).alive
  {
    if Run(start, polls).alive {
      DeadlineAfterHeard(start, polls, late);
      DeadlineAhead(Run(start, polls[..|polls| - 1]), polls[|polls| - 1]);
    }
  }

  /** Between polls as well: while a session runs whose next poll is not overdue, the silence is no longer than that. */
  lemma AliveMeansHeard(start: Time, polls: seq<Poll>, late: Time, now: Time)
    requires Punctual(start, polls, late)
    requires Run(start, polls).alive && now <= Run(start, polls).deadline + late
    ensures now <= LastHeard(Trace(start, polls)) + 80_000 + 2 * late
  {
    DeadlineAfterHeard(start, polls, late);
  }

  // ----- the object over a run -----

  lemma {:induction false} PongsConcat(a: seq<Signal>, b: seq<Signal>)
    ensures Pongs(a + b) == Pongs(a) + Pongs(b)
    decreases |b|
  {
    if b == [] {
      assert a + b == a;
    } else {
      PongsConcat(a, b[..|b| - 1]);
      assert (a + b)[..|a + b| - 1] == a + b[..|b| - 1];
    }
  }

  lemma {:induction false} NoPongsCounted(packets: seq<Packet>, now: Time)
    ensures Pongs(PacketSignals(packets, now)) == 0
  {
    if packets == [] {
    } else {
      NoPongsCounted(packets[..|packets| - 1], now);
      var init := PacketSignals(packets[..|packets| - 1], now);
      PongsConcat(init, [GotPing(now)]);
      PongsConcat(init, [GotPongAck(now)]);
    }
  }

  lemma PongsOfPoll(t: Task, poll: Poll)
    ensures Pongs(PollSignals(t, poll)) == if SendsPong(t, poll) then 1 else 0
  {
    NoPongsCounted(poll.packets, poll.at);
    PongsConcat(PacketSignals(poll.packets, poll.at), [SentPong(poll.at)]);
    assert PacketSignals(poll.packets, poll.at) + [] == PacketSignals(poll.packets, poll.at);
  }

  /** A new dispatch task, polled until it is done, is in the state of the run and has sent its Pongs, no more than Pings. */
  method PollAll(start: Time, polls: seq<Poll>) returns (task: DispatchTask)
    ensures fresh(task) && task.Model() == Run(start, polls)
    ensures task.pongs == Pongs(Trace(start, polls)) <= Pings(Trace(start, polls))
  {
    task := new DispatchTask(start);
    for i := 0 to |polls|
      invariant fresh(task) && task.Model() == Run(start, polls[..i]) && task.pongs == Pongs(Trace(start, polls[..i]))
    {
      ghost var t, trace := Run(start, polls[..i]), Trace(start, polls[..i]);
      assert polls[..i + 1][..i] == polls[..i];
      PongsOfPoll(t, polls[i]);
      PongsConcat(trace, PollSignals(t, polls[i]));
      if !task.invalid {
        task.PollOnce(polls[i].packets, polls[i].closed, polls[i].at);
      }
    }
    assert polls[..|polls|] == polls;
    PongsNeverOutnumberPings(start, polls);
  }
}
