/** Where playback stands, as the connect task keeps it: `connect/src/spirc.rs`. */
module PlayPositions {
  const TWO_32: nat := 0x1_0000_0000

  type u32 = x: nat | x < TWO_32

  /** Milliseconds, on the session's clock, which the system and the server may set back. */
  type Time = int

  datatype PlayStatus =
    | Stopped
    | LoadingPlay(positionMs: u32)
    | LoadingPause(positionMs: u32)
    | Playing(nominalStartTime: Time, preloading: bool)
    | Paused(positionMs: u32, preloading: bool)

  /** The cast from a 64-bit difference keeps the low 32 bits. */
  function ToU32(x: int): u32 {
    x % TWO_32
  }

  function Position(s: PlayStatus, now: Time): u32 {
    match s
    case Stopped => 0
    case Playing(nominalStartTime, _) => ToU32(now - nominalStartTime)
    case _ => s.positionMs
  }

  // ----- commands -----

  datatype Command = Play | Pause | PlayPause | Seek(positionMs: u32, durationMs: int)

  function AfterPlay(s: PlayStatus, now: Time): PlayStatus {
    match s
    case Paused(positionMs, preloading) => Playing(now - positionMs, preloading)
    case LoadingPause(positionMs) => LoadingPlay(positionMs)
    case _ => s
  }

  function AfterPause(s: PlayStatus, now: Time): PlayStatus {
    match s
    case Playing(nominalStartTime, preloading) => Paused(ToU32(now - nominalStartTime), preloading)
    case LoadingPlay(positionMs) => LoadingPause(positionMs)
    case _ => s
  }

  function AfterSeek(s: PlayStatus, positionMs: u32, durationMs: int, now: Time): PlayStatus {
    if durationMs < positionMs then s
    else
      match s
      case Stopped => s
      case LoadingPlay(_) => LoadingPlay(positionMs)
      case LoadingPause(_) => LoadingPause(positionMs)
      case Paused(_, preloading) => Paused(positionMs, preloading)
      case Playing(_, preloading) => Playing(now - positionMs, preloading)
  }

  function AfterCommand(s: PlayStatus, c: Command, now: Time): PlayStatus {
    match c
    case Play => AfterPlay(s, now)
    case Pause => AfterPause(s, now)
    case PlayPause => if s.Paused? || s.LoadingPause? then AfterPlay(s, now) else AfterPause(s, now)
    case Seek(positionMs, durationMs) => AfterSeek(s, positionMs, durationMs, now)
  }

  // ----- reports of the player -----

  /** `At` is a Playing or PositionCorrection event. */
  datatype Report = At(positionMs: u32) | PausedAt(positionMs: u32) | StoppedThere

  function Abs(x: int): nat {
    if x < 0 then -x else x
  }

  function AfterReport(s: PlayStatus, r: Report, now: Time): PlayStatus {
    match r
    case At(positionMs) =>
      var start := now - positionMs;
      (match s
       case Playing(nominalStartTime, preloading) =>
         if 100 < Abs(nominalStartTime - start) then Playing(start, preloading) else s
       case LoadingPlay(_) => Playing(start, false)
       case LoadingPause(_) => Playing(start, false)
       case _ => s)
    case PausedAt(positionMs) => if s.Stopped? then s else Paused(positionMs, false)
    case StoppedThere => Stopped
  }

  /** The next track has been asked for already. */
  predicate Preloading(s: PlayStatus) {
    (s.Playing? || s.Paused?) && s.preloading
  }

  /** Something runs, or will once it is loaded. */
  predicate Running(s: PlayStatus) {
    s.Playing? || s.LoadingPlay?
  }

  /** Stopped, loading, or loaded. */
  predicate SameStage(a: PlayStatus, b: PlayStatus) {
    (a.Stopped? <==> b.Stopped?) && (a.LoadingPlay? || a.LoadingPause? <==> b.LoadingPlay? || b.LoadingPause?)
  }

  // ----- the ideal stopwatch -----

  datatype Timed = Timed(command: Command, at: Time)

  function Run(s: PlayStatus, run: seq<Timed>): PlayStatus {
    if run == [] then s
    else AfterCommand(Run(s, run[..|run| - 1]), run[|run| - 1].command, run[|run| - 1].at)
  }

  /** Whether the watch runs: a playing track that is not paused, as the commands alone decide it. */
  predicate Ticking(s: PlayStatus, run: seq<Timed>) {
    if run == [] then s.Playing?
    else TicksAfter(s, Ticking(s, run[..|run| - 1]), run[|run| - 1].command)
  }

  predicate TicksAfter(s: PlayStatus, before: bool, c: Command) {
    match c
    case Play => before || s.Playing? || s.Paused?
    case Pause => false
    case PlayPause => (s.Playing? || s.Paused?) && !before
    case Seek(_, _) => before
  }

  predicate Accepted(c: Command) {
    c.Seek? && c.positionMs <= c.durationMs
  }

  /**
   * What a stopwatch shows at `now`: the target of the last accepted seek, or else what it showed at `t0`, plus the
   * time spent ticking since. It never wraps, and a stopped player's watch stays at 0.
   */
  function Ideal(s: PlayStatus, t0: Time, run: seq<Timed>, now: Time): int {
    var since := if run == [] then t0 else run[|run| - 1].at;
    var ticked := if Ticking(s, run) then now - since else 0;
    if run == [] then
      (match s case Stopped => 0 case Playing(start, _) => t0 - start case _ => s.positionMs) + ticked
    else
      var last := run[|run| - 1];
      if Accepted(last.command) && !s.Stopped? then last.command.positionMs + ticked
      else Ideal(s, t0, run[..|run| - 1], last.at) + ticked
  }

  /** The status after a run agrees with the watch: same kind, ticking or not, and the same reading modulo 2^32. */
  ghost predicate Agrees(s: PlayStatus, end: PlayStatus, ticking: bool, reading: int, now: Time) {
    && end.Playing? == ticking
    && (s.Stopped? <==> end.Stopped?)
    && (s.Playing? || s.Paused? <==> end.Playing? || end.Paused?)
    && Position(end, now) == ToU32(reading)
  }

  /** One command at `at`, looked at later: the watch is set or keeps its reading, and then ticks or not. */
  lemma StepAgrees(s: PlayStatus, mid: PlayStatus, ticking: bool, reading: int, c: Command, at: Time, now: Time)
    requires Agrees(s, mid, ticking, reading, at)
    ensures var after := TicksAfter(s, ticking, c);
            Agrees(s, AfterCommand(mid, c, at), after,
                   (if Accepted(c) && !s.Stopped? then c.positionMs else reading) + (if after then now - at else 0), now)
  {
  }

  /** For every run of commands, at whatever times, the position is the watch's reading in 32 bits. */
  lemma {:induction false} PositionIsStopwatch(s: PlayStatus, t0: Time, run: seq<Timed>, now: Time)
    ensures Agrees(s, Run(s, run), Ticking(s, run), Ideal(s, t0, run, now), now)
    decreases |run|
  {
    if run == [] {
    } else {
      var last := run[|run| - 1];
      var init := run[..|run| - 1];
      PositionIsStopwatch(s, t0, init, last.at);
      StepAgrees(s, Run(s, init), Ticking(s, init), Ideal(s, t0, init, last.at), last.command, last.at, now);
    }
  }

  /** So the position is exact for exactly as long as the watch's reading fits 32 bits. */
  lemma PositionExact(s: PlayStatus, t0: Time, run: seq<Timed>, now: Time)
    ensures Position(Run(s, run), now) == Ideal(s, t0, run, now) <==> 0 <= Ideal(s, t0, run, now) < TWO_32
  {
    PositionIsStopwatch(s, t0, run, now);
  }

  // ----- commands and reports together -----

  datatype Input = Commanded(command: Command, at: Time) | Reported(report: Report, at: Time)

  function AfterInput(s: PlayStatus, i: Input): PlayStatus {
    match i
    case Commanded(c, at) => AfterCommand(s, c, at)
    case Reported(r, at) => AfterReport(s, r, at)
  }

  function RunInputs(s: PlayStatus, inputs: seq<Input>): PlayStatus {
    if inputs == [] then s else AfterInput(RunInputs(s, inputs[..|inputs| - 1]), inputs[|inputs| - 1])
  }

  ghost predicate InOrder(t0: Time, inputs: seq<Input>, now: Time) {
    && t0 <= now
    && (forall i :: 0 <= i < |inputs| ==> t0 <= inputs[i].at <= now)
    && (forall i, j :: 0 <= i < j < |inputs| ==> inputs[i].at <= inputs[j].at)
  }

  ghost predicate StartedBy(s: PlayStatus, t: Time) {
    s.Playing? ==> s.nominalStartTime <= t
  }

  /** On a clock that never runs backwards, a playing track never starts in the future. */
  lemma {:induction false} NeverStartsAhead(s: PlayStatus, t0: Time, inputs: seq<Input>, now: Time)
    requires StartedBy(s, t0) && InOrder(t0, inputs, now)
    ensures StartedBy(RunInputs(s, inputs), now)
  {
    if inputs == [] {
    } else {
      NeverStartsAhead(s, t0, inputs[..|inputs| - 1], inputs[|inputs| - 1].at);
    }
  }

  /** A report that changes nothing, as it agrees with a count that 32 bits cannot show: too long, or not begun. */
  predicate AgreesUnshown(s: PlayStatus, positionMs: u32, now: Time) {
    && s.Playing? && Abs(s.nominalStartTime - (now - positionMs)) <= 100
    && !(0 <= now - s.nominalStartTime < TWO_32)
  }

  lemma SettledBy(s: PlayStatus, positionMs: u32, now: Time)
    requires s.Playing? || s.LoadingPlay? || s.LoadingPause?
    ensures var after := AfterReport(s, At(positionMs), now);
            && after.Playing?
            && Abs(now - after.nominalStartTime - positionMs) <= 100
            && (Abs(Position(after, now) - positionMs) <= 100 <==> !AgreesUnshown(s, positionMs, now))
  {
  }

  /**
   * A Playing or PositionCorrection report that finds it playing or loading leaves it playing, with the time since
   * the nominal start within 100 ms of the report, on any clock. The position is then within 100 ms of the report as
   * well, exactly unless the report agreed with a count that 32 bits cannot show.
   */
  lemma ReportSettlesPosition(s: PlayStatus, inputs: seq<Input>, positionMs: u32, now: Time)
    requires var end := RunInputs(s, inputs); end.Playing? || end.LoadingPlay? || end.LoadingPause?
    ensures var end := RunInputs(s, inputs);
            var after := AfterReport(end, At(positionMs), now);
            && after.Playing?
            && Abs(now - after.nominalStartTime - positionMs) <= 100
            && (Abs(Position(after, now) - positionMs) <= 100 <==> !AgreesUnshown(end, positionMs, now))
  {
    SettledBy(RunInputs(s, inputs), positionMs, now);
  }

  /** On a clock that never runs backwards, only a count that has outgrown 32 bits cannot be shown. */
  lemma UnshownHasOutgrown(s: PlayStatus, t0: Time, inputs: seq<Input>, positionMs: u32, now: Time)
    requires StartedBy(s, t0) && InOrder(t0, inputs, now)
    ensures var end := RunInputs(s, inputs);
            AgreesUnshown(end, positionMs, now) ==> TWO_32 <= now - end.nominalStartTime
  {
    NeverStartsAhead(s, t0, inputs, now);
  }

  // ----- past 32 bits -----

  lemma PlayedOnce(s: PlayStatus, run: seq<Timed>, inputs: seq<Input>, t: Time, now: Time)
    requires s.Paused? && run == [Timed(Play, t)] && inputs == [Commanded(Play, t)]
    ensures Run(s, run) == RunInputs(s, inputs) == Playing(t - s.positionMs, s.preloading)
    ensures Ideal(s, t, run, now) == s.positionMs + now - t
  {
    assert run[..0] == [] && inputs[..0] == [];
    assert Run(s, []) == RunInputs(s, []) == s;
    assert Ideal(s, t, [], t) == s.positionMs;
  }

  /** Whatever it was paused at, a track left to play for 2^32 milliseconds is back there. */
  lemma PositionWraps(s: PlayStatus, run: seq<Timed>, t: Time)
    requires s.Paused? && run == [Timed(Play, t)]
    ensures Ideal(s, t, run, t + TWO_32) == s.positionMs + TWO_32
    ensures Position(Run(s, run), t + TWO_32) == s.positionMs
  {
    PlayedOnce(s, run, [Commanded(Play, t)], t, t + TWO_32);
  }

  /** A report of the last millisecond that fits, handled one millisecond later, is taken for agreement with 0. */
  lemma AgreementCanWrap(s: PlayStatus, inputs: seq<Input>, t: Time)
    requires s.Paused? && s.positionMs == 0 && inputs == [Commanded(Play, t)]
    ensures var end := RunInputs(s, inputs);
            && AgreesUnshown(end, TWO_32 - 1, t + TWO_32)
            && Position(AfterReport(end, At(TWO_32 - 1), t + TWO_32), t + TWO_32) == 0
  {
    PlayedOnce(s, [Timed(Play, t)], inputs, t, t);
  }

  /** Once the clock has been set back by 50 ms, a report of the very beginning leaves the position near 2^32. */
  lemma SetBackClockWraps(s: PlayStatus, inputs: seq<Input>, t: Time)
    requires s.Paused? && s.positionMs == 0 && inputs == [Commanded(Play, t + 50)]
    ensures var end := RunInputs(s, inputs);
            && AgreesUnshown(end, 0, t)
            && Position(AfterReport(end, At(0), t), t) == TWO_32 - 50
  {
    PlayedOnce(s, [Timed(Play, t + 50)], inputs, t + 50, t);
  }

  // ----- the object -----

  class SpircTask {
    var playStatus: PlayStatus

    constructor (playStatus: PlayStatus)
      ensures this.playStatus == playStatus
    {
      this.playStatus := playStatus;
    }

    method GetPosition(now: Time) returns (positionMs: u32)
      ensures positionMs == Position(playStatus, now)
    {
      match playStatus {
        case Stopped =>
          return 0;
        case LoadingPlay(position) =>
          return position;
        case LoadingPause(position) =>
          return position;
        case Paused(position, _) =>
          return position;
        case Playing(nominalStartTime, _) =>
          return ToU32(now - nominalStartTime);
      }
    }

    /** Goes on from where it stands: nothing is paused any more, and the position does not jump. */
    method HandlePlay(now: Time)
      modifies this
      ensures playStatus == AfterCommand(old(playStatus), Play, now)
      ensures Position(playStatus, now) == Position(old(playStatus), now)
      ensures !playStatus.Paused? && !playStatus.LoadingPause? && SameStage(playStatus, old(playStatus))
      ensures Preloading(playStatus) == Preloading(old(playStatus))
    {
      match playStatus {
        case Paused(positionMs, preloading) =>
          playStatus := Playing(now - positionMs, preloading);
        case LoadingPause(positionMs) =>
          playStatus := LoadingPlay(positionMs);
        case _ =>
      }
    }

    /** Halts where it stands: nothing plays any more, and the position is that at `now` at every later time. */
    method HandlePause(now: Time)
      modifies this
      ensures playStatus == AfterCommand(old(playStatus), Pause, now)
      ensures forall t :: Position(playStatus, t) == Position(old(playStatus), now)
      ensures !playStatus.Playing? && !playStatus.LoadingPlay? && SameStage(playStatus, old(playStatus))
      ensures Preloading(playStatus) == Preloading(old(playStatus))
    {
      match playStatus {
        case Playing(nominalStartTime, preloading) =>
          var positionMs := ToU32(now - nominalStartTime);
          playStatus := Paused(positionMs, preloading);
        case LoadingPlay(positionMs) =>
          playStatus := LoadingPause(positionMs);
        case _ =>
      }
    }

    /** Turns what runs into what is halted and back, where it stands. */
    method HandlePlayPause(now: Time)
      modifies this
      ensures playStatus == AfterCommand(old(playStatus), PlayPause, now)
      ensures Position(playStatus, now) == Position(old(playStatus), now)
      ensures !old(playStatus).Stopped? ==> Running(playStatus) == !Running(old(playStatus))
      ensures SameStage(playStatus, old(playStatus)) && Preloading(playStatus) == Preloading(old(playStatus))
    {
      if playStatus.Paused? || playStatus.LoadingPause? {
        HandlePlay(now);
      } else if playStatus.Playing? || playStatus.LoadingPlay? {
        HandlePause(now);
      }
    }

    /** Moves to the target exactly if it lies within the track and something is loaded, and changes nothing else. */
    method HandleSeek(positionMs: u32, durationMs: int, now: Time)
      modifies this
      ensures playStatus == AfterCommand(old(playStatus), Seek(positionMs, durationMs), now)
      ensures positionMs <= durationMs && !old(playStatus).Stopped? ==> Position(playStatus, now) == positionMs
      ensures durationMs < positionMs || old(playStatus).Stopped? ==> playStatus == old(playStatus)
      ensures Running(playStatus) == Running(old(playStatus)) && SameStage(playStatus, old(playStatus))
      ensures Preloading(playStatus) == Preloading(old(playStatus))
    {
      if durationMs < positionMs {
        return;
      }
      match playStatus {
        case Stopped =>
        case LoadingPause(_) =>
          playStatus := LoadingPause(positionMs);
        case LoadingPlay(_) =>
          playStatus := LoadingPlay(positionMs);
        case Paused(_, preloading) =>
          playStatus := Paused(positionMs, preloading);
        case Playing(_, preloading) =>
          playStatus := Playing(now - positionMs, preloading);
      }
    }

    /** A report of the player overrules what was counted, unless the two are as good as equal. */
    method HandlePlayerEvent(report: Report, now: Time)
      modifies this
      ensures playStatus == AfterReport(old(playStatus), report, now)
      ensures report.At? && (old(playStatus).Stopped? || old(playStatus).Paused?) ==> playStatus == old(playStatus)
      ensures report.At? && !old(playStatus).Stopped? && !old(playStatus).Paused? ==>
                playStatus.Playing? && Abs(now - playStatus.nominalStartTime - report.positionMs) <= 100
      ensures report.PausedAt? && !old(playStatus).Stopped? ==>
                playStatus.Paused? && forall t :: Position(playStatus, t) == report.positionMs
      ensures report.StoppedThere? || old(playStatus).Stopped? ==> playStatus.Stopped?
      ensures Preloading(playStatus) <==> report.At? && Preloading(old(playStatus))
    {
      match report {
        case At(positionMs) =>
          var newNominalStartTime := now - positionMs;
          match playStatus {
            case Playing(nominalStartTime, preloading) =>
              if Abs(nominalStartTime - newNominalStartTime) > 100 {
                playStatus := Playing(newNominalStartTime, preloading);
              }
            case LoadingPlay(_) =>
              playStatus := Playing(newNominalStartTime, false);
            case LoadingPause(_) =>
              playStatus := Playing(newNominalStartTime, false);
            case _ =>
          }
        case PausedAt(positionMs) =>
          if !playStatus.Stopped? {
            playStatus := Paused(positionMs, false);
          }
        case StoppedThere =>
          playStatus := Stopped;
      }
    }

    method HandleCommand(command: Command, now: Time)
      modifies this
      ensures playStatus == AfterCommand(old(playStatus), command, now)
    {
      match command {
        case Play =>
          HandlePlay(now);
        case Pause =>
          HandlePause(now);
        case PlayPause =>
          HandlePlayPause(now);
        case Seek(positionMs, durationMs) =>
          HandleSeek(positionMs, durationMs, now);
      }
    }
  }

  /**
   * The whole machine: a task that has handled any run of commands answers with the reading of the stopwatch, and
   * with no wrap if that fits 32 bits.
   */
  method AskAfter(task: SpircTask, t0: Time, run: seq<Timed>, now: Time) returns (positionMs: u32)
    modifies task
    ensures task.playStatus == Run(old(task.playStatus), run)
    ensures positionMs == ToU32(Ideal(old(task.playStatus), t0, run, now))
    ensures 0 <= Ideal(old(task.playStatus), t0, run, now) < TWO_32 ==>
              positionMs == Ideal(old(task.playStatus), t0, run, now)
  {
    ghost var s := task.playStatus;
    for i := 0 to |run|
      invariant task.playStatus == Run(s, run[..i])
    {
      assert run[..i + 1][..i] == run[..i];
      task.HandleCommand(run[i].command, run[i].at);
    }
    assert run[..|run|] == run;
    PositionIsStopwatch(s, t0, run, now);
    positionMs := task.GetPosition(now);
  }

  /** Commands and reports in any order. */
  method HandleAll(task: SpircTask, inputs: seq<Input>)
    modifies task
    ensures task.playStatus == RunInputs(old(task.playStatus), inputs)
  {
    ghost var s := task.playStatus;
    for i := 0 to |inputs|
      invariant task.playStatus == RunInputs(s, inputs[..i])
    {
      assert inputs[..i + 1][..i] == inputs[..i];
      match inputs[i] {
        case Commanded(command, at) =>
          task.HandleCommand(command, at);
        case Reported(report, at) =>
          task.HandlePlayerEvent(report, at);
      }
    }
    assert inputs[..|inputs|] == inputs;
  }
}
