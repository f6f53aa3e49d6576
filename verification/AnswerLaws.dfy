/** What a client is answered after every run, told from the events of the run: `src/server.rs`. */
module AnswerLaws {
  import opened Wrappers
  import opened NowPlaying
  import opened NowPlayingRuns
  import opened ApiServer
  import opened PublishedLaws

  /** A client that is let in, whose writer runs and whose queue takes two more lines. */
  predicate Ready(place: Place) {
    place.Registered? && place.c.open && |place.c.queue| + 2 <= 16
  }

  function Asked(run: seq<Timely>, id: nat, r: Request, at: Time): seq<Timely> {
    run + [Timely(Requested(id, r), at)]
  }

  lemma AnswersQueued(start: Time, run: seq<Timely>, id: nat, r: Request, at: Time)
    requires Ready(PlaceOf(Run(start, run), id))
    ensures var c, p := PlaceOf(Run(start, run), id).c, Run(start, run).published;
            var m := Marked(c, r);
            PlaceOf(Run(start, Asked(run, id, r, at)), id)
            == Registered(m.(queue := c.queue + Stamped(Answers(p, c.subscribed, r, at), at)))
  {
    var c, p := PlaceOf(Run(start, run), id).c, Run(start, run).published;
    StepMore(start, run, Timely(Requested(id, r), at), id);
    OfferAllExactly(Marked(c, r), Stamped(Answers(p, c.subscribed, r, at), at));
  }

  lemma StampedOne(line: Line, at: Time)
    ensures Stamped([line], at) == [Entry(line, at)]
  {
  }

  /** The volume is answered with the latest volume event, of Spotify or of the session then on the air. */
  lemma VolumeAnswered(start: Time, run: seq<Timely>, id: nat, at: Time, i: nat)
    requires Ready(PlaceOf(Run(start, run), id))
    requires var events := EventsOf(run);
             i < |events| && SetsVolumeAt(events, i) && forall j :: i < j < |events| ==> !SetsVolumeAt(events, j)
    ensures var c := PlaceOf(Run(start, run), id).c;
            PlaceOf(Run(start, Asked(run, id, GetVolume, at)), id)
            == Registered(c.(queue := c.queue + [Entry(VolumeAnswer(VolumeOf(EventsOf(run)[i].event)), at)]))
  {
    AnswersQueued(start, run, id, GetVolume, at);
    PublishedByEvents(start, run);
    VolumeIsLatest(start, EventsOf(run), i);
    StampedOne(VolumeAnswer(VolumeOf(EventsOf(run)[i].event)), at);
  }

  /** The current track is answered with the one announced last. */
  lemma TrackAnswered(start: Time, run: seq<Timely>, id: nat, at: Time, i: nat) returns (track: Track)
    requires Ready(PlaceOf(Run(start, run), id)) && LatestAnnouncement(EventsOf(run), i)
    ensures Describes(track, EventsOf(run)[i].event)
    ensures AnnouncedLength(EventsOf(run)[i].event) != 0 ==> track.durationMs == AnnouncedLength(EventsOf(run)[i].event)
    ensures var c := PlaceOf(Run(start, run), id).c;
            PlaceOf(Run(start, Asked(run, id, CurrentTrack, at)), id)
            == Registered(c.(queue := c.queue + [Entry(TrackAnswer(track), at)]))
  {
    track := Run(start, run).published.track;
    AnswersQueued(start, run, id, CurrentTrack, at);
    PublishedByEvents(start, run);
    TrackIsLatest(start, EventsOf(run), i);
    StampedOne(TrackAnswer(track), at);
  }

  /** A status is answered with a snapshot: halted, where it was reported to stand; playing, that and the time since. */
  lemma StatusAnswered(start: Time, run: seq<Timely>, id: nat, at: Time, i: nat, d: Option<nat>) returns (line: Line)
    requires Ready(PlaceOf(Run(start, run), id)) && LatestReport(EventsOf(run), i) && DecidedBy(EventsOf(run), d)
    ensures line.SnapshotLine?
    ensures line.isPlaying <==> d.Some? && IsStart(EventsOf(run)[d.value].event)
    ensures !line.isPlaying ==> line.positionMs == ReportedPosition(EventsOf(run)[i].event)
    ensures line.isPlaying && line.track.durationMs == 0 && EventsOf(run)[i].at <= at ==>
              var counted := ReportedPosition(EventsOf(run)[i].event) + (at - EventsOf(run)[i].at);
              line.positionMs == if 4294967295 < counted then 4294967295 else counted
    ensures var c := PlaceOf(Run(start, run), id).c;
            PlaceOf(Run(start, Asked(run, id, Status, at)), id)
            == Registered(c.(queue := c.queue + [Entry(line, at)]))
  {
    line := Snapshot(Run(start, run).published, at);
    AnswersQueued(start, run, id, Status, at);
    PublishedByEvents(start, run);
    SnapshotSays(start, EventsOf(run), i, d, at);
    StampedOne(line, at);
  }

  /** Subscribing puts a client on the list, unsubscribing takes it off, and a player command is not answered. */
  lemma OthersAnswered(start: Time, run: seq<Timely>, id: nat, at: Time)
    requires Ready(PlaceOf(Run(start, run), id))
    ensures var c := PlaceOf(Run(start, run), id).c;
            && PlaceOf(Run(start, Asked(run, id, Unsubscribe, at)), id) == Registered(c.(subscribed := false))
            && PlaceOf(Run(start, Asked(run, id, Command, at)), id) == Registered(c)
            && Listens(PlaceOf(Run(start, Asked(run, id, Subscribe, at)), id))
  {
    var c := PlaceOf(Run(start, run), id).c;
    AnswersQueued(start, run, id, Unsubscribe, at);
    AnswersQueued(start, run, id, Command, at);
    AnswersQueued(start, run, id, Subscribe, at);
    assert c.queue + Stamped([], at) == c.queue;
  }
}
