/**
 * The queue of contexts still to be resolved, `connect/src/context_resolver.rs`, in the order
 * `connect/src/spirc.rs` calls it.
 */
module ContextResolvers {
  import opened Wrappers

  /** Nanoseconds. */
  type Time = nat

  const RETRY_UNAVAILABLE: Time := 3600 * 1_000_000_000
  const SEARCH_IDENTIFIER: string := "spotify:search"

  /** A context's uri, and the uris of the tracks on each of its pages. */
  datatype Context = Context(uri: Option<string>, pages: seq<seq<Option<string>>>)

  datatype Resolve = Uri(uri: string) | Given(context: Context)

  datatype ContextType = Default | Autoplay

  datatype ContextAction = Append | Replace

  datatype Entry = Entry(resolve: Resolve, fallback: Option<string>, update: ContextType, action: ContextAction)

  function ValidResolveUri(uri: string): Option<string> {
    if uri == [] || SEARCH_IDENTIFIER <= uri then None else Some(uri)
  }

  function OrElse(a: Option<string>, b: Option<string>): Option<string> {
    if a.Some? then a else b
  }

  function FindValidUri(context: Context): Option<string> {
    var own := if context.uri.Some? then ValidResolveUri(context.uri.value) else None;
    var track := if context.pages != [] && context.pages[0] != [] then context.pages[0][0] else None;
    OrElse(own, track)
  }

  /** The uri to resolve an entry with, if it has one. */
  function ResolveUri(e: Entry): Option<string> {
    match e.resolve
    case Uri(uri) => OrElse(ValidResolveUri(uri), e.fallback)
    case Given(context) => OrElse(FindValidUri(context), e.fallback)
  }

  /** Neither nothing nor a search. */
  predicate Usable(uri: string) {
    uri != "" && !(14 <= |uri| && uri[..14] == "spotify:search")
  }

  /** The uri an entry is resolved with: its own if usable, or the first track's of a given context, or the fallback. */
  lemma ResolvedWith(e: Entry)
    ensures match e.resolve
            case Uri(uri) => ResolveUri(e) == if Usable(uri) then Some(uri) else e.fallback
            case Given(context) =>
              if context.uri.Some? && Usable(context.uri.value) then ResolveUri(e) == context.uri
              else if context.pages != [] && context.pages[0] != [] && context.pages[0][0].Some?
              then ResolveUri(e) == context.pages[0][0]
              else ResolveUri(e) == e.fallback
  {
    assert |SEARCH_IDENTIFIER| == 14;
    match e.resolve
    case Uri(uri) => assert SEARCH_IDENTIFIER <= uri <==> 14 <= |uri| && uri[..14] == "spotify:search";
    case Given(context) =>
      if context.uri.Some? {
        var uri := context.uri.value;
        assert SEARCH_IDENTIFIER <= uri <==> 14 <= |uri| && uri[..14] == "spotify:search";
      }
  }

  // ----- the queue as a value -----

  datatype State = State(queue: seq<Entry>, unavailable: map<Entry, Time>)

  /** The entries that can be resolved, in order. */
  function Resolvable(s: seq<Entry>): seq<Entry> {
    if s == [] then []
    else if ResolveUri(s[0]).Some? then [s[0]] + Resolvable(s[1..])
    else Resolvable(s[1..])
  }

  /** Where the first entry that can be resolved stands. */
  function FirstResolvable(s: seq<Entry>): (r: Option<nat>)
    ensures r.Some? ==> r.value < |s| && ResolveUri(s[r.value]).Some?
    ensures r.Some? ==> forall i :: 0 <= i < r.value ==> ResolveUri(s[i]).None?
    ensures r.None? ==> forall i :: 0 <= i < |s| ==> ResolveUri(s[i]).None?
  {
    if s == [] then None
    else if ResolveUri(s[0]).Some? then Some(0)
    else
      assert forall i :: 0 < i < |s| ==> s[i] == s[1..][i - 1];
      match FirstResolvable(s[1..])
      case None => None
      case Some(i) => Some(i + 1)
  }

  /** Still within the hour after it was found unavailable. */
  predicate Refused(st: State, e: Entry, now: Time) {
    e in st.unavailable && now <= st.unavailable[e] + RETRY_UNAVAILABLE
  }

  predicate Accepts(st: State, e: Entry, now: Time) {
    !Refused(st, e, now) && e !in st.queue
  }

  function AfterAdd(st: State, e: Entry, now: Time): State {
    if Refused(st, e, now) then st
    else
      var retried := State(st.queue, st.unavailable - {e});
      if e in st.queue then retried else retried.(queue := st.queue + [e])
  }

  function AfterAddList(st: State, es: seq<Entry>, now: Time): State
    decreases |es|
  {
    if es == [] then st else AfterAddList(AfterAdd(st, es[0], now), es[1..], now)
  }

  function AfterMark(st: State, now: Time): State {
    match FirstResolvable(st.queue)
    case None => st
    case Some(i) => st.(unavailable := st.unavailable[st.queue[i] := now])
  }

  function AfterRemove(st: State): State {
    match FirstResolvable(st.queue)
    case Some(i) => st.(queue := st.queue[i + 1..])
    case None => if st.queue == [] then st else st.(queue := st.queue[1..])
  }

  class ContextResolver {
    var queue: seq<Entry>
    var unavailable: map<Entry, Time>

    function Model(): State
      reads this
    {
      State(queue, unavailable)
    }

    constructor ()
      ensures Model() == State([], map[])
    {
      queue, unavailable := [], map[];
    }

    method Add(resolve: Entry, now: Time)
      modifies this
      ensures Model() == AfterAdd(old(Model()), resolve, now)
    {
      var lastTry := if resolve in unavailable then Some(unavailable[resolve]) else None;
      if lastTry.Some? && now - lastTry.value > RETRY_UNAVAILABLE {
        unavailable := unavailable - {resolve};
        lastTry := None;
      }
      if lastTry.Some? {
        return;
      } else if resolve in queue {
        assert resolve !in unavailable ==> unavailable - {resolve} == unavailable;
        return;
      }
      assert resolve !in unavailable ==> unavailable - {resolve} == unavailable;
      queue := queue + [resolve];
    }

    method AddList(resolve: seq<Entry>, now: Time)
      modifies this
      ensures Model() == AfterAddList(old(Model()), resolve, now)
    {
      for i := 0 to |resolve|
        invariant AfterAddList(Model(), resolve[i..], now) == AfterAddList(old(Model()), resolve, now)
      {
        assert resolve[i..][1..] == resolve[i + 1..];
        Add(resolve[i], now);
      }
    }

    method FindNext() returns (r: Option<nat>)
      ensures r == FirstResolvable(queue)
    {
      for idx := 0 to |queue|
        invariant forall i :: 0 <= i < idx ==> ResolveUri(queue[i]).None?
      {
        if ResolveUri(queue[idx]).Some? {
          return Some(idx);
        }
      }
      return None;
    }

    method RemoveUsedAndInvalid()
      modifies this
      ensures Model() == AfterRemove(old(Model()))
      ensures FirstResolvable(old(queue)).Some? ==> queue == old(queue)[FirstResolvable(old(queue)).value + 1..]
      ensures FirstResolvable(old(queue)).None? && old(queue) != [] ==> queue == old(queue)[1..]
      ensures unavailable == old(unavailable)
    {
      var next := FindNext();
      if next.Some? {
        queue := queue[next.value..];
      }
      if queue != [] {
        queue := queue[1..];
      }
    }

    method Clear()
      modifies this
      ensures Model() == State([], old(unavailable))
    {
      queue := [];
    }

    method MarkNextUnavailable(now: Time)
      modifies this
      ensures Model() == AfterMark(old(Model()), now)
    {
      var next := FindNext();
      if next.Some? {
        unavailable := unavailable[queue[next.value] := now];
      }
    }
  }

  // ----- runs -----

  /** What the connect task does with the resolver, each at a moment in time. */
  datatype Action =
    | Add(e: Entry)
    | Clear
    | ResolveFailed
    | ResolveDone(remaining: seq<Entry>, autoplay: seq<Entry>)

  datatype Event = Event(action: Action, at: Time)

  /** `handle_next_context` adds nothing unless there was an entry to apply the context for. */
  function Additions(st: State, action: Action): seq<Entry> {
    match action
    case Add(e) => [e]
    case ResolveDone(remaining, autoplay) =>
      if FirstResolvable(st.queue).Some? then remaining + autoplay else []
    case _ => []
  }

  function Step(st: State, event: Event): State {
    match event.action
    case Add(e) => AfterAdd(st, e, event.at)
    case Clear => State([], st.unavailable)
    case ResolveFailed => AfterRemove(AfterMark(st, event.at))
    case ResolveDone(_, _) => AfterRemove(AfterAddList(st, Additions(st, event.action), event.at))
  }

  function Run(events: seq<Event>): State {
    if events == [] then State([], map[])
    else Step(Run(events[..|events| - 1]), events[|events| - 1])
  }

  /** The entry an event takes off the queue. */
  function Handles(st: State, action: Action): seq<Entry> {
    match FirstResolvable(st.queue)
    case Some(i) => if action.ResolveFailed? || action.ResolveDone? then [st.queue[i]] else []
    case None => []
  }

  /** Of the entries offered one after another, those that are queued. */
  function Taken(st: State, es: seq<Entry>, now: Time): seq<Entry>
    decreases |es|
  {
    if es == [] then []
    else (if Accepts(st, es[0], now) then [es[0]] else []) + Taken(AfterAdd(st, es[0], now), es[1..], now)
  }

  /** Everything queued since the last clear, in order. */
  function Accepted(events: seq<Event>): seq<Entry> {
    if events == [] then []
    else
      var before, event := events[..|events| - 1], events[|events| - 1];
      if event.action.Clear? then []
      else Accepted(before) + Taken(Run(before), Additions(Run(before), event.action), event.at)
  }

  /** Everything handled since the last clear, in order. */
  function Handled(events: seq<Event>): seq<Entry> {
    if events == [] then []
    else
      var before, event := events[..|events| - 1], events[|events| - 1];
      if event.action.Clear? then [] else Handled(before) + Handles(Run(before), event.action)
  }

  /** The resolver's part in `handle_next_context`: the outcome of a resolve reaches the queue in this order. */
  method HandleNextContext(resolver: ContextResolver, outcome: Action, now: Time)
    requires outcome.ResolveFailed? || outcome.ResolveDone?
    modifies resolver
    ensures resolver.Model() == Step(old(resolver.Model()), Event(outcome, now))
  {
    if outcome.ResolveFailed? {
      resolver.MarkNextUnavailable(now);
      resolver.RemoveUsedAndInvalid();
      return;
    }
    var next := resolver.FindNext();
    if next.Some? {
      resolver.AddList(outcome.remaining + outcome.autoplay, now);
    }
    resolver.RemoveUsedAndInvalid();
  }

  // ----- the queue never holds an entry twice -----

  ghost predicate Distinct(s: seq<Entry>) {
    forall i, j :: 0 <= i < j < |s| ==> s[i] != s[j]
  }

  lemma {:induction false} AddListShape(st: State, es: seq<Entry>, now: Time)
    ensures AfterAddList(st, es, now).queue == st.queue + Taken(st, es, now)
    ensures Distinct(st.queue) ==> Distinct(AfterAddList(st, es, now).queue)
    decreases |es|
  {
    if es == [] {
    } else {
      var next := AfterAdd(st, es[0], now);
      AddListShape(next, es[1..], now);
      assert next.queue == st.queue + if Accepts(st, es[0], now) then [es[0]] else [];
    }
  }

  lemma {:induction false} QueueDistinct(events: seq<Event>)
    ensures Distinct(Run(events).queue)
  {
    if events == [] {
    } else {
      var before, event := Run(events[..|events| - 1]), events[|events| - 1];
      QueueDistinct(events[..|events| - 1]);
      AddListShape(before, Additions(before, event.action), event.at);
    }
  }

  // ----- first in, first out -----

  lemma {:induction false} ResolvableConcat(a: seq<Entry>, b: seq<Entry>)
    ensures Resolvable(a + b) == Resolvable(a) + Resolvable(b)
  {
    if a == [] {
      assert a + b == b;
    } else {
      ResolvableConcat(a[1..], b);
      assert (a + b)[1..] == a[1..] + b;
    }
  }

  /** Dropping up to and with the first resolvable entry takes exactly that one out of the resolvable ones. */
  lemma {:induction false} ResolvableSplit(s: seq<Entry>)
    ensures FirstResolvable(s).None? ==> Resolvable(s) == []
    ensures FirstResolvable(s).Some? ==> var i := FirstResolvable(s).value; Resolvable(s) == [s[i]] + Resolvable(s[i + 1..])
  {
    if s != [] && ResolveUri(s[0]).None? {
      ResolvableSplit(s[1..]);
      if FirstResolvable(s).Some? {
        assert s[1..][FirstResolvable(s).value..] == s[FirstResolvable(s).value + 1..];
      }
    }
  }

  lemma RemoveHandles(st: State, action: Action)
    requires action.ResolveFailed? || action.ResolveDone?
    ensures Resolvable(st.queue) == Handles(st, action) + Resolvable(AfterRemove(st).queue)
  {
    ResolvableSplit(st.queue);
    if FirstResolvable(st.queue).None? && st.queue != [] {
      ResolvableSplit(st.queue[1..]);
    }
  }

  /** What was handled, followed by what can still be handled, is what could be handled of all that was accepted. */
  lemma {:induction false} FirstInFirstOut(events: seq<Event>)
    ensures Handled(events) + Resolvable(Run(events).queue) == Resolvable(Accepted(events))
  {
    if events == [] {
    } else {
      var prefix, event := events[..|events| - 1], events[|events| - 1];
      var st := Run(prefix);
      if !event.action.Clear? {
        var handled, left := Handles(st, event.action), Resolvable(Run(events).queue);
        var taken := Taken(st, Additions(st, event.action), event.at);
        calc {
          Handled(prefix) + handled + left;
        == { Reassociate(Handled(prefix), handled, left); StepInOrder(st, event); }
          Handled(prefix) + (Resolvable(st.queue) + Resolvable(taken));
        == { Reassociate(Handled(prefix), Resolvable(st.queue), Resolvable(taken)); FirstInFirstOut(prefix); }
          Resolvable(Accepted(prefix)) + Resolvable(taken);
        == { ResolvableConcat(Accepted(prefix), taken); }
          Resolvable(Accepted(prefix) + taken);
        }
      }
    }
  }

  lemma FirstResolvableAppend(a: seq<Entry>, b: seq<Entry>)
    requires FirstResolvable(a).Some?
    ensures FirstResolvable(a + b) == FirstResolvable(a)
  {
    var i := FirstResolvable(a).value;
    assert (a + b)[i] == a[i] && forall j :: 0 <= j < i ==> (a + b)[j] == a[j];
  }

  /** One event: what it handles and what is left make up what was there and what it added. */
  lemma StepInOrder(st: State, event: Event)
    requires !event.action.Clear?
    ensures Handles(st, event.action) + Resolvable(Step(st, event).queue)
         == Resolvable(st.queue) + Resolvable(Taken(st, Additions(st, event.action), event.at))
  {
    var taken := Taken(st, Additions(st, event.action), event.at);
    AddListShape(st, Additions(st, event.action), event.at);
    var grown := AfterAddList(st, Additions(st, event.action), event.at);
    ResolvableConcat(st.queue, taken);
    match event.action
    case Add(e) =>
      assert grown == AfterAdd(st, e, event.at);
    case ResolveFailed =>
      RemoveHandles(AfterMark(st, event.at), event.action);
    case ResolveDone(_, _) =>
      RemoveHandles(grown, event.action);
      if FirstResolvable(st.queue).Some? {
        FirstResolvableAppend(st.queue, taken);
      } else {
        assert grown == st;
      }
  }

  // ----- a failed entry stays out for an hour -----

  ghost predicate InOrder(events: seq<Event>) {
    forall i, j :: 0 <= i < j < |events| ==> events[i].at <= events[j].at
  }

  /** The i-th event is the failed resolve of `e`. */
  ghost predicate FailedAt(events: seq<Event>, i: nat, e: Entry) {
    && i < |events| && events[i].action.ResolveFailed?
    && Handles(Run(events[..i]), events[i].action) == [e]
  }

  /** Marked at time t, and not queued. */
  predicate Out(st: State, e: Entry, t: Time) {
    e in st.unavailable && st.unavailable[e] == t && e !in st.queue
  }

  lemma {:induction false} AddListKeepsOut(st: State, es: seq<Entry>, now: Time, e: Entry, t: Time)
    requires Out(st, e, t) && now <= t + RETRY_UNAVAILABLE
    ensures Out(AfterAddList(st, es, now), e, t)
    decreases |es|
  {
    if es == [] {
    } else {
      AddListKeepsOut(AfterAdd(st, es[0], now), es[1..], now, e, t);
    }
  }

  lemma StepKeepsOut(st: State, event: Event, e: Entry, t: Time)
    requires Out(st, e, t) && event.at <= t + RETRY_UNAVAILABLE
    ensures Out(Step(st, event), e, t)
  {
    if event.action.ResolveDone? {
      AddListKeepsOut(st, Additions(st, event.action), event.at, e, t);
    }
  }

  lemma FailureMakesOut(st: State, event: Event, e: Entry)
    requires Distinct(st.queue) && event.action.ResolveFailed? && Handles(st, event.action) == [e]
    ensures Out(Step(st, event), e, event.at)
  {
    var k := FirstResolvable(st.queue).value;
    assert st.queue[k] == e;
    var rest := st.queue[k + 1..];
    assert forall m :: 0 <= m < |rest| ==> rest[m] == st.queue[k + 1 + m];
  }

  lemma RunSnoc(events: seq<Event>, i: nat)
    requires i < |events|
    ensures Run(events[..i + 1]) == Step(Run(events[..i]), events[i])
  {
    assert events[..i + 1][..i] == events[..i];
  }

  lemma {:induction false} OutPersists(events: seq<Event>, i: nat, j: nat, e: Entry, t: Time)
    requires i <= j <= |events| && Out(Run(events[..i]), e, t)
    requires forall k :: i <= k < j ==> events[k].at <= t + RETRY_UNAVAILABLE
    ensures Out(Run(events[..j]), e, t)
    decreases j
  {
    if i < j {
      OutPersists(events, i, j - 1, e, t);
      RunSnoc(events, j - 1);
      StepKeepsOut(Run(events[..j - 1]), events[j - 1], e, t);
    }
  }

  lemma FailedIsOutAtOnce(events: seq<Event>, i: nat, e: Entry)
    requires FailedAt(events, i, e)
    ensures Out(Run(events[..i + 1]), e, events[i].at)
  {
    RunSnoc(events, i);
    QueueDistinct(events[..i]);
    FailureMakesOut(Run(events[..i]), events[i], e);
  }

  lemma FailedIsOut(events: seq<Event>, i: nat, j: nat, e: Entry)
    requires InOrder(events) && FailedAt(events, i, e) && i < j <= |events|
    requires events[j - 1].at <= events[i].at + RETRY_UNAVAILABLE
    ensures Out(Run(events[..j]), e, events[i].at)
  {
    FailedIsOutAtOnce(events, i, e);
    OutPersists(events, i + 1, j, e, events[i].at);
  }

  lemma {:induction false} AddListMarksNothing(st: State, es: seq<Entry>, now: Time, e: Entry)
    requires e in AfterAddList(st, es, now).unavailable
    ensures e in st.unavailable && AfterAddList(st, es, now).unavailable[e] == st.unavailable[e]
    decreases |es|
  {
    if es == [] {
    } else {
      AddListMarksNothing(AfterAdd(st, es[0], now), es[1..], now, e);
    }
  }

  lemma StepMarks(st: State, event: Event, e: Entry)
    requires e in Step(st, event).unavailable
    ensures var t := Step(st, event).unavailable[e];
            || (e in st.unavailable && st.unavailable[e] == t)
            || (event.action.ResolveFailed? && Handles(st, event.action) == [e] && event.at == t)
  {
    if event.action.ResolveDone? {
      AddListMarksNothing(st, Additions(st, event.action), event.at, e);
    }
  }

  /** Every mark is the mark of some failed resolve. */
  lemma {:induction false} MarkedHasFailed(events: seq<Event>, e: Entry) returns (i: nat)
    requires e in Run(events).unavailable
    ensures FailedAt(events, i, e) && events[i].at == Run(events).unavailable[e]
  {
    var prefix, event := events[..|events| - 1], events[|events| - 1];
    var st := Run(prefix);
    StepMarks(st, event, e);
    if e in st.unavailable && st.unavailable[e] == Run(events).unavailable[e] {
      i := MarkedHasFailed(prefix, e);
      assert events[..i] == prefix[..i];
    } else {
      i := |events| - 1;
    }
  }

  /** An entry is refused exactly when a resolve of it failed within the last hour. */
  lemma {:induction false} RefusedExactlyAfterFailure(events: seq<Event>, e: Entry, now: Time)
    requires InOrder(events) && (events != [] ==> events[|events| - 1].at <= now)
    ensures Refused(Run(events), e, now) <==>
            exists i: nat :: FailedAt(events, i, e) && now <= events[i].at + 3600 * 1_000_000_000
  {
    if Refused(Run(events), e, now) {
      var i := MarkedHasFailed(events, e);
    }
    forall i: nat | FailedAt(events, i, e) && now <= events[i].at + RETRY_UNAVAILABLE
      ensures Refused(Run(events), e, now)
    {
      FailedIsOut(events, i, |events|, e);
      assert events[..|events|] == events;
    }
  }

  /** An entry that is asked for is queued, last, exactly unless it is queued already or failed within the hour. */
  lemma QueuedExactly(events: seq<Event>, e: Entry, now: Time)
    requires InOrder(events) && (events != [] ==> events[|events| - 1].at <= now)
    ensures Step(Run(events), Event(Add(e), now)).queue
         == if || e in Run(events).queue
               || exists i: nat :: FailedAt(events, i, e) && now <= events[i].at + 3600 * 1_000_000_000
            then Run(events).queue
            else Run(events).queue + [e]
  {
    RefusedExactlyAfterFailure(events, e, now);
  }

  /** An entry whose resolve failed is not in the queue at any moment of the following hour. */
  lemma OutForAnHour(events: seq<Event>, i: nat, j: nat, e: Entry)
    requires InOrder(events) && FailedAt(events, i, e) && i < j <= |events|
    requires events[j - 1].at <= events[i].at + 3600 * 1_000_000_000
    ensures e !in Run(events[..j]).queue
  {
    FailedIsOut(events, i, j, e);
  }
}
