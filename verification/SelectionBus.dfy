/**
 * control_plane/weaver_service.py publishes a selected action on the debounced bus, and the runner
 * enqueues it when the bus dispatches it: which selected actions are verified, and from when on.
 */
module SelectionBus {
  import opened Prelude
  import opened Jobs
  import opened StateLog
  import opened StateStore
  import opened Evaluator
  import opened VerificationRunner
  import opened RunnerRuns
  import RunnerVerdicts
  import D = Debouncer

  const SELECTED: string := "ACTION_SELECTED"

  /** The bus, the runner's world, and the wall clock. */
  datatype Both = Both(bus: D.System<Selected>, world: World, clock: int)

  /** An action is published, the timer of a deferred one runs, or anything else happens. */
  datatype Event =
    | Publish(at: real, now: int, action: Selected, freshId: JobId)
    | Expire(at: real, now: int, timer: nat, freshId: JobId)
    | Other(call: Call)

  function StartBoth(): Both {
    Both(D.Start(), EMPTY, 0)
  }

  function InputOf(e: Event): D.Input<Selected>
    requires !e.Other?
  {
    if e.Publish? then D.Publish(e.at, SELECTED, e.action) else D.Expire(e.at, e.timer)
  }

  function Due(window: real, s: Both): real {
    D.LastFire(s.bus.bus, SELECTED) + window
  }

  /** The action that the bus hands to the runner in this step. */
  function Handed(window: real, s: Both, e: Event): Option<Selected> {
    match e
    case Publish(at, _, action, _) => if Due(window, s) <= at then Some(action) else None
    case Expire(_, _, timer, _) => if timer in s.bus.bus.live then Some(s.bus.bus.live[timer].payload) else None
    case Other(_) => None
  }

  /** What the step is to the runner. */
  function CallFor(window: real, s: Both, e: Event): Call {
    match e
    case Other(call) => call
    case _ =>
      match Handed(window, s, e)
      case Some(action) => Select(e.now, Some(action), e.freshId)
      case None => Write(e.now, [])
  }

  predicate LegalEvent(window: real, s: Both, e: Event) {
    && Legal(s.world, s.clock, CallFor(window, s, e))
    && match e
       case Other(call) => !call.Select?
       case _ => D.Legal(s.bus, InputOf(e))
  }

  function StepBoth(env: Env, window: real, s: Both, e: Event): Both
    requires LegalEvent(window, s, e)
  {
    var call := CallFor(window, s, e);
    Both(if e.Other? then s.bus else D.Step(window, s.bus, InputOf(e)), AfterCall(env, s.world, call), call.now)
  }

  predicate IsRunOfBoth(env: Env, window: real, s: Both, events: seq<Event>)
    decreases |events|
  {
    events == [] || (LegalEvent(window, s, events[0])
                     && IsRunOfBoth(env, window, StepBoth(env, window, s, events[0]), events[1..]))
  }

  function AfterBoth(env: Env, window: real, s: Both, events: seq<Event>): Both
    requires IsRunOfBoth(env, window, s, events)
    decreases |events|
  {
    if events == [] then s else AfterBoth(env, window, StepBoth(env, window, s, events[0]), events[1..])
  }

  // ---- verified if and only if dispatched ------------------------------------------------------

  function CallsOf(env: Env, window: real, s: Both, events: seq<Event>): seq<Call>
    requires IsRunOfBoth(env, window, s, events)
    decreases |events|
  {
    if events == [] then []
    else [CallFor(window, s, events[0])] + CallsOf(env, window, StepBoth(env, window, s, events[0]), events[1..])
  }

  /** The runner lives a life, so all that is proved of lives holds. */
  lemma {:induction false} RunIsALife(env: Env, window: real, s: Both, events: seq<Event>)
    requires IsRunOfBoth(env, window, s, events)
    ensures IsLife(env, s.world, s.clock, CallsOf(env, window, s, events))
    ensures AfterCalls(env, s.world, s.clock, CallsOf(env, window, s, events))
         == AfterBoth(env, window, s, events).world
    decreases |events|
  {
    if events != [] {
      var s1 := StepBoth(env, window, s, events[0]);
      RunIsALife(env, window, s1, events[1..]);
      assert CallsOf(env, window, s, events)[1..] == CallsOf(env, window, s1, events[1..]);
    }
  }

  /** The dedupe keys of the dispatched actions that ask for verification. */
  function DispatchedKeys(env: Env, log: seq<D.Dispatch<Selected>>): seq<string> {
    if log == [] then []
    else
      var a := log[|log| - 1].payload;
      DispatchedKeys(env, log[..|log| - 1]) + if a.verification.Some? then [KeyOf(env, a)] else []
  }

  lemma StepLog(env: Env, window: real, s: Both, e: Event) returns (sent: seq<D.Dispatch<Selected>>)
    requires LegalEvent(window, s, e)
    ensures StepBoth(env, window, s, e).bus.bus.log == s.bus.bus.log + sent
    ensures match Handed(window, s, e)
            case Some(action) => |sent| == 1 && sent[0].payload == action
            case None => sent == []
  {
    var log, log' := s.bus.bus.log, StepBoth(env, window, s, e).bus.bus.log;
    sent := log'[|log|..];
  }

  lemma KeysOfCall(env: Env, window: real, s: Both, e: Event)
    requires LegalEvent(window, s, e)
    ensures SelectedKeys(env, [CallFor(window, s, e)])
         == match Handed(window, s, e)
            case Some(action) => if action.verification.Some? then [KeyOf(env, action)] else []
            case None => []
  {
    assert [CallFor(window, s, e)][1..] == [];
  }

  lemma StepDispatches(env: Env, window: real, s: Both, e: Event)
    requires LegalEvent(window, s, e)
    ensures DispatchedKeys(env, StepBoth(env, window, s, e).bus.bus.log)
         == DispatchedKeys(env, s.bus.bus.log) + SelectedKeys(env, [CallFor(window, s, e)])
  {
    var log := s.bus.bus.log;
    var sent := StepLog(env, window, s, e);
    KeysOfCall(env, window, s, e);
    if sent == [] {
      assert log + sent == log;
    } else {
      assert (log + sent)[..|log|] == log;
    }
  }

  lemma FirstKeys(env: Env, first: Call, rest: seq<Call>)
    ensures SelectedKeys(env, [first] + rest) == SelectedKeys(env, [first]) + SelectedKeys(env, rest)
  {
    assert ([first] + rest)[1..] == rest && [first][1..] == [];
  }

  lemma Associates<T>(a: seq<T>, b: seq<T>, c: seq<T>)
    ensures a + b + c == a + (b + c)
  {
  }

  lemma {:induction false} RunDispatches(env: Env, window: real, s: Both, events: seq<Event>)
    requires IsRunOfBoth(env, window, s, events)
    ensures DispatchedKeys(env, AfterBoth(env, window, s, events).bus.bus.log)
         == DispatchedKeys(env, s.bus.bus.log) + SelectedKeys(env, CallsOf(env, window, s, events))
    decreases |events|
  {
    if events != [] {
      var s1, first := StepBoth(env, window, s, events[0]), CallFor(window, s, events[0]);
      var rest := CallsOf(env, window, s1, events[1..]);
      StepDispatches(env, window, s, events[0]);
      RunDispatches(env, window, s1, events[1..]);
      FirstKeys(env, first, rest);
      Associates(DispatchedKeys(env, s.bus.bus.log), SelectedKeys(env, [first]), SelectedKeys(env, rest));
    }
  }

  /**
   * A selected action is enqueued if and only if the bus dispatches it: the count of enqueued jobs is
   * that of the dispatched actions with a verification, and there is a job for exactly their keys.
   */
  lemma VerifiedExactlyIfDispatched(env: Env, window: real, events: seq<Event>)
    requires IsRunOfBoth(env, window, StartBoth(), events)
    ensures var s := AfterBoth(env, window, StartBoth(), events); var keys := DispatchedKeys(env, s.bus.bus.log);
            && s.world.metrics.enqueued == |keys| && |s.world.jobs| == |ToSet(keys)|
            && s.world.dedupe.Keys == ToSet(keys)
  {
    var calls := CallsOf(env, window, StartBoth(), events);
    RunIsALife(env, window, StartBoth(), events);
    RunDispatches(env, window, StartBoth(), events);
    assert DispatchedKeys(env, []) + SelectedKeys(env, calls) == SelectedKeys(env, calls);
    EnqueuedExactly(env, calls);
    CallsCount(env, EMPTY, 0, calls);
  }

  // ---- judged from its publication if and only if dispatched at once ----------------------------

  /** The action waits in the one live timer of the event. */
  predicate WaitsIn(s: Both, action: Selected, timer: nat) {
    && SELECTED in s.bus.bus.timers && s.bus.bus.timers[SELECTED] == timer
    && timer in s.bus.bus.live && s.bus.bus.live[timer].event == SELECTED && s.bus.bus.live[timer].payload == action
  }

  /** A published action is selected in the world as it stands, or waits and nothing happens to the world. */
  lemma PublishedNowOrWaits(env: Env, window: real, s: Both, e: Event)
    requires LegalEvent(window, s, e) && e.Publish?
    ensures var s' := StepBoth(env, window, s, e);
            if Due(window, s) <= e.at
            then s'.world == AfterSelect(env, s.world, Some(e.action), e.now, e.freshId)
            else s'.world == s.world && WaitsIn(s', e.action, s.bus.bus.nextId)
  {
    assert s.world.log + [] == s.world.log;
  }

  predicate NothingPublished(events: seq<Event>) {
    forall i :: 0 <= i < |events| ==> events[i].Other?
  }

  lemma {:induction false} StillWaits(env: Env, window: real, s: Both, events: seq<Event>, action: Selected, timer: nat)
    requires IsRunOfBoth(env, window, s, events) && NothingPublished(events) && WaitsIn(s, action, timer)
    ensures WaitsIn(AfterBoth(env, window, s, events), action, timer)
    ensures s.world.log <= AfterBoth(env, window, s, events).world.log
    decreases |events|
  {
    if events != [] {
      var s1 := StepBoth(env, window, s, events[0]);
      RunnerVerdicts.CallGrows(env, s.world, s.clock, CallFor(window, s, events[0]));
      StillWaits(env, window, s1, events[1..], action, timer);
      var end := AfterBoth(env, window, s1, events[1..]).world.log;
      assert s.world.log == end[..|s1.world.log|][..|s.world.log|];
    }
  }

  /**
   * A deferred action whose timer runs is verified from then on: what was recorded in between counts
   * for its baseline, and only what follows the dispatch is judged. So it is judged from its
   * publication if and only if nothing was recorded in between.
   */
  lemma DeferredIsJudgedFromDispatch(env: Env, window: real, s: Both, action: Selected, timer: nat, others: seq<Event>,
                                     e: Event, later: seq<StateRecord>)
    requires env.codec.Lawful() && action.verification.Some?
    requires WaitsIn(s, action, timer) && IsRunOfBoth(env, window, s, others) && NothingPublished(others)
    requires var s1 := AfterBoth(env, window, s, others);
             && e.Expire? && e.timer == timer && LegalEvent(window, s1, e)
             && JobFor(env, action, e.now, s1.world.log).dedupeKey !in s1.world.dedupe
    ensures var w1 := AfterBoth(env, window, s, others).world;
            var w2 := StepBoth(env, window, AfterBoth(env, window, s, others), e).world;
            var spec := action.verification.value;
            && e.freshId in w2.jobs
            && VerdictOn(env, w2.(log := w2.log + later), w2.jobs[e.freshId])
               == Judgement(spec, ValueIn(Replay(w1.log), spec.metric, None), later)
            && s.world.log <= w1.log == w2.log
            && (w2.jobs[e.freshId].spec.baselineOffset == |Encode(env.codec, s.world.log)| <==> w1.log == s.world.log)
  {
    StillWaits(env, window, s, others, action, timer);
    var s1 := AfterBoth(env, window, s, others);
    RunnerVerdicts.JudgedByWhatFollows(env, s1.world, action, e.now, e.freshId, later);
    OffsetTells(env.codec, s.world.log, s1.world.log);
  }

  /** Every record takes room in the file. */
  lemma OffsetTells(c: Codec, log: seq<StateRecord>, longer: seq<StateRecord>)
    requires log <= longer
    ensures |Encode(c, longer)| == |Encode(c, log)| <==> longer == log
  {
    var more := longer[|log|..];
    assert longer == log + more;
    EncodeSplit(c, log, more);
    if more != [] { EncodeFront(c, more, []); }
  }

  /** A cancelled timer never comes back. */
  lemma {:induction false} GoneForever(env: Env, window: real, s: Both, events: seq<Event>, timer: nat)
    requires IsRunOfBoth(env, window, s, events)
    requires timer < s.bus.bus.nextId && timer !in s.bus.bus.live
    ensures timer !in AfterBoth(env, window, s, events).bus.bus.live
    decreases |events|
  {
    if events != [] { GoneForever(env, window, StepBoth(env, window, s, events[0]), events[1..], timer); }
  }

  lemma {:induction false} GoneNeverRuns(env: Env, window: real, s: Both, events: seq<Event>, timer: nat)
    requires IsRunOfBoth(env, window, s, events)
    requires timer < s.bus.bus.nextId && timer !in s.bus.bus.live
    ensures !RunsIn(events, timer)
    decreases |events|
  {
    if events != [] {
      var s1 := StepBoth(env, window, s, events[0]);
      GoneForever(env, window, s, events[..1], timer);
      GoneNeverRuns(env, window, s1, events[1..], timer);
      RunsFirstOrLater(events, timer);
    }
  }

  // ---- dispatched if and only if not replaced ------------------------------------------------------

  /** The timer runs in one of these events. */
  predicate RunsIn(events: seq<Event>, timer: nat) {
    exists i :: 0 <= i < |events| && events[i].Expire? && events[i].timer == timer
  }

  lemma RunsFirstOrLater(events: seq<Event>, timer: nat)
    requires events != []
    ensures RunsIn(events, timer)
       <==> (events[0].Expire? && events[0].timer == timer) || RunsIn(events[1..], timer)
  {
    if i :| 0 <= i < |events[1..]| && events[1..][i].Expire? && events[1..][i].timer == timer {
      assert events[i + 1].Expire? && events[i + 1].timer == timer;
    }
  }

  /** The first event that concerns the bus. */
  function FirstOnBus(events: seq<Event>): Option<Event> {
    if events == [] then None else if events[0].Other? then FirstOnBus(events[1..]) else Some(events[0])
  }

  /** Nothing but selections waits on this bus. */
  predicate OnlySelections(s: Both) {
    forall id <- s.bus.bus.live :: s.bus.bus.live[id].event == SELECTED
  }

  lemma StepKeepsSelections(env: Env, window: real, s: Both, e: Event)
    requires LegalEvent(window, s, e) && D.Inv(window, s.bus) && OnlySelections(s)
    ensures D.Inv(window, StepBoth(env, window, s, e).bus) && OnlySelections(StepBoth(env, window, s, e))
  {
    if !e.Other? { D.StepKeepsInv(window, s.bus, InputOf(e)); }
  }

  lemma {:induction false} RunKeepsSelections(env: Env, window: real, s: Both, events: seq<Event>)
    requires IsRunOfBoth(env, window, s, events) && D.Inv(window, s.bus) && OnlySelections(s)
    ensures D.Inv(window, AfterBoth(env, window, s, events).bus) && OnlySelections(AfterBoth(env, window, s, events))
    decreases |events|
  {
    if events != [] {
      StepKeepsSelections(env, window, s, events[0]);
      RunKeepsSelections(env, window, StepBoth(env, window, s, events[0]), events[1..]);
    }
  }

  /** The first event on the bus decides: the waiting timer runs in it, or is cancelled by it. */
  lemma FirstDecides(env: Env, window: real, s: Both, e: Event, action: Selected, timer: nat)
    requires LegalEvent(window, s, e) && D.Inv(window, s.bus) && OnlySelections(s) && WaitsIn(s, action, timer)
    ensures var s' := StepBoth(env, window, s, e);
            && timer < s'.bus.bus.nextId
            && (e.Other? ==> WaitsIn(s', action, timer))
            && (!e.Other? ==> timer !in s'.bus.bus.live)
            && (e.Expire? ==> e.timer == timer)
  {
  }

  lemma {:induction false} WaitingEnds(env: Env, window: real, s: Both, events: seq<Event>, action: Selected,
                                       timer: nat)
    requires IsRunOfBoth(env, window, s, events)
    requires D.Inv(window, s.bus) && OnlySelections(s) && WaitsIn(s, action, timer)
    ensures RunsIn(events, timer) <==> FirstOnBus(events).Some? && FirstOnBus(events).value.Expire?
    ensures timer in AfterBoth(env, window, s, events).bus.bus.live <==> NothingPublished(events)
    decreases |events|
  {
    if events != [] {
      var s1 := StepBoth(env, window, s, events[0]);
      FirstDecides(env, window, s, events[0], action, timer);
      RunsFirstOrLater(events, timer);
      if events[0].Other? {
        StepKeepsSelections(env, window, s, events[0]);
        WaitingEnds(env, window, s1, events[1..], action, timer);
        assert NothingPublished(events) <==> NothingPublished(events[1..]) by {
          if NothingPublished(events[1..]) {
            forall i | 0 <= i < |events| ensures events[i].Other? { if i > 0 { assert events[1..][i - 1].Other?; } }
          }
        }
      } else {
        GoneForever(env, window, s1, events[1..], timer);
        GoneNeverRuns(env, window, s1, events[1..], timer);
        assert !events[0].Other?;
      }
    }
  }

  /**
   * A deferred action is dispatched if and only if the next event on the bus is its timer's run and
   * not another selection, which replaces it for good; it waits exactly as long as neither happens.
   */
  lemma DispatchedExactlyUnlessReplaced(env: Env, window: real, events: seq<Event>, action: Selected, timer: nat,
                                        more: seq<Event>)
    requires IsRunOfBoth(env, window, StartBoth(), events)
    requires var s := AfterBoth(env, window, StartBoth(), events);
             WaitsIn(s, action, timer) && IsRunOfBoth(env, window, s, more)
    ensures RunsIn(more, timer) <==> FirstOnBus(more).Some? && FirstOnBus(more).value.Expire?
    ensures var s := AfterBoth(env, window, StartBoth(), events);
            timer in AfterBoth(env, window, s, more).bus.bus.live <==> NothingPublished(more)
  {
    RunKeepsSelections(env, window, StartBoth(), events);
    WaitingEnds(env, window, AfterBoth(env, window, StartBoth(), events), more, action, timer);
  }
}
