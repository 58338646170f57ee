/**
 * control_plane/event_debouncer.py: throttling with a trailing timer. Cancelling a timer is
 * taken to be effective; CancelRaceBreaksSpacing shows what happens when it comes too late.
 */
module Debouncer {
  import opened Prelude

  datatype Timer<P> = Timer(event: string, payload: P, due: real)

  datatype Dispatch<P> = Dispatch(event: string, payload: P, at: real)

  /** `timers` is the source's table; `live` are the started timers nobody cancelled. */
  datatype Bus<P> = Bus(
    lastFire: map<string, real>,
    timers: map<string, nat>,
    live: map<nat, Timer<P>>,
    nextId: nat,
    log: seq<Dispatch<P>>)

  function EmptyBus<P>(): Bus<P> {
    Bus(map[], map[], map[], 0, [])
  }

  function LastFire<P>(b: Bus<P>, event: string): real {
    if event in b.lastFire then b.lastFire[event] else 0.0
  }

  function CancelTimer<P>(b: Bus<P>, event: string): Bus<P> {
    if event in b.timers then b.(timers := b.timers - {event}, live := b.live - {b.timers[event]}) else b
  }

  function DispatchNow<P>(b: Bus<P>, now: real, event: string, payload: P): Bus<P> {
    b.(lastFire := b.lastFire[event := now], log := b.log + [Dispatch(event, payload, now)])
  }

  function AfterPublish<P>(window: real, b: Bus<P>, now: real, event: string, payload: P): Bus<P> {
    var remaining := window - (now - LastFire(b, event));
    var b' := CancelTimer(b, event);
    if remaining <= 0.0 then DispatchNow(b', now, event, payload)
    else b'.(timers := b'.timers[event := b.nextId], nextId := b.nextId + 1,
             live := b'.live[b.nextId := Timer(event, payload, now + remaining)])
  }

  /** A timer thread runs _deferred. */
  function AfterDeferred<P>(b: Bus<P>, now: real, event: string, payload: P): Bus<P> {
    DispatchNow(b.(timers := b.timers - {event}), now, event, payload)
  }

  function AfterExpiry<P>(b: Bus<P>, now: real, id: nat): Bus<P>
    requires id in b.live
  {
    AfterDeferred(b.(live := b.live - {id}), now, b.live[id].event, b.live[id].payload)
  }

  class EventDebouncer<P> {
    const window: real
    var lastFire: map<string, real>
    var timers: map<string, nat>
    var live: map<nat, Timer<P>>
    var nextId: nat
    var log: seq<Dispatch<P>>

    function Value(): Bus<P>
      reads this
    {
      Bus(lastFire, timers, live, nextId, log)
    }

    constructor (window: real)
      ensures this.window == window && Value() == EmptyBus()
    {
      this.window := window;
      lastFire, timers, live, nextId, log := map[], map[], map[], 0, [];
    }

    method Publish(now: real, event: string, payload: P)
      modifies this
      ensures Value() == AfterPublish(window, old(Value()), now, event, payload)
    {
      var last := if event in lastFire then lastFire[event] else 0.0;
      var remaining := window - (now - last);
      if event in timers {
        live := live - {timers[event]};
        timers := timers - {event};
      }
      if remaining <= 0.0 {
        lastFire := lastFire[event := now];
        log := log + [Dispatch(event, payload, now)];
      } else {
        live := live[nextId := Timer(event, payload, now + remaining)];
        timers := timers[event := nextId];
        nextId := nextId + 1;
      }
    }

    method Deferred(now: real, id: nat)
      requires id in live
      modifies this
      ensures Value() == AfterExpiry(old(Value()), now, id)
    {
      var t := live[id];
      live := live - {id};
      lastFire := lastFire[t.event := now];
      timers := timers - {t.event};
      log := log + [Dispatch(t.event, t.payload, now)];
    }
  }

  // ---- runs ----------------------------------------------------------------------------------

  datatype Input<P> = Publish(now: real, event: string, payload: P) | Expire(now: real, id: nat)

  datatype Newest<P> = Newest(at: real, payload: P)

  /** The bus, the clock, and the latest payload published for each event. */
  datatype System<P> = System(bus: Bus<P>, clock: real, newest: map<string, Newest<P>>)

  function Start<P>(): System<P> {
    System(EmptyBus(), 0.0, map[])
  }

  /** Time does not go back, and a timer runs only when live and due. */
  predicate Legal<P>(s: System<P>, i: Input<P>) {
    && s.clock <= i.now
    && (i.Expire? ==> i.id in s.bus.live && s.bus.live[i.id].due <= i.now)
  }

  function Step<P>(window: real, s: System<P>, i: Input<P>): System<P>
    requires Legal(s, i)
  {
    match i
    case Publish(now, event, payload) =>
      System(AfterPublish(window, s.bus, now, event, payload), now, s.newest[event := Newest(now, payload)])
    case Expire(now, id) => System(AfterExpiry(s.bus, now, id), now, s.newest)
  }

  predicate IsRun<P>(window: real, s: System<P>, inputs: seq<Input<P>>)
    decreases |inputs|
  {
    inputs == [] || (Legal(s, inputs[0]) && IsRun(window, Step(window, s, inputs[0]), inputs[1..]))
  }

  function After<P>(window: real, s: System<P>, inputs: seq<Input<P>>): System<P>
    requires IsRun(window, s, inputs)
    decreases |inputs|
  {
    if inputs == [] then s else After(window, Step(window, s, inputs[0]), inputs[1..])
  }

  function Of<P>(log: seq<Dispatch<P>>, event: string): seq<Dispatch<P>> {
    if log == [] then []
    else Of(log[..|log| - 1], event) + if log[|log| - 1].event == event then [log[|log| - 1]] else []
  }

  lemma OfPush<P>(log: seq<Dispatch<P>>, d: Dispatch<P>, event: string)
    ensures Of(log + [d], event) == Of(log, event) + if d.event == event then [d] else []
  {
    assert (log + [d])[..|log|] == log;
  }

  // ---- the invariant ---------------------------------------------------------------------------

  /** The first dispatch is at least a window after time 0, each later one after its predecessor. */
  predicate Gap<P>(ds: seq<Dispatch<P>>, window: real, i: nat)
    requires i < |ds|
  {
    (if i == 0 then 0.0 else ds[i - 1].at) + window <= ds[i].at
  }

  predicate Spaced<P>(ds: seq<Dispatch<P>>, window: real) {
    forall i :: 0 <= i < |ds| ==> Gap(ds, window, i)
  }

  /** The table and the live timers are the same timers, one per event. */
  ghost predicate TimersOk<P>(b: Bus<P>) {
    && (forall e <- b.timers :: b.timers[e] in b.live && b.live[b.timers[e]].event == e)
    && (forall id <- b.live :: id < b.nextId && b.live[id].event in b.timers && b.timers[b.live[id].event] == id)
  }

  /** All that concerns one event. */
  datatype Channel<P> = Channel(
    sent: seq<Dispatch<P>>,
    fired: Option<real>,
    timer: Option<Timer<P>>,
    newest: Option<Newest<P>>)

  function ChannelOf<P>(s: System<P>, e: string): Channel<P> {
    Channel(Of(s.bus.log, e),
            if e in s.bus.lastFire then Some(s.bus.lastFire[e]) else None,
            if e in s.bus.timers && s.bus.timers[e] in s.bus.live then Some(s.bus.live[s.bus.timers[e]]) else None,
            if e in s.newest then Some(s.newest[e]) else None)
  }

  predicate DispatchesOk<P>(window: real, clock: real, ch: Channel<P>) {
    && Spaced(ch.sent, window)
    && ch.fired == (if ch.sent == [] then None else Some(ch.sent[|ch.sent| - 1].at))
    && 0.0 <= clock && ch.fired.GetOr(0.0) <= clock
  }

  /** The newest payload is either waiting in the timer or was the last one sent. */
  ghost predicate ChannelOk<P>(window: real, clock: real, ch: Channel<P>) {
    && DispatchesOk(window, clock, ch)
    && (ch.newest.Some? ==> ch.newest.value.at <= clock)
    && (ch.timer.Some? ==>
          && ch.newest.Some? && ch.timer.value.payload == ch.newest.value.payload
          && ch.timer.value.due == ch.fired.GetOr(0.0) + window <= ch.newest.value.at + window)
    && (ch.newest.Some? && ch.timer.None? ==>
          ch.sent != [] && ch.sent[|ch.sent| - 1].payload == ch.newest.value.payload
          && ch.newest.value.at <= ch.sent[|ch.sent| - 1].at)
  }

  ghost predicate Inv<P>(window: real, s: System<P>) {
    TimersOk(s.bus) && forall e :: ChannelOk(window, s.clock, ChannelOf(s, e))
  }

  function Sent<P>(ch: Channel<P>, d: Dispatch<P>): Channel<P> {
    ch.(sent := ch.sent + [d], fired := Some(d.at), timer := None)
  }

  /** What a step does to the channel of event `e`. */
  function ChannelAfter<P>(window: real, s: System<P>, i: Input<P>, e: string): Channel<P>
    requires Legal(s, i)
  {
    var ch := ChannelOf(s, e);
    match i
    case Publish(now, event, payload) =>
      if e != event then ch
      else
        var ch' := ch.(newest := Some(Newest(now, payload)));
        var due := ch.fired.GetOr(0.0) + window;
        if due <= now then Sent(ch', Dispatch(e, payload, now))
        else ch'.(timer := Some(Timer(e, payload, due)))
    case Expire(now, id) =>
      var t := s.bus.live[id];
      if e != t.event then ch else Sent(ch, Dispatch(e, t.payload, now))
  }

  lemma PublishElsewhere<P>(window: real, s: System<P>, i: Input<P>, e: string)
    requires TimersOk(s.bus) && Legal(s, i) && i.Publish? && e != i.event
    ensures ChannelOf(Step(window, s, i), e) == ChannelOf(s, e)
  {
    var b, b' := s.bus, Step(window, s, i).bus;
    assert Of(b'.log, e) == Of(b.log, e) by { OfPush(b.log, Dispatch(i.event, i.payload, i.now), e); }
    assert e in b.timers ==> b.timers[e] != b.nextId && (i.event in b.timers ==> b.timers[e] != b.timers[i.event]);
  }

  lemma PublishHere<P>(window: real, s: System<P>, i: Input<P>)
    requires TimersOk(s.bus) && Legal(s, i) && i.Publish?
    ensures ChannelOf(Step(window, s, i), i.event) == ChannelAfter(window, s, i, i.event)
  {
    var b, b' := s.bus, Step(window, s, i).bus;
    if window - (i.now - LastFire(b, i.event)) <= 0.0 {
      assert b' == DispatchNow(CancelTimer(b, i.event), i.now, i.event, i.payload);
      OfPush(b.log, Dispatch(i.event, i.payload, i.now), i.event);
    }
  }

  lemma StepChannel<P>(window: real, s: System<P>, i: Input<P>, e: string)
    requires TimersOk(s.bus) && Legal(s, i)
    ensures ChannelOf(Step(window, s, i), e) == ChannelAfter(window, s, i, e)
  {
    match i
    case Publish(_, event, _) =>
      if e == event { PublishHere(window, s, i); } else { PublishElsewhere(window, s, i, e); }
    case Expire(now, id) => OfPush(s.bus.log, Dispatch(s.bus.live[id].event, s.bus.live[id].payload, now), e);
  }

  lemma StepTimers<P>(window: real, s: System<P>, i: Input<P>)
    requires TimersOk(s.bus) && Legal(s, i)
    ensures TimersOk(Step(window, s, i).bus)
  {
  }

  lemma SpacedPush<P>(ds: seq<Dispatch<P>>, d: Dispatch<P>, window: real)
    requires Spaced(ds, window) && (if ds == [] then 0.0 else ds[|ds| - 1].at) + window <= d.at
    ensures Spaced(ds + [d], window)
  {
    var all := ds + [d];
    forall i: nat | i < |all| ensures Gap(all, window, i) {
      if i < |ds| { assert Gap(ds, window, i) && all[i] == ds[i]; }
      if i > 0 { assert all[i - 1] == ds[i - 1]; }
    }
  }

  /** Sending the newest payload a window after the last dispatch. */
  lemma SentIsOk<P>(window: real, clock: real, ch: Channel<P>, d: Dispatch<P>)
    requires DispatchesOk(window, clock, ch) && clock <= d.at && ch.fired.GetOr(0.0) + window <= d.at
    requires ch.newest.Some? && ch.newest.value.payload == d.payload && ch.newest.value.at <= d.at
    ensures ChannelOk(window, d.at, Sent(ch, d))
  {
    SpacedPush(ch.sent, d, window);
  }

  /** Publishing before the window is over leaves the newest payload in the timer. */
  lemma WaitingIsOk<P>(window: real, clock: real, ch: Channel<P>, now: real, payload: P, e: string)
    requires DispatchesOk(window, clock, ch) && clock <= now
    ensures ChannelOk(window, now, ch.(newest := Some(Newest(now, payload)),
                                       timer := Some(Timer(e, payload, ch.fired.GetOr(0.0) + window))))
  {
  }

  lemma IdleIsOk<P>(window: real, clock: real, ch: Channel<P>, now: real)
    requires ChannelOk(window, clock, ch) && clock <= now
    ensures ChannelOk(window, now, ch)
  {
  }

  lemma ChannelKeepsOk<P>(window: real, s: System<P>, i: Input<P>, e: string)
    requires TimersOk(s.bus) && Legal(s, i) && ChannelOk(window, s.clock, ChannelOf(s, e))
    ensures ChannelOk(window, i.now, ChannelAfter(window, s, i, e))
  {
    var ch := ChannelOf(s, e);
    match i
    case Publish(now, event, payload) =>
      if e != event {
        IdleIsOk(window, s.clock, ch, now);
      } else if ch.fired.GetOr(0.0) + window <= now {
        SentIsOk(window, s.clock, ch.(newest := Some(Newest(now, payload))), Dispatch(e, payload, now));
      } else {
        WaitingIsOk(window, s.clock, ch, now, payload, e);
      }
    case Expire(now, id) =>
      var t := s.bus.live[id];
      if e != t.event {
        IdleIsOk(window, s.clock, ch, now);
      } else {
        assert ch.timer == Some(t);
        SentIsOk(window, s.clock, ch, Dispatch(e, t.payload, now));
      }
  }

  lemma StepKeepsInv<P>(window: real, s: System<P>, i: Input<P>)
    requires Inv(window, s) && Legal(s, i)
    ensures Inv(window, Step(window, s, i))
  {
    StepTimers(window, s, i);
    forall e ensures ChannelOk(window, i.now, ChannelOf(Step(window, s, i), e)) {
      StepChannel(window, s, i, e);
      ChannelKeepsOk(window, s, i, e);
    }
  }

  lemma {:induction false} RunKeepsInv<P>(window: real, s: System<P>, inputs: seq<Input<P>>)
    requires Inv(window, s) && IsRun(window, s, inputs)
    ensures Inv(window, After(window, s, inputs))
    decreases |inputs|
  {
    if inputs != [] {
      StepKeepsInv(window, s, inputs[0]);
      RunKeepsInv(window, Step(window, s, inputs[0]), inputs[1..]);
    }
  }

  // ---- the promises ------------------------------------------------------------------------------

  /** In every run, dispatches of one event are at least a window apart. */
  lemma DispatchesAreAWindowApart<P>(window: real, inputs: seq<Input<P>>, event: string)
    requires IsRun(window, Start(), inputs)
    ensures Spaced(Of(After(window, Start(), inputs).bus.log, event), window)
  {
    RunKeepsInv(window, Start(), inputs);
    assert ChannelOk(window, After(window, Start(), inputs).clock, ChannelOf(After(window, Start(), inputs), event));
  }

  /** At most one timer per event is alive, and it is due one window after the last dispatch. */
  lemma OneTimerDueAfterTheWindow<P>(window: real, inputs: seq<Input<P>>, id: nat)
    requires IsRun(window, Start(), inputs) && id in After(window, Start(), inputs).bus.live
    ensures var b := After(window, Start(), inputs).bus; var t := b.live[id];
            && t.due == LastFire(b, t.event) + window
            && forall other <- b.live :: b.live[other].event == t.event ==> other == id
  {
    RunKeepsInv(window, Start(), inputs);
    var s := After(window, Start(), inputs);
    assert ChannelOk(window, s.clock, ChannelOf(s, s.bus.live[id].event));
  }

  /** Republishing before the timer is due replaces its payload but never postpones it. */
  lemma RepublishingDoesNotPostpone<P>(window: real, inputs: seq<Input<P>>, now: real, event: string, payload: P)
    requires IsRun(window, Start(), inputs)
    requires var s := After(window, Start(), inputs);
             s.clock <= now && event in s.bus.timers && s.bus.timers[event] in s.bus.live
             && now < s.bus.live[s.bus.timers[event]].due
    ensures var b := After(window, Start(), inputs).bus;
            var b' := AfterPublish(window, b, now, event, payload);
            event in b'.timers && b'.timers[event] in b'.live
            && b'.live[b'.timers[event]] == Timer(event, payload, b.live[b.timers[event]].due)
  {
    RunKeepsInv(window, Start(), inputs);
    assert ChannelOk(window, After(window, Start(), inputs).clock, ChannelOf(After(window, Start(), inputs), event));
  }

  /** Whatever a step dispatches is the newest payload published for that event, that step included. */
  lemma DispatchesCarryTheNewest<P>(window: real, inputs: seq<Input<P>>, i: Input<P>)
    requires IsRun(window, Start(), inputs) && Legal(After(window, Start(), inputs), i)
    ensures var s := After(window, Start(), inputs); var s' := Step(window, s, i);
            && |s'.bus.log| <= |s.bus.log| + 1
            && (|s'.bus.log| == |s.bus.log| + 1 ==>
                  var d := s'.bus.log[|s.bus.log|];
                  d.event in s'.newest && d.payload == s'.newest[d.event].payload && d.at == i.now)
  {
    RunKeepsInv(window, Start(), inputs);
    var s := After(window, Start(), inputs);
    if i.Expire? { assert ChannelOk(window, s.clock, ChannelOf(s, s.bus.live[i.id].event)); }
  }

  // ---- no starvation --------------------------------------------------------------------------------

  /** The runtime lets no live timer become overdue by more than `slack`. */
  predicate Prompt<P>(window: real, s: System<P>, inputs: seq<Input<P>>, slack: real)
    requires IsRun(window, s, inputs)
    decreases |inputs|
  {
    inputs == [] ||
    ((forall id <- s.bus.live :: inputs[0].now <= s.bus.live[id].due + slack)
     && Prompt(window, Step(window, s, inputs[0]), inputs[1..], slack))
  }

  /** The pending timer is not overdue, and what is no longer pending was dispatched in time. */
  ghost predicate InTime<P>(window: real, slack: real, clock: real, ch: Channel<P>) {
    && (ch.timer.Some? ==> clock <= ch.timer.value.due + slack)
    && (ch.newest.Some? && ch.timer.None? ==>
          ch.sent != [] && ch.sent[|ch.sent| - 1].at <= ch.newest.value.at + window + slack)
  }

  ghost predicate Delivered<P>(window: real, s: System<P>, slack: real) {
    forall e :: InTime(window, slack, s.clock, ChannelOf(s, e))
  }

  lemma StepDelivers<P>(window: real, s: System<P>, i: Input<P>, slack: real)
    requires Inv(window, s) && Legal(s, i) && Delivered(window, s, slack) && slack >= 0.0 && window >= 0.0
    requires forall id <- s.bus.live :: i.now <= s.bus.live[id].due + slack
    ensures Delivered(window, Step(window, s, i), slack)
  {
    forall e ensures InTime(window, slack, i.now, ChannelOf(Step(window, s, i), e)) {
      StepChannel(window, s, i, e);
      assert ChannelOk(window, s.clock, ChannelOf(s, e)) && InTime(window, slack, s.clock, ChannelOf(s, e));
    }
  }

  lemma {:induction false} RunDelivers<P>(window: real, s: System<P>, inputs: seq<Input<P>>, slack: real)
    requires Inv(window, s) && IsRun(window, s, inputs) && Delivered(window, s, slack) && slack >= 0.0 && window >= 0.0
    requires Prompt(window, s, inputs, slack)
    ensures Delivered(window, After(window, s, inputs), slack)
    decreases |inputs|
  {
    if inputs != [] {
      StepDelivers(window, s, inputs[0], slack);
      StepKeepsInv(window, s, inputs[0]);
      RunDelivers(window, Step(window, s, inputs[0]), inputs[1..], slack);
    }
  }

  /**
   * No starvation: however often an event is published, its newest payload is dispatched within
   * one window (plus the timer's lateness) of being published, unless it is superseded.
   */
  lemma NewestIsDispatchedInTime<P>(window: real, inputs: seq<Input<P>>, slack: real, event: string)
    requires IsRun(window, Start(), inputs) && Prompt(window, Start(), inputs, slack)
    requires slack >= 0.0 && window >= 0.0
    requires var s := After(window, Start(), inputs);
             event in s.newest && s.newest[event].at + window + slack < s.clock
    ensures var s := After(window, Start(), inputs); var ds := Of(s.bus.log, event);
            && ds != []
            && ds[|ds| - 1].payload == s.newest[event].payload
            && s.newest[event].at <= ds[|ds| - 1].at <= s.newest[event].at + window + slack
  {
    RunKeepsInv(window, Start(), inputs);
    RunDelivers(window, Start(), inputs, slack);
    assert ChannelOk(window, After(window, Start(), inputs).clock, ChannelOf(After(window, Start(), inputs), event));
  }

  // ---- cancellation that comes too late ---------------------------------------------------------------

  /** The event's timer, which `publish` is about to cancel. */
  ghost predicate Waiting<P>(b: Bus<P>, event: string) {
    event in b.timers && b.timers[event] in b.live
  }

  function WaitingTimer<P>(b: Bus<P>, event: string): Timer<P>
    requires Waiting(b, event)
  {
    b.live[b.timers[event]]
  }

  function LastAt<P>(ds: seq<Dispatch<P>>): real {
    if ds == [] then 0.0 else ds[|ds| - 1].at
  }

  lemma SpacedExactly<P>(ds: seq<Dispatch<P>>, d: Dispatch<P>, window: real)
    requires Spaced(ds, window)
    ensures Spaced(ds + [d], window) <==> LastAt(ds) + window <= d.at
  {
    if Spaced(ds + [d], window) {
      assert Gap(ds + [d], window, |ds|);
    } else if LastAt(ds) + window <= d.at {
      SpacedPush(ds, d, window);
    }
  }

  /** The bus after a publish at `now` and the timer it cancelled running all the same at `late`. */
  function AfterRace<P>(window: real, b: Bus<P>, now: real, event: string, payload: P, late: real): Bus<P>
    requires Waiting(b, event)
  {
    AfterDeferred(AfterPublish(window, b, now, event, payload), late, event, WaitingTimer(b, event).payload)
  }

  lemma RaceLog<P>(window: real, b: Bus<P>, now: real, event: string, payload: P, late: real)
    requires Waiting(b, event)
    ensures AfterRace(window, b, now, event, payload, late).log
         == (if LastFire(b, event) + window <= now then b.log + [Dispatch(event, payload, now)] else b.log)
            + [Dispatch(event, WaitingTimer(b, event).payload, late)]
  {
  }

  lemma WaitingIsDue<P>(window: real, inputs: seq<Input<P>>, event: string)
    requires IsRun(window, Start(), inputs) && Waiting(After(window, Start(), inputs).bus, event)
    ensures var b := After(window, Start(), inputs).bus;
            && TimersOk(b) && Spaced(Of(b.log, event), window) && LastFire(b, event) == LastAt(Of(b.log, event))
            && WaitingTimer(b, event).due == LastFire(b, event) + window
  {
    RunKeepsInv(window, Start(), inputs);
    var s := After(window, Start(), inputs);
    assert ChannelOk(window, s.clock, ChannelOf(s, event));
  }

  /**
   * A timer that already waits for the lock when a publish cancels it runs after that publish. The
   * spacing survives exactly if the publish did not dispatch or the timer is a whole window late;
   * the last payload sent is then the newest only if the two are equal.
   */
  lemma LateTimerExactly<P>(window: real, inputs: seq<Input<P>>, now: real, event: string, payload: P, late: real)
    requires IsRun(window, Start(), inputs)
    requires var s := After(window, Start(), inputs);
             Waiting(s.bus, event) && s.clock <= now <= late && WaitingTimer(s.bus, event).due <= late
    ensures var b := After(window, Start(), inputs).bus; var t := WaitingTimer(b, event);
            var ds := Of(AfterRace(window, b, now, event, payload, late).log, event);
            && (Spaced(ds, window) <==> now < t.due || now + window <= late)
            && ds != [] && (ds[|ds| - 1].payload == payload <==> t.payload == payload)
  {
    WaitingIsDue(window, inputs, event);
    var b := After(window, Start(), inputs).bus;
    RaceLog(window, b, now, event, payload, late);
    RaceSpacing(b.log, event, window, Dispatch(event, payload, now),
                Dispatch(event, WaitingTimer(b, event).payload, late));
  }

  lemma RaceSpacing<P>(log: seq<Dispatch<P>>, event: string, window: real, first: Dispatch<P>, last: Dispatch<P>)
    requires Spaced(Of(log, event), window) && first.event == last.event == event
    requires LastAt(Of(log, event)) + window <= last.at
    ensures var due := LastAt(Of(log, event)) + window;
            var ds := Of((if due <= first.at then log + [first] else log) + [last], event);
            && (Spaced(ds, window) <==> first.at < due || first.at + window <= last.at)
            && ds != [] && ds[|ds| - 1] == last
  {
    var sent := Of(log, event);
    OfPush(log, first, event);
    OfPush(log + [first], last, event);
    OfPush(log, last, event);
    SpacedExactly(sent, last, window);
    SpacedExactly(sent, first, window);
    if LastAt(sent) + window <= first.at { SpacedExactly(sent + [first], last, window); }
  }

  /** The bus after a race in which the publish did not dispatch. */
  lemma StrayBus<P>(window: real, b: Bus<P>, now: real, event: string, payload: P, late: real)
    requires TimersOk(b) && Waiting(b, event) && now < LastFire(b, event) + window
    ensures var b' := AfterRace(window, b, now, event, payload, late);
            && event !in b'.timers && b.nextId in b'.live
            && b'.live[b.nextId] == Timer(event, payload, LastFire(b, event) + window)
            && b'.log == b.log + [Dispatch(event, WaitingTimer(b, event).payload, late)]
  {
  }

  /**
   * If the publish did not dispatch, the late timer drops the newer one from the table, so nothing
   * can cancel that one any more; once it runs too, the spacing survives only a window later.
   */
  lemma StrayTimerExactly<P>(window: real, inputs: seq<Input<P>>, now: real, event: string, payload: P, late: real,
                             later: real)
    requires IsRun(window, Start(), inputs)
    requires var s := After(window, Start(), inputs);
             Waiting(s.bus, event) && s.clock <= now < WaitingTimer(s.bus, event).due <= late <= later
    ensures var b := After(window, Start(), inputs).bus; var id := b.nextId;
            var b' := AfterRace(window, b, now, event, payload, late);
            && event !in b'.timers && id in b'.live
            && b'.live[id] == Timer(event, payload, WaitingTimer(b, event).due)
            && (Spaced(Of(AfterExpiry(b', later, id).log, event), window) <==> late + window <= later)
  {
    LateTimerExactly(window, inputs, now, event, payload, late);
    WaitingIsDue(window, inputs, event);
    var b := After(window, Start(), inputs).bus;
    var b' := AfterRace(window, b, now, event, payload, late);
    StrayBus(window, b, now, event, payload, late);
    OfPush(b.log, Dispatch(event, WaitingTimer(b, event).payload, late), event);
    OfPush(b'.log, Dispatch(event, payload, later), event);
    SpacedExactly(Of(b'.log, event), Dispatch(event, payload, later), window);
  }

  lemma TwoSteps<P>(window: real, s: System<P>, a: Input<P>, b: Input<P>)
    requires Legal(s, a) && Legal(Step(window, s, a), b)
    ensures IsRun(window, s, [a] + [b])
    ensures After(window, s, [a] + [b]) == Step(window, Step(window, s, a), b)
  {
    var s1 := Step(window, s, a);
    assert [b][1..] == [] && IsRun(window, Step(window, s1, b), [b][1..]);
    assert IsRun(window, s1, [b]) && After(window, s1, [b]) == Step(window, s1, b);
    assert ([a] + [b])[1..] == [b];
  }

  /** For one: an older payload dispatched right after the newer one. */
  lemma CancelRaceBreaksSpacing()
    ensures var inputs := [Publish(5.0, "e", 1)] + [Publish(5.5, "e", 2)];
            && IsRun(1.0, Start(), inputs)
            && var b := After(1.0, Start(), inputs).bus;
               && Waiting(b, "e") && WaitingTimer(b, "e") == Timer("e", 2, 6.0)
               && !Spaced(Of(AfterRace(1.0, b, 6.0, "e", 3, 6.0).log, "e"), 1.0)
  {
    var inputs := [Publish(5.0, "e", 1)] + [Publish(5.5, "e", 2)];
    var first: Input<int>, second: Input<int> := Publish(5.0, "e", 1), Publish(5.5, "e", 2);
    var s1 := Step(1.0, Start(), first);
    assert s1.bus == Bus(map["e" := 5.0], map[], map[], 0, [Dispatch("e", 1, 5.0)]);
    var s2 := Step(1.0, s1, second);
    assert s2.bus == Bus(map["e" := 5.0], map["e" := 0], map[0 := Timer("e", 2, 6.0)], 1, [Dispatch("e", 1, 5.0)]);
    TwoSteps(1.0, Start(), first, second);
    LateTimerExactly(1.0, inputs, 6.0, "e", 3, 6.0);
  }
}
