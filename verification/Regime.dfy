/** control_plane/regime.py: objective regimes with hysteresis. */
module Regime {
  import opened Prelude
  import Evaluator

  datatype RegimeState = RegimeState(active: bool, activatedAt: real, deactivatedAt: real)

  datatype Objective = Objective(
    id: string, regime: string, variable: string, operator: string, target: real,
    minDuration: real, cooldown: real)

  const FRESH: RegimeState := RegimeState(false, 0.0, 0.0)

  /** One objective's look at its regime; a deactivation time of 0 reads as never deactivated. */
  function Observe(rs: RegimeState, now: real, met: bool, minDuration: real, cooldown: real): RegimeState {
    if met && !rs.active then
      if rs.deactivatedAt == 0.0 || now - rs.deactivatedAt >= cooldown
      then rs.(active := true, activatedAt := now) else rs
    else if !met && rs.active then
      if now - rs.activatedAt >= minDuration
      then rs.(active := false, deactivatedAt := now) else rs
    else rs
  }

  /** Whether the objective's condition holds; None stands for the unknown-operator error. */
  function Met(o: Objective, getter: string -> Option<real>): Option<bool> {
    match getter(o.variable)
    case None => Some(false)
    case Some(current) => Evaluator.Compare(o.operator, current, o.target)
  }

  type Regimes = map<string, RegimeState>

  datatype PassResult = PassResult(regimes: Regimes, active: seq<Objective>, ok: bool)

  function PassOver(regimes: Regimes, objectives: seq<Objective>, now: real, getter: string -> Option<real>): PassResult
    requires forall o <- objectives :: o.regime in regimes
    decreases |objectives|
  {
    if objectives == [] then PassResult(regimes, [], true)
    else
      var o := objectives[0];
      match Met(o, getter)
      case None => PassResult(regimes, [], false)
      case Some(met) =>
        var rs := Observe(regimes[o.regime], now, met, o.minDuration, o.cooldown);
        var rest := PassOver(regimes[o.regime := rs], objectives[1..], now, getter);
        rest.(active := (if rs.active then [o] else []) + rest.active)
  }

  function Names(objectives: seq<Objective>): set<string> {
    set o | o in objectives :: o.regime
  }

  function AllFresh(objectives: seq<Objective>): Regimes {
    map name | name in Names(objectives) :: FRESH
  }

  class RegimeManager {
    const objectives: seq<Objective>
    var regimes: Regimes

    ghost predicate Valid()
      reads this
    {
      forall o <- objectives :: o.regime in regimes
    }

    constructor (objectives: seq<Objective>)
      ensures Valid() && this.objectives == objectives
      ensures regimes == AllFresh(objectives)
    {
      this.objectives := objectives;
      regimes := AllFresh(objectives);
    }

    /** The body of the loop, for an objective whose condition could be evaluated. */
    method Switch(o: Objective, met: bool, now: real) returns (active: bool)
      requires o.regime in regimes
      modifies this
      ensures regimes == old(regimes)[o.regime := Observe(old(regimes)[o.regime], now, met, o.minDuration, o.cooldown)]
      ensures active == regimes[o.regime].active
    {
      var rs := regimes[o.regime];
      if met && !rs.active {
        var cooldownElapsed := rs.deactivatedAt == 0.0 || now - rs.deactivatedAt >= o.cooldown;
        if cooldownElapsed {
          rs := rs.(active := true, activatedAt := now);
        }
      } else if !met && rs.active {
        if now - rs.activatedAt >= o.minDuration {
          rs := rs.(active := false, deactivatedAt := now);
        }
      }
      regimes := regimes[o.regime := rs];
      active := rs.active;
    }

    /** Returns false where an unknown operator raises; the objectives before it have taken effect. */
    method ActiveObjectives(now: real, getter: string -> Option<real>) returns (active: seq<Objective>, ok: bool)
      requires Valid()
      modifies this
      ensures Valid()
      ensures PassResult(regimes, active, ok) == PassOver(old(regimes), objectives, now, getter)
    {
      active := [];
      var i := 0;
      ghost var was := PassOver(regimes, objectives, now, getter);
      while i < |objectives|
        invariant 0 <= i <= |objectives| && Valid()
        invariant Prepend(active, PassOver(regimes, objectives[i..], now, getter)) == was
      {
        var o := objectives[i];
        var met := Met(o, getter);
        PassFrom(regimes, objectives, i, now, getter, active);
        if met.None? {
          return active, false;
        }
        var on := Switch(o, met.value, now);
        if on {
          active := active + [o];
        }
        i := i + 1;
      }
      ok := true;
    }
  }

  function Prepend(active: seq<Objective>, rest: PassResult): PassResult {
    rest.(active := active + rest.active)
  }

  /** One objective and the rest of the pass. */
  lemma PassFrom(regimes: Regimes, objectives: seq<Objective>, i: nat, now: real,
                 getter: string -> Option<real>, active: seq<Objective>)
    requires i < |objectives| && forall o <- objectives :: o.regime in regimes
    ensures var o := objectives[i];
            var all := Prepend(active, PassOver(regimes, objectives[i..], now, getter));
            match Met(o, getter)
            case None => all == PassResult(regimes, active, false)
            case Some(met) =>
              var rs := Observe(regimes[o.regime], now, met, o.minDuration, o.cooldown);
              all == Prepend(if rs.active then active + [o] else active,
                             PassOver(regimes[o.regime := rs], objectives[i + 1..], now, getter))
  {
    assert objectives[i..][1..] == objectives[i + 1..];
  }

  // ---- the history of one regime -------------------------------------------------------------

  datatype Look = Look(now: real, met: bool, minDuration: real, cooldown: real)

  /** A regime with the times of its activations and exits so far. */
  datatype History = History(rs: RegimeState, ons: seq<real>, offs: seq<real>)

  function Extend(h: History, l: Look): History {
    var rs := Observe(h.rs, l.now, l.met, l.minDuration, l.cooldown);
    History(rs,
            if rs.active && !h.rs.active then h.ons + [l.now] else h.ons,
            if !rs.active && h.rs.active then h.offs + [l.now] else h.offs)
  }

  function Replay(h: History, looks: seq<Look>): History {
    if looks == [] then h else Extend(Replay(h, looks[..|looks| - 1]), looks[|looks| - 1])
  }

  /** What a pass shows of one regime; it ends at an objective that raises. */
  function LooksAt(objectives: seq<Objective>, name: string, now: real, getter: string -> Option<real>): seq<Look> {
    if objectives == [] then []
    else
      var o := objectives[0];
      match Met(o, getter)
      case None => []
      case Some(met) =>
        (if o.regime == name then [Look(now, met, o.minDuration, o.cooldown)] else [])
        + LooksAt(objectives[1..], name, now, getter)
  }

  lemma {:induction false} ReplaySplit(h: History, a: seq<Look>, b: seq<Look>)
    ensures Replay(h, a + b) == Replay(Replay(h, a), b)
  {
    if b == [] {
      assert a + b == a;
    } else {
      assert (a + b)[..|a + b| - 1] == a + b[..|b| - 1];
      ReplaySplit(h, a, b[..|b| - 1]);
    }
  }

  lemma ReplayFirst(h: History, l: Look, rest: seq<Look>)
    ensures Replay(h, [l] + rest) == Replay(Extend(h, l), rest)
  {
    ReplaySplit(h, [l], rest);
    assert [l][..0] == [];
  }

  /** A pass acts on each regime exactly as the looks of that regime's own objectives, in order. */
  lemma {:induction false} PassReplaysLooks(regimes: Regimes, objectives: seq<Objective>, now: real,
                                            getter: string -> Option<real>, h: History, name: string)
    requires (forall o <- objectives :: o.regime in regimes) && name in regimes && h.rs == regimes[name]
    ensures name in PassOver(regimes, objectives, now, getter).regimes
    ensures PassOver(regimes, objectives, now, getter).regimes[name]
              == Replay(h, LooksAt(objectives, name, now, getter)).rs
    decreases |objectives|
  {
    if objectives != [] && Met(objectives[0], getter).Some? {
      var o, met := objectives[0], Met(objectives[0], getter).value;
      var regimes' := regimes[o.regime := Observe(regimes[o.regime], now, met, o.minDuration, o.cooldown)];
      var rest := LooksAt(objectives[1..], name, now, getter);
      if o.regime == name {
        var l := Look(now, met, o.minDuration, o.cooldown);
        PassReplaysLooks(regimes', objectives[1..], now, getter, Extend(h, l), name);
        ReplayFirst(h, l, rest);
      } else {
        PassReplaysLooks(regimes', objectives[1..], now, getter, h, name);
        assert LooksAt(objectives, name, now, getter) == rest;
      }
    }
  }

  // ---- no flapping ------------------------------------------------------------------------------

  /** The recorded times are those of the state; activations and exits alternate. */
  predicate Told(h: History) {
    && |h.ons| == |h.offs| + (if h.rs.active then 1 else 0)
    && (h.rs.active ==> h.rs.activatedAt == h.ons[|h.ons| - 1])
    && h.rs.deactivatedAt == (if h.offs == [] then 0.0 else h.offs[|h.offs| - 1])
  }

  lemma {:induction false} ReplayIsTold(looks: seq<Look>)
    ensures Told(Replay(History(FRESH, [], []), looks))
  {
    if looks != [] { ReplayIsTold(looks[..|looks| - 1]); }
  }

  predicate StretchesLast(h: History, d: real)
    requires Told(h)
  {
    forall i :: 0 <= i < |h.offs| ==> h.offs[i] - h.ons[i] >= d
  }

  /** The gap after the i-th exit lasts at least c. */
  predicate GapLasts(h: History, c: real, i: nat)
    requires Told(h) && i + 1 < |h.ons|
  {
    h.ons[i + 1] - h.offs[i] >= c
  }

  /** The i-th exit is stamped 0 and followed by an activation before time c. */
  predicate SkipsAtZero(h: History, c: real, i: nat)
    requires Told(h) && i + 1 < |h.ons|
  {
    h.offs[i] == 0.0 && h.ons[i + 1] < c
  }

  /** Exits follow activations by at least d, activations follow exits by at least c. */
  predicate Unflapping(h: History, d: real, c: real) {
    && Told(h) && StretchesLast(h, d)
    && forall i :: 0 <= i < |h.ons| - 1 ==> GapLasts(h, c, i)
  }

  /** What holds on any clock. */
  predicate Steady(h: History, d: real, c: real) {
    && Told(h) && StretchesLast(h, d)
    && forall i :: 0 <= i < |h.ons| - 1 ==> h.offs[i] == 0.0 || GapLasts(h, c, i)
  }

  lemma LookKeepsSteady(h: History, l: Look, d: real, c: real)
    requires Steady(h, d, c) && l.minDuration >= d && l.cooldown >= c
    ensures Steady(Extend(h, l), d, c)
  {
    var h' := Extend(h, l);
    forall i | 0 <= i < |h'.ons| - 1 ensures h'.offs[i] == 0.0 || GapLasts(h', c, i) {
      if i < |h.ons| - 1 { assert h.offs[i] == 0.0 || GapLasts(h, c, i); }
    }
  }

  lemma {:induction false} LooksKeepSteady(looks: seq<Look>, d: real, c: real)
    requires forall l <- looks :: l.minDuration >= d && l.cooldown >= c
    ensures Steady(Replay(History(FRESH, [], []), looks), d, c)
  {
    if looks != [] {
      var front, l := looks[..|looks| - 1], looks[|looks| - 1];
      assert forall x <- front :: x in looks;
      assert l in looks;
      LooksKeepSteady(front, d, c);
      LookKeepsSteady(Replay(History(FRESH, [], []), front), l, d, c);
    }
  }

  /**
   * In every sequence of looks, on any clock, stretches last at least d; gaps last at least c if and
   * only if no exit stamped 0 is followed by an activation before time c.
   */
  lemma FlapsExactly(looks: seq<Look>, d: real, c: real)
    requires forall l <- looks :: l.minDuration >= d && l.cooldown >= c
    ensures var h := Replay(History(FRESH, [], []), looks);
            && Told(h) && StretchesLast(h, d)
            && (Unflapping(h, d, c) <==> forall i :: 0 <= i < |h.ons| - 1 ==> !SkipsAtZero(h, c, i))
  {
    LooksKeepSteady(looks, d, c);
    var h := Replay(History(FRESH, [], []), looks);
    forall i | 0 <= i < |h.ons| - 1 ensures GapLasts(h, c, i) <==> !SkipsAtZero(h, c, i) {
      assert h.offs[i] == 0.0 || GapLasts(h, c, i);
    }
  }

  /**
   * An inactive regime is switched on before its cooldown is over if and only if its last exit was
   * stamped 0 and the time is below the cooldown.
   */
  lemma SkipsCooldownExactly(looks: seq<Look>, l: Look)
    requires var h := Replay(History(FRESH, [], []), looks); !h.rs.active && h.offs != []
    ensures var h := Replay(History(FRESH, [], []), looks); var exit := h.offs[|h.offs| - 1];
            Extend(h, l).rs.active && l.now - exit < l.cooldown <==> l.met && exit == 0.0 && l.now < l.cooldown
  {
    ReplayIsTold(looks);
  }

  /**
   * After any looks: an inactive regime is switched on exactly if the condition holds and it never
   * exited, or its last exit is stamped 0, or the cooldown has passed since; an active one is switched
   * off exactly if the condition fails and the minimum duration has passed since its activation.
   */
  lemma SwitchesExactly(looks: seq<Look>, l: Look)
    ensures var h := Replay(History(FRESH, [], []), looks);
            && Told(h)
            && (!h.rs.active ==>
                  (Extend(h, l).rs.active <==>
                     l.met && (h.offs == [] || h.offs[|h.offs| - 1] == 0.0
                               || l.now - h.offs[|h.offs| - 1] >= l.cooldown)))
            && (h.rs.active ==>
                  (!Extend(h, l).rs.active <==> !l.met && l.now - h.ons[|h.ons| - 1] >= l.minDuration))
  {
    ReplayIsTold(looks);
  }

  /** The objective's condition on its variable: unknown variables fail it, unknown operators raise. */
  lemma MetExactly(o: Objective, getter: string -> Option<real>)
    ensures getter(o.variable).None? ==> Met(o, getter) == Some(false)
    ensures getter(o.variable).Some? && o.operator !in Evaluator.OPERATORS ==> Met(o, getter) == None
    ensures getter(o.variable).Some? && o.operator in Evaluator.OPERATORS ==>
              Met(o, getter) == Some(Evaluator.Meets(o.operator, getter(o.variable).value, o.target))
  {
    if getter(o.variable).Some? { Evaluator.CompareExactly(o.operator, getter(o.variable).value, o.target); }
  }

  /** A pass raises exactly if some objective has a readable variable and an unknown operator. */
  lemma {:induction false} RaisesExactly(regimes: Regimes, objectives: seq<Objective>, now: real,
                                         getter: string -> Option<real>)
    requires forall o <- objectives :: o.regime in regimes
    ensures !PassOver(regimes, objectives, now, getter).ok
            <==> exists o <- objectives :: getter(o.variable).Some? && o.operator !in Evaluator.OPERATORS
    decreases |objectives|
  {
    if objectives != [] {
      var o := objectives[0];
      MetExactly(o, getter);
      assert objectives == [o] + objectives[1..];
      if Met(o, getter).Some? {
        var rs := Observe(regimes[o.regime], now, Met(o, getter).value, o.minDuration, o.cooldown);
        RaisesExactly(regimes[o.regime := rs], objectives[1..], now, getter);
      }
    }
  }

  /** A pass lists an objective exactly if its regime is active after its own turn. */
  lemma {:induction false} ListedExactly(regimes: Regimes, front: seq<Objective>, o: Objective, now: real,
                                         getter: string -> Option<real>)
    requires (forall x <- front :: x.regime in regimes) && o.regime in regimes
    requires PassOver(regimes, front + [o], now, getter).ok
    ensures var before, after := PassOver(regimes, front, now, getter), PassOver(regimes, front + [o], now, getter);
            && before.ok && o.regime in after.regimes
            && after.active == before.active + if after.regimes[o.regime].active then [o] else []
    decreases |front|
  {
    if front == [] {
      assert front + [o] == [o] && [o][1..] == [];
    } else {
      var x := front[0];
      assert (front + [o])[0] == x && (front + [o])[1..] == front[1..] + [o];
      var rs := Observe(regimes[x.regime], now, Met(x, getter).value, x.minDuration, x.cooldown);
      ListedExactly(regimes[x.regime := rs], front[1..], o, now, getter);
    }
  }

  lemma {:induction false} ExitsAreLooks(looks: seq<Look>, i: nat)
    requires i < |Replay(History(FRESH, [], []), looks).offs|
    ensures exists l <- looks :: l.now == Replay(History(FRESH, [], []), looks).offs[i]
  {
    var front, l := looks[..|looks| - 1], looks[|looks| - 1];
    if i < |Replay(History(FRESH, [], []), front).offs| {
      ExitsAreLooks(front, i);
      var x :| x in front && x.now == Replay(History(FRESH, [], []), front).offs[i];
      assert x in looks;
    } else {
      assert l in looks;
    }
  }

  /** So on a clock that never reads 0, stretches last at least d and gaps at least c. */
  lemma NoFlapping(looks: seq<Look>, d: real, c: real)
    requires forall l <- looks :: l.now != 0.0 && l.minDuration >= d && l.cooldown >= c
    ensures Unflapping(Replay(History(FRESH, [], []), looks), d, c)
  {
    FlapsExactly(looks, d, c);
    var h := Replay(History(FRESH, [], []), looks);
    forall i | 0 <= i < |h.ons| - 1 ensures !SkipsAtZero(h, c, i) { ExitsAreLooks(looks, i); }
  }

  /** n times x, by repeated addition. */
  function Times(n: nat, x: real): real {
    if n == 0 then 0.0 else Times(n - 1, x) + x
  }

  lemma {:induction false} TimesIsProduct(n: nat, x: real)
    ensures Times(n, x) == n as real * x
  {
    if n > 0 {
      TimesIsProduct(n - 1, x);
      OneMore((n - 1) as real, x);
    }
  }

  lemma OneMore(n: real, x: real)
    ensures (n + 1.0) * x == n * x + x
  {
  }

  lemma {:induction false} CyclesAddUp(h: History, d: real, c: real, n: nat)
    requires Unflapping(h, d, c) && n < |h.ons|
    ensures h.ons[n] - h.ons[0] >= Times(n, d + c)
  {
    if n > 0 {
      CyclesAddUp(h, d, c, n - 1);
      assert h.offs[n - 1] - h.ons[n - 1] >= d;
      assert GapLasts(h, c, n - 1);
    }
  }

  /** The n-th activation after the first comes at least n cycles later. */
  predicate SpreadOut(ons: seq<real>, cycle: real) {
    forall n :: 0 <= n < |ons| ==> ons[n] - ons[0] >= n as real * cycle
  }

  lemma Spread(h: History, d: real, c: real)
    requires Unflapping(h, d, c)
    ensures SpreadOut(h.ons, d + c)
  {
    forall n: nat | n < |h.ons| ensures h.ons[n] - h.ons[0] >= Times(n, d + c) { CyclesAddUp(h, d, c, n); }
    TimesSpread(h.ons, d + c);
  }

  lemma TimesSpread(ons: seq<real>, cycle: real)
    requires forall n :: 0 <= n < |ons| ==> ons[n] - ons[0] >= Times(n, cycle)
    ensures SpreadOut(ons, cycle)
  {
    forall n: nat | n < |ons| ensures ons[n] - ons[0] >= n as real * cycle { TimesIsProduct(n, cycle); }
  }

  // ---- the manager over many calls ----------------------------------------------------------------

  /** One call of active_objectives. */
  datatype Call = Call(now: real, getter: string -> Option<real>)

  function RegimesAfter(objectives: seq<Objective>, calls: seq<Call>): (regimes: Regimes)
    ensures Names(objectives) <= regimes.Keys
  {
    if calls == [] then AllFresh(objectives)
    else
      var before, call := RegimesAfter(objectives, calls[..|calls| - 1]), calls[|calls| - 1];
      KeysStay(before, objectives, call.now, call.getter);
      PassOver(before, objectives, call.now, call.getter).regimes
  }

  lemma {:induction false} KeysStay(regimes: Regimes, objectives: seq<Objective>, now: real,
                                    getter: string -> Option<real>)
    requires Names(objectives) <= regimes.Keys
    ensures forall o <- objectives :: o.regime in regimes
    ensures PassOver(regimes, objectives, now, getter).regimes.Keys == regimes.Keys
    decreases |objectives|
  {
    assert forall o <- objectives :: o.regime in Names(objectives);
    if objectives != [] && Met(objectives[0], getter).Some? {
      var o := objectives[0];
      var rs := Observe(regimes[o.regime], now, Met(o, getter).value, o.minDuration, o.cooldown);
      assert Names(objectives[1..]) <= Names(objectives);
      KeysStay(regimes[o.regime := rs], objectives[1..], now, getter);
    }
  }

  function LooksOver(objectives: seq<Objective>, name: string, calls: seq<Call>): seq<Look> {
    if calls == [] then []
    else
      var call := calls[|calls| - 1];
      LooksOver(objectives, name, calls[..|calls| - 1]) + LooksAt(objectives, name, call.now, call.getter)
  }

  lemma {:induction false} LooksAreBounded(objectives: seq<Objective>, name: string, now: real,
                                           getter: string -> Option<real>, d: real, c: real)
    requires forall o <- objectives :: o.regime == name ==> o.minDuration >= d && o.cooldown >= c
    ensures forall l <- LooksAt(objectives, name, now, getter) :: l.now == now && l.minDuration >= d && l.cooldown >= c
  {
    if objectives != [] && Met(objectives[0], getter).Some? {
      assert objectives[0] in objectives;
      LooksAreBounded(objectives[1..], name, now, getter, d, c);
    }
  }

  lemma {:induction false} CallsReplayLooks(objectives: seq<Objective>, name: string, calls: seq<Call>, d: real,
                                            c: real)
    requires name in Names(objectives)
    requires forall o <- objectives :: o.regime == name ==> o.minDuration >= d && o.cooldown >= c
    ensures RegimesAfter(objectives, calls)[name]
              == Replay(History(FRESH, [], []), LooksOver(objectives, name, calls)).rs
    ensures forall l <- LooksOver(objectives, name, calls) :: l.minDuration >= d && l.cooldown >= c
    ensures (forall call <- calls :: call.now != 0.0) ==> forall l <- LooksOver(objectives, name, calls) :: l.now != 0.0
  {
    if calls != [] {
      var front, call := calls[..|calls| - 1], calls[|calls| - 1];
      assert forall x <- front :: x in calls;
      assert call in calls;
      CallsReplayLooks(objectives, name, front, d, c);
      var before := RegimesAfter(objectives, front);
      KeysStay(before, objectives, call.now, call.getter);
      var h := Replay(History(FRESH, [], []), LooksOver(objectives, name, front));
      PassReplaysLooks(before, objectives, call.now, call.getter, h, name);
      ReplaySplit(History(FRESH, [], []), LooksOver(objectives, name, front),
                  LooksAt(objectives, name, call.now, call.getter));
      LooksAreBounded(objectives, name, call.now, call.getter, d, c);
    }
  }

  /**
   * Whatever the calls, a regime's state is the end of a history of activations and exits in which
   * every stretch lasts at least the smallest minimum duration of its objectives, and every gap at
   * least their smallest cooldown if and only if no exit stamped 0 was followed too soon; so it never
   * flaps on a clock that does not read 0.
   */
  lemma RegimesNeverFlap(objectives: seq<Objective>, name: string, calls: seq<Call>, d: real, c: real)
    requires name in Names(objectives)
    requires forall o <- objectives :: o.regime == name ==> o.minDuration >= d && o.cooldown >= c
    ensures var h := Replay(History(FRESH, [], []), LooksOver(objectives, name, calls));
            && h.rs == RegimesAfter(objectives, calls)[name]
            && Told(h) && StretchesLast(h, d)
            && (Unflapping(h, d, c) <==> forall i :: 0 <= i < |h.ons| - 1 ==> !SkipsAtZero(h, c, i))
            && ((forall call <- calls :: call.now != 0.0) ==> Unflapping(h, d, c) && SpreadOut(h.ons, d + c))
  {
    CallsReplayLooks(objectives, name, calls, d, c);
    var looks := LooksOver(objectives, name, calls);
    FlapsExactly(looks, d, c);
    if forall call <- calls :: call.now != 0.0 {
      NoFlapping(looks, d, c);
      Spread(Replay(History(FRESH, [], []), looks), d, c);
    }
  }

  /** For one: after an exit stamped 0 the next entry ignores any cooldown above 1. */
  lemma ZeroClockSkipsCooldown(cooldown: real)
    requires cooldown > 1.0
    ensures var looks := [Look(0.0, true, 0.0, cooldown), Look(0.0, false, 0.0, cooldown),
                          Look(1.0, true, 0.0, cooldown)];
            var h := Replay(History(FRESH, [], []), looks);
            h.ons == [0.0, 1.0] && h.offs == [0.0] && !Unflapping(h, 0.0, cooldown)
  {
    var looks := [Look(0.0, true, 0.0, cooldown), Look(0.0, false, 0.0, cooldown), Look(1.0, true, 0.0, cooldown)];
    assert looks[..2][..1] == looks[..1] && looks[..1][..0] == [];
    assert Replay(History(FRESH, [], []), looks[..1]) == History(RegimeState(true, 0.0, 0.0), [0.0], []);
    assert Replay(History(FRESH, [], []), looks[..2]) == History(RegimeState(false, 0.0, 0.0), [0.0], [0.0]);
    var h := Replay(History(FRESH, [], []), looks);
    assert h.ons == [0.0, 1.0] && h.offs == [0.0];
    FlapsExactly(looks, 0.0, cooldown);
    assert SkipsAtZero(h, cooldown, 0);
  }
}
