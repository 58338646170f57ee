/** control_plane/swarmz_adapter.py: applying an action's expected effects to the state store. */
module Adapter {
  import opened Prelude
  import opened StateLog
  import opened StateStore

  datatype Effect = Effect(variable: string, delta: Number)

  datatype Action = Action(actionId: string, effects: seq<Effect>)

  /** The part of a variable's name before its first dot. */
  function LayerOf(variable: string): string {
    if '.' in variable then UpToDot(variable) else "unknown"
  }

  function UpToDot(s: string): string {
    if s == "" || s[0] == '.' then "" else [s[0]] + UpToDot(s[1..])
  }

  /** 0.9 */
  function Confidence(): (x: Number)
    ensures x == 0.9
  {
    FractionIsNumber(0.9, 9, 10);
    0.9
  }

  function Zero(): (x: Number)
    ensures x == 0.0
  {
    FractionIsNumber(0.0, 0, 1);
    0.0
  }

  function EffectRecord(e: Effect, value: Number, actionId: string, now: int): StateRecord {
    StateRecord(LayerOf(e.variable), e.variable, Some(value), now, Confidence(),
                if e.delta >= 0.0 then "up" else "down", "adapter:" + actionId)
  }

  /** A variable's current value, 0 where none was recorded, and None where null was recorded. */
  function Current(log: seq<StateRecord>, variable: string): Option<Number> {
    ValueIn(Replay(log), variable, Some(Zero()))
  }

  /** The log after executing, and whether every effect could be applied: adding to null raises. */
  datatype Effected = Effected(log: seq<StateRecord>, ok: bool)

  function ApplyEffect(log: seq<StateRecord>, e: Effect, actionId: string, now: int): Effected {
    match Current(log, e.variable)
    case None => Effected(log, false)
    case Some(x) => Effected(log + [EffectRecord(e, Plus(x, e.delta), actionId, now)], true)
  }

  function ApplyAll(log: seq<StateRecord>, effects: seq<Effect>, actionId: string, now: int): Effected
    decreases |effects|
  {
    if effects == [] then Effected(log, true)
    else
      var first := ApplyEffect(log, effects[0], actionId, now);
      if first.ok then ApplyAll(first.log, effects[1..], actionId, now) else first
  }

  /** Reads the variable and writes it back; false stands for the error of adding to null. */
  method ExecuteEffect(state: Store, e: Effect, actionId: string, now: int) returns (ok: bool)
    requires state.Valid()
    modifies state
    ensures state.Valid()
    ensures Effected(state.log, ok) == ApplyEffect(old(state.log), e, actionId, now)
  {
    var current := state.GetValue(e.variable, Some(Zero()));
    if current.None? {
      return false;
    }
    var stored := state.Put(EffectRecord(e, Plus(current.value, e.delta), actionId, now));
    ok := true;
  }

  lemma ApplyFrom(log: seq<StateRecord>, effects: seq<Effect>, i: nat, actionId: string, now: int, first: Effected)
    requires i < |effects| && first == ApplyEffect(log, effects[i], actionId, now)
    ensures ApplyAll(log, effects[i..], actionId, now)
         == if first.ok then ApplyAll(first.log, effects[i + 1..], actionId, now) else first
  {
    assert effects[i..][1..] == effects[i + 1..];
  }

  /** Runs the effects one by one. */
  method Execute(state: Store, action: Action, now: int) returns (ok: bool)
    requires state.Valid()
    modifies state
    ensures state.Valid()
    ensures Effected(state.log, ok) == ApplyAll(old(state.log), action.effects, action.actionId, now)
  {
    ghost var all := ApplyAll(state.log, action.effects, action.actionId, now);
    var i := 0;
    while i < |action.effects|
      invariant 0 <= i <= |action.effects| && state.Valid()
      invariant all == ApplyAll(state.log, action.effects[i..], action.actionId, now)
    {
      ghost var before := state.log;
      ok := ExecuteEffect(state, action.effects[i], action.actionId, now);
      ApplyFrom(before, action.effects, i, action.actionId, now, Effected(state.log, ok));
      if !ok {
        return;
      }
      i := i + 1;
    }
    ok := true;
  }

  // ---- what executing does to the state ----------------------------------------------------

  function TotalDelta(effects: seq<Effect>, variable: string): real {
    if effects == [] then 0.0
    else (if effects[0].variable == variable then effects[0].delta else 0.0) + TotalDelta(effects[1..], variable)
  }

  predicate Affects(effects: seq<Effect>, variable: string) {
    exists i :: 0 <= i < |effects| && effects[i].variable == variable
  }

  lemma AffectsSplit(effects: seq<Effect>, variable: string)
    requires effects != []
    ensures Affects(effects, variable) <==> effects[0].variable == variable || Affects(effects[1..], variable)
  {
    if i :| 0 <= i < |effects[1..]| && effects[1..][i].variable == variable {
      assert effects[i + 1].variable == variable;
    }
  }

  /** Execution succeeds exactly when none of the affected variables is currently null. */
  lemma {:induction false} SucceedsExactly(log: seq<StateRecord>, effects: seq<Effect>, actionId: string, now: int)
    ensures ApplyAll(log, effects, actionId, now).ok
            <==> forall i :: 0 <= i < |effects| ==> Current(log, effects[i].variable).Some?
    decreases |effects|
  {
    if effects != [] && Current(log, effects[0].variable).Some? {
      var x := Current(log, effects[0].variable).value;
      var r := EffectRecord(effects[0], Plus(x, effects[0].delta), actionId, now);
      SucceedsExactly(log + [r], effects[1..], actionId, now);
      forall i | 0 < i < |effects|
        ensures Current(log + [r], effects[1..][i - 1].variable).Some? <==> Current(log, effects[i].variable).Some?
      {
        CurrentPush(log, r, effects[i].variable);
      }
    }
  }

  /** Executing an action adds to each variable exactly the sum of its deltas on it. */
  lemma {:induction false} AddsTheDeltas(log: seq<StateRecord>, effects: seq<Effect>, actionId: string, now: int,
                                         v: string)
    requires ApplyAll(log, effects, actionId, now).ok
    ensures var log' := ApplyAll(log, effects, actionId, now).log;
            && (Affects(effects, v) ==> Current(log, v).Some?)
            && (Current(log, v).Some? ==> Current(log', v) == Some(Current(log, v).value + TotalDelta(effects, v)))
    decreases |effects|
  {
    if effects != [] {
      EffectAdds(log, effects[0], actionId, now, v);
      AddsTheDeltas(ApplyEffect(log, effects[0], actionId, now).log, effects[1..], actionId, now, v);
      AffectsSplit(effects, v);
    }
  }

  lemma EffectAdds(log: seq<StateRecord>, e: Effect, actionId: string, now: int, v: string)
    requires ApplyEffect(log, e, actionId, now).ok
    ensures var log' := ApplyEffect(log, e, actionId, now).log;
            if v == e.variable then Current(log, v).Some? && Current(log', v) == Some(Current(log, v).value + e.delta)
            else Current(log', v) == Current(log, v)
  {
    CurrentPush(log, EffectRecord(e, Plus(Current(log, e.variable).value, e.delta), actionId, now), v);
  }

  /** A variable no effect names keeps its record, or its absence. */
  lemma {:induction false} LeavesOthersAlone(log: seq<StateRecord>, effects: seq<Effect>, actionId: string,
                                             now: int, v: string)
    requires !Affects(effects, v)
    ensures ReadsSame(ApplyAll(log, effects, actionId, now).log, log, v)
    decreases |effects|
  {
    if effects != [] {
      AffectsSplit(effects, v);
      if Current(log, effects[0].variable).Some? {
        var x := Current(log, effects[0].variable).value;
        var r := EffectRecord(effects[0], Plus(x, effects[0].delta), actionId, now);
        CurrentPush(log, r, v);
        LeavesOthersAlone(log + [r], effects[1..], actionId, now, v);
      }
    }
  }

  predicate ReadsSame(a: seq<StateRecord>, b: seq<StateRecord>, v: string) {
    && (v in Replay(a) <==> v in Replay(b))
    && (v in Replay(b) ==> Replay(a)[v] == Replay(b)[v])
  }

  lemma CurrentPush(log: seq<StateRecord>, r: StateRecord, v: string)
    ensures Current(log + [r], v) == if v == r.variable then r.value else Current(log, v)
    ensures v != r.variable ==> ReadsSame(log + [r], log, v)
  {
    ReplayPush(map[], log, r);
  }

  function Negated(effects: seq<Effect>): (n: seq<Effect>)
    ensures |n| == |effects|
    ensures forall i :: 0 <= i < |n| ==> n[i] == Effect(effects[i].variable, Minus(effects[i].delta))
  {
    if effects == [] then [] else [Effect(effects[0].variable, Minus(effects[0].delta))] + Negated(effects[1..])
  }

  lemma {:induction false} NegatedTotal(effects: seq<Effect>, v: string)
    ensures TotalDelta(Negated(effects), v) == -TotalDelta(effects, v)
  {
    if effects != [] { NegatedTotal(effects[1..], v); }
  }

  /** Executing the delta-negated action next restores every value, read with default 0. */
  lemma RollbackRestores(log: seq<StateRecord>, action: Action, undo: Action, now: int, later: int, v: string)
    requires undo.effects == Negated(action.effects)
    requires ApplyAll(log, action.effects, action.actionId, now).ok
    ensures var done := ApplyAll(log, action.effects, action.actionId, now).log;
            var undone := ApplyAll(done, undo.effects, undo.actionId, later);
            undone.ok && Current(undone.log, v) == Current(log, v)
  {
    var done := ApplyAll(log, action.effects, action.actionId, now).log;
    forall i | 0 <= i < |undo.effects| ensures Current(done, undo.effects[i].variable).Some? {
      assert Affects(action.effects, action.effects[i].variable);
      AddsTheDeltas(log, action.effects, action.actionId, now, action.effects[i].variable);
    }
    SucceedsExactly(done, undo.effects, undo.actionId, later);
    if Affects(action.effects, v) {
      AddsTheDeltas(log, action.effects, action.actionId, now, v);
      AddsTheDeltas(done, undo.effects, undo.actionId, later, v);
      NegatedTotal(action.effects, v);
    } else {
      LeavesOthersAlone(log, action.effects, action.actionId, now, v);
      LeavesOthersAlone(done, undo.effects, undo.actionId, later, v);
    }
  }

  /** The layer is what stands before the variable's first dot. */
  predicate InLayer(layer: string, variable: string) {
    if '.' in variable then
      && '.' !in layer && |layer| < |variable|
      && layer == variable[..|layer|] && variable[|layer|] == '.'
    else
      layer == "unknown"
  }

  lemma {:induction false} LayerBeforeDot(s: string)
    requires '.' in s
    ensures InLayer(UpToDot(s), s)
  {
    if s[0] != '.' {
      assert s == [s[0]] + s[1..];
      LayerBeforeDot(s[1..]);
    }
  }

  /** A legal record of the effect: its variable, its direction, the action it came from and the time. */
  predicate Records(r: StateRecord, e: Effect, actionId: string, now: int) {
    && SchemaOk(r) && r.confidence == 0.9 && InLayer(r.layer, e.variable)
    && r.variable == e.variable && r.value.Some? && r.time == now
    && r.source == "adapter:" + actionId
    && (r.directionality == "down" <==> e.delta < 0.0)
  }

  predicate RecordsAll(written: seq<StateRecord>, effects: seq<Effect>, actionId: string, now: int) {
    |written| == |effects| && forall i :: 0 <= i < |effects| ==> Records(written[i], effects[i], actionId, now)
  }

  lemma RecordsOneMore(r: StateRecord, rest: seq<StateRecord>, effects: seq<Effect>, actionId: string, now: int)
    requires effects != [] && Records(r, effects[0], actionId, now) && RecordsAll(rest, effects[1..], actionId, now)
    ensures RecordsAll([r] + rest, effects, actionId, now)
  {
    forall i | 0 < i < |effects| ensures Records(([r] + rest)[i], effects[i], actionId, now) {
      assert Records(rest[i - 1], effects[1..][i - 1], actionId, now);
    }
  }

  lemma EffectAppends(log: seq<StateRecord>, e: Effect, actionId: string, now: int) returns (r: StateRecord)
    requires ApplyEffect(log, e, actionId, now).ok
    ensures ApplyEffect(log, e, actionId, now).log == log + [r] && Records(r, e, actionId, now)
  {
    r := EffectRecord(e, Plus(Current(log, e.variable).value, e.delta), actionId, now);
    if '.' in e.variable { LayerBeforeDot(e.variable); }
  }

  /** How many effects come before the first one whose variable currently holds null. */
  function AppliedCount(log: seq<StateRecord>, effects: seq<Effect>): (k: nat)
    ensures k <= |effects|
    ensures forall i :: 0 <= i < k ==> Current(log, effects[i].variable).Some?
    ensures k < |effects| ==> Current(log, effects[k].variable).None?
  {
    if effects == [] || Current(log, effects[0].variable).None? then 0 else 1 + AppliedCount(log, effects[1..])
  }

  lemma {:induction false} SameCount(a: seq<StateRecord>, b: seq<StateRecord>, effects: seq<Effect>)
    requires forall v :: Current(a, v).Some? <==> Current(b, v).Some?
    ensures AppliedCount(a, effects) == AppliedCount(b, effects)
    decreases |effects|
  {
    if effects != [] { SameCount(a, b, effects[1..]); }
  }

  /**
   * Executing, even up to an error, appends one legal record per effect before the first on a
   * null variable, in order, and nothing else.
   */
  lemma {:induction false} AppendsWhatItApplied(log: seq<StateRecord>, effects: seq<Effect>, actionId: string, now: int)
    returns (written: seq<StateRecord>)
    ensures var k := AppliedCount(log, effects);
            && ApplyAll(log, effects, actionId, now) == Effected(log + written, k == |effects|)
            && RecordsAll(written, effects[..k], actionId, now)
    decreases |effects|
  {
    if AppliedCount(log, effects) == 0 {
      written := [];
      assert log + [] == log;
    } else {
      var r := AppliesFirst(log, effects, actionId, now);
      var rest := AppendsWhatItApplied(log + [r], effects[1..], actionId, now);
      written := [r] + rest;
      AppliedOneMore(log, r, rest, effects, AppliedCount(log, effects), actionId, now);
    }
  }

  lemma AppliesFirst(log: seq<StateRecord>, effects: seq<Effect>, actionId: string, now: int) returns (r: StateRecord)
    requires AppliedCount(log, effects) > 0
    ensures Records(r, effects[0], actionId, now)
    ensures ApplyAll(log, effects, actionId, now) == ApplyAll(log + [r], effects[1..], actionId, now)
    ensures AppliedCount(log, effects) == 1 + AppliedCount(log + [r], effects[1..])
  {
    r := EffectAppends(log, effects[0], actionId, now);
    AppliedKeepsNulls(log, effects[0], actionId, now);
    SameCount(log, log + [r], effects[1..]);
  }

  lemma AppliedOneMore(log: seq<StateRecord>, r: StateRecord, rest: seq<StateRecord>, effects: seq<Effect>, k: nat,
                       actionId: string, now: int)
    requires 0 < k <= |effects| && Records(r, effects[0], actionId, now)
    requires RecordsAll(rest, effects[1..][..k - 1], actionId, now)
    ensures log + [r] + rest == log + ([r] + rest) && RecordsAll([r] + rest, effects[..k], actionId, now)
  {
    assert effects[..k][1..] == effects[1..][..k - 1];
    RecordsOneMore(r, rest, effects[..k], actionId, now);
  }

  lemma AppliedKeepsNulls(log: seq<StateRecord>, e: Effect, actionId: string, now: int)
    requires ApplyEffect(log, e, actionId, now).ok
    ensures forall v :: Current(log, v).Some? <==> Current(ApplyEffect(log, e, actionId, now).log, v).Some?
  {
    forall v ensures Current(log, v).Some? <==> Current(ApplyEffect(log, e, actionId, now).log, v).Some? {
      EffectAdds(log, e, actionId, now, v);
    }
  }

  /** Behind the old log there is one legal record per effect, in order. */
  lemma AppendsOnePerEffect(log: seq<StateRecord>, effects: seq<Effect>, actionId: string, now: int)
    returns (written: seq<StateRecord>)
    requires ApplyAll(log, effects, actionId, now).ok
    ensures ApplyAll(log, effects, actionId, now).log == log + written
    ensures RecordsAll(written, effects, actionId, now)
  {
    written := AppendsWhatItApplied(log, effects, actionId, now);
    assert effects[..|effects|] == effects;
  }

  // ---- what execution reads ------------------------------------------------------------------------

  /** A variable reads as its latest record says, and as 0 if there is none. */
  lemma CurrentExactly(log: seq<StateRecord>, v: string)
    ensures (forall r <- log :: r.variable != v) ==> Current(log, v).Some? && Current(log, v).value == 0.0
    ensures forall i :: LatestAt(log, v, i) ==> Current(log, v) == log[i].value
  {
    ValueExactly(log, v, Some(Zero()));
  }

  lemma {:induction false} LatestExists(log: seq<StateRecord>, v: string) returns (i: int)
    ensures if exists r <- log :: r.variable == v then LatestAt(log, v, i) else i == -1
  {
    if log == [] {
      i := -1;
    } else if log[|log| - 1].variable == v {
      i := |log| - 1;
    } else {
      var front := log[..|log| - 1];
      i := LatestExists(front, v);
      assert log == front + [log[|log| - 1]];
    }
  }

  /** Execution raises exactly if the latest record of some affected variable holds null. */
  lemma RaisesExactly(log: seq<StateRecord>, effects: seq<Effect>, actionId: string, now: int)
    ensures !ApplyAll(log, effects, actionId, now).ok
            <==> exists e <- effects, i :: LatestAt(log, e.variable, i) && log[i].value.None?
  {
    SucceedsExactly(log, effects, actionId, now);
    forall e <- effects
      ensures Current(log, e.variable).None? <==> exists i :: LatestAt(log, e.variable, i) && log[i].value.None?
    {
      CurrentExactly(log, e.variable);
      var i := LatestExists(log, e.variable);
    }
    if k :| 0 <= k < |effects| && Current(log, effects[k].variable).None? { assert effects[k] in effects; }
  }
}
