/** control_plane/scoring.py: deterministic action scoring and selection, over exact reals. */
module Scoring {
  import opened Prelude
  import opened Adapter
  import opened Ordering

  const NORM_SCALE: real := 100.0
  const DEFAULT_CONFIDENCE: real := 0.5

  datatype Lambdas = Lambdas(risk: real, coupling: real, irr: real, uncertainty: real)

  datatype Coupling = Coupling(fromVariable: string, sign: int, strength: real, confidence: real)

  datatype Candidate = Candidate(id: string, effects: seq<Effect>, irreversibility: real)

  /** The confidence of each variable that has a state record. */
  type Confidences = map<string, real>

  function Min(a: real, b: real): real {
    if a <= b then a else b
  }

  // ---- the four terms --------------------------------------------------------------------

  function AffectedVariables(effects: seq<Effect>): set<string> {
    set e | e in effects :: e.variable
  }

  function DamageSum(edges: seq<Coupling>, affected: set<string>): real {
    if edges == [] then 0.0
    else
      var e := edges[|edges| - 1];
      DamageSum(edges[..|edges| - 1], affected)
      + if e.fromVariable in affected && e.sign == -1 then e.strength * e.confidence else 0.0
  }

  method CouplingDamage(edges: seq<Coupling>, effects: seq<Effect>) returns (damage: real)
    ensures damage == Min(DamageSum(edges, AffectedVariables(effects)), 1.0)
  {
    damage := 0.0;
    var affected := AffectedVariables(effects);
    for i := 0 to |edges|
      invariant damage == DamageSum(edges[..i], affected)
    {
      assert edges[..i + 1][..i] == edges[..i];
      if edges[i].fromVariable in affected && edges[i].sign == -1 {
        damage := damage + edges[i].strength * edges[i].confidence;
      }
    }
    assert edges[..|edges|] == edges;
    damage := Min(damage, 1.0);
  }

  /** Positive deltas, each scaled and clamped to 1. */
  function ClampedGain(effects: seq<Effect>): real {
    if effects == [] then 0.0
    else
      var d := effects[|effects| - 1].delta;
      ClampedGain(effects[..|effects| - 1]) + if d > 0.0 then Min(d / NORM_SCALE, 1.0) else 0.0
  }

  /** Positive deltas, scaled only. */
  function PlainGain(effects: seq<Effect>): real {
    if effects == [] then 0.0
    else
      var d := effects[|effects| - 1].delta;
      PlainGain(effects[..|effects| - 1]) + if d > 0.0 then d / NORM_SCALE else 0.0
  }

  method Benefit(effects: seq<Effect>) returns (total: real)
    ensures total == Min(ClampedGain(effects), 1.0)
  {
    total := 0.0;
    for i := 0 to |effects|
      invariant total == ClampedGain(effects[..i])
    {
      assert effects[..i + 1][..i] == effects[..i];
      var d := effects[i].delta;
      if d > 0.0 {
        total := total + Min(d / NORM_SCALE, 1.0);
      }
    }
    assert effects[..|effects|] == effects;
    total := Min(total, 1.0);
  }

  function Negatives(effects: seq<Effect>): nat {
    if effects == [] then 0
    else Negatives(effects[..|effects| - 1]) + if effects[|effects| - 1].delta < 0.0 then 1 else 0
  }

  /** The fraction of effects that are negative. */
  function Risk(effects: seq<Effect>): real {
    if effects == [] then 0.0 else Negatives(effects) as real / |effects| as real
  }

  function ConfidenceOf(state: Confidences, variable: string): real {
    if variable in state then state[variable] else DEFAULT_CONFIDENCE
  }

  function ConfidenceSum(effects: seq<Effect>, state: Confidences): real {
    if effects == [] then 0.0
    else ConfidenceSum(effects[..|effects| - 1], state) + ConfidenceOf(state, effects[|effects| - 1].variable)
  }

  function Uncertainty(effects: seq<Effect>, state: Confidences): real {
    if effects == [] then 0.5 else 1.0 - ConfidenceSum(effects, state) / |effects| as real
  }

  function Weigh(gain: real, risk: real, damage: real, irr: real, unc: real, lam: Lambdas): real {
    gain - (lam.risk * risk + lam.coupling * damage + lam.irr * irr + lam.uncertainty * unc)
  }

  function Score(a: Candidate, state: Confidences, edges: seq<Coupling>, lam: Lambdas): real {
    Weigh(Min(ClampedGain(a.effects), 1.0), Risk(a.effects), Min(DamageSum(edges, AffectedVariables(a.effects)), 1.0),
          a.irreversibility, Uncertainty(a.effects, state), lam)
  }

  method ScoreAction(a: Candidate, state: Confidences, edges: seq<Coupling>, lam: Lambdas) returns (score: real)
    ensures score == Score(a, state, edges, lam)
  {
    var b := Benefit(a.effects);
    var r := Risk(a.effects);
    var cd := CouplingDamage(edges, a.effects);
    var unc := AverageDoubt(a.effects, state);
    score := b - (lam.risk * r + lam.coupling * cd + lam.irr * a.irreversibility + lam.uncertainty * unc);
  }

  method AverageDoubt(effects: seq<Effect>, state: Confidences) returns (unc: real)
    ensures unc == Uncertainty(effects, state)
  {
    var sum := 0.0;
    for i := 0 to |effects|
      invariant sum == ConfidenceSum(effects[..i], state)
    {
      assert effects[..i + 1][..i] == effects[..i];
      sum := sum + ConfidenceOf(state, effects[i].variable);
    }
    assert effects[..|effects|] == effects;
    unc := if |effects| > 0 then 1.0 - sum / |effects| as real else 0.5;
  }

  // ---- selection -------------------------------------------------------------------------------

  datatype Scored = Scored(score: real, action: Candidate)

  /** Highest score first, then smallest id. */
  predicate Before(a: Scored, b: Scored) {
    a.score > b.score || (a.score == b.score && StringLe(a.action.id, b.action.id))
  }

  function ScoreAll(actions: seq<Candidate>, state: Confidences, edges: seq<Coupling>,
                    lam: Lambdas): (scored: seq<Scored>)
    ensures |scored| == |actions|
    ensures forall i :: 0 <= i < |actions| ==> scored[i] == Scored(Score(actions[i], state, edges, lam), actions[i])
  {
    if actions == [] then []
    else
      var last := actions[|actions| - 1];
      ScoreAll(actions[..|actions| - 1], state, edges, lam) + [Scored(Score(last, state, edges, lam), last)]
  }

  function Best(actions: seq<Candidate>, state: Confidences, edges: seq<Coupling>, lam: Lambdas): Option<Candidate> {
    var scored := Sort(ScoreAll(actions, state, edges, lam), Before);
    if scored == [] || scored[0].score <= 0.0 then None else Some(scored[0].action)
  }

  method SelectBest(actions: seq<Candidate>, state: Confidences, edges: seq<Coupling>, lam: Lambdas)
    returns (best: Option<Candidate>)
    ensures best == Best(actions, state, edges, lam)
  {
    var scored := [];
    for i := 0 to |actions|
      invariant scored == ScoreAll(actions[..i], state, edges, lam)
    {
      assert actions[..i + 1][..i] == actions[..i];
      var s := ScoreAction(actions[i], state, edges, lam);
      scored := scored + [Scored(s, actions[i])];
    }
    assert actions[..|actions|] == actions;
    scored := Sort(scored, Before);
    if scored == [] || scored[0].score <= 0.0 {
      return None;
    }
    best := Some(scored[0].action);
  }

  lemma BeforeIsTotal()
    ensures TotalOrder(Before)
  {
    forall x, y ensures Before(x, y) || Before(y, x) {
      StringLeTotal(x.action.id, y.action.id);
    }
    forall x, y, z | Before(x, y) && Before(y, z) ensures Before(x, z) {
      if x.score == y.score == z.score { StringLeTransitive(x.action.id, y.action.id, z.action.id); }
    }
  }

  lemma HeadIsBest(actions: seq<Candidate>, state: Confidences, edges: seq<Coupling>, lam: Lambdas, a: Candidate)
    requires a in actions
    ensures var sorted := Sort(ScoreAll(actions, state, edges, lam), Before);
            sorted != [] && Before(sorted[0], Scored(Score(a, state, edges, lam), a))
  {
    var raw := ScoreAll(actions, state, edges, lam);
    var sorted := Sort(raw, Before);
    BeforeIsTotal();
    SortSorts(raw, Before);
    var i :| 0 <= i < |actions| && actions[i] == a;
    assert raw[i] in multiset(raw);
    assert raw[i] in multiset(sorted);
    var j :| 0 <= j < |sorted| && sorted[j] == raw[i];
    StringLeTotal(a.id, a.id);
  }

  /** The head of the ranking is the entry of a listed action. */
  lemma HeadIsListed(actions: seq<Candidate>, state: Confidences, edges: seq<Coupling>, lam: Lambdas)
    requires Sort(ScoreAll(actions, state, edges, lam), Before) != []
    ensures var head := Sort(ScoreAll(actions, state, edges, lam), Before)[0];
            head.action in actions && head.score == Score(head.action, state, edges, lam)
  {
    var raw := ScoreAll(actions, state, edges, lam);
    BeforeIsTotal();
    SortSorts(raw, Before);
    var head := Sort(raw, Before)[0];
    assert head in multiset(raw);
    var k :| 0 <= k < |raw| && raw[k] == head;
    assert head == Scored(Score(actions[k], state, edges, lam), actions[k]);
  }

  /** Nothing is selected exactly when no action scores above zero. */
  lemma NoActionExactly(actions: seq<Candidate>, state: Confidences, edges: seq<Coupling>, lam: Lambdas)
    ensures Best(actions, state, edges, lam).None? <==> forall a <- actions :: Score(a, state, edges, lam) <= 0.0
  {
    forall a <- actions ensures Best(actions, state, edges, lam).None? ==> Score(a, state, edges, lam) <= 0.0 {
      HeadIsBest(actions, state, edges, lam, a);
    }
    if Best(actions, state, edges, lam).Some? { HeadIsListed(actions, state, edges, lam); }
  }

  /** What is selected is a listed action, scores above zero, and beats or ties every other with the smaller id. */
  lemma SelectedIsBest(actions: seq<Candidate>, state: Confidences, edges: seq<Coupling>, lam: Lambdas, a: Candidate)
    requires Best(actions, state, edges, lam).Some? && a in actions
    ensures var best := Best(actions, state, edges, lam).value;
            && best in actions && Score(best, state, edges, lam) > 0.0
            && Score(best, state, edges, lam) >= Score(a, state, edges, lam)
            && (Score(best, state, edges, lam) == Score(a, state, edges, lam) ==> StringLe(best.id, a.id))
  {
    HeadIsBest(actions, state, edges, lam, a);
    HeadIsListed(actions, state, edges, lam);
  }

  /** With distinct ids the order in which actions are listed does not matter. */
  lemma SelectionIgnoresOrder(a: seq<Candidate>, b: seq<Candidate>, state: Confidences, edges: seq<Coupling>,
                              lam: Lambdas)
    requires multiset(a) == multiset(b)
    requires forall x <- a, y <- a :: x.id == y.id ==> x == y
    ensures Best(a, state, edges, lam) == Best(b, state, edges, lam)
  {
    var ra, rb := ScoreAll(a, state, edges, lam), ScoreAll(b, state, edges, lam);
    BeforeIsTotal();
    ScoreAllPermutes(a, b, state, edges, lam);
    forall x <- ra, y <- ra | Before(x, y) && Before(y, x) ensures x == y {
      StringLeTotal(x.action.id, y.action.id);
      assert x.action in a && y.action in a;
    }
    SortIgnoresOrder(ra, rb, Before);
  }

  lemma {:induction false} ScoreAllCounts(actions: seq<Candidate>, state: Confidences, edges: seq<Coupling>,
                                          lam: Lambdas, x: Scored)
    ensures multiset(ScoreAll(actions, state, edges, lam))[x]
         == if x.score == Score(x.action, state, edges, lam) then multiset(actions)[x.action] else 0
  {
    if actions != [] {
      var front, last := actions[..|actions| - 1], actions[|actions| - 1];
      assert actions == front + [last];
      ScoreAllCounts(front, state, edges, lam, x);
    }
  }

  lemma ScoreAllPermutes(a: seq<Candidate>, b: seq<Candidate>, state: Confidences, edges: seq<Coupling>, lam: Lambdas)
    requires multiset(a) == multiset(b)
    ensures multiset(ScoreAll(a, state, edges, lam)) == multiset(ScoreAll(b, state, edges, lam))
  {
    forall x: Scored
      ensures multiset(ScoreAll(a, state, edges, lam))[x] == multiset(ScoreAll(b, state, edges, lam))[x]
    {
      ScoreAllCounts(a, state, edges, lam, x);
      ScoreAllCounts(b, state, edges, lam, x);
    }
  }

  // ---- the range of the score --------------------------------------------------------------------

  predicate SchemaOk(a: Candidate, state: Confidences, edges: seq<Coupling>) {
    && 0.0 <= a.irreversibility <= 1.0
    && (forall v <- state :: 0.0 <= state[v] <= 1.0)
    && (forall e <- edges :: 0.0 <= e.strength <= 1.0 && 0.0 <= e.confidence <= 1.0)
  }

  lemma {:induction false} GainBounds(effects: seq<Effect>)
    ensures 0.0 <= ClampedGain(effects) <= PlainGain(effects)
    ensures ClampedGain(effects) < PlainGain(effects) ==> ClampedGain(effects) >= 1.0
  {
    if effects != [] { GainBounds(effects[..|effects| - 1]); }
  }

  /** Clamping each effect changes nothing, because the sum is clamped as well. */
  lemma InnerClampIsRedundant(effects: seq<Effect>)
    ensures Min(ClampedGain(effects), 1.0) == Min(PlainGain(effects), 1.0)
  {
    GainBounds(effects);
  }

  lemma {:induction false} NegativesBound(effects: seq<Effect>)
    ensures Negatives(effects) <= |effects|
  {
    if effects != [] { NegativesBound(effects[..|effects| - 1]); }
  }

  lemma FractionBound(x: real, n: real)
    requires 0.0 <= x <= n && n > 0.0
    ensures 0.0 <= x / n <= 1.0
  {
  }

  lemma {:induction false} DamageNonnegative(edges: seq<Coupling>, affected: set<string>)
    requires forall e <- edges :: 0.0 <= e.strength <= 1.0 && 0.0 <= e.confidence <= 1.0
    ensures DamageSum(edges, affected) >= 0.0
  {
    if edges != [] {
      var front, e := edges[..|edges| - 1], edges[|edges| - 1];
      assert forall x <- front :: x in edges;
      assert e in edges;
      DamageNonnegative(front, affected);
      ProductNonnegative(e.strength, e.confidence);
    }
  }

  lemma ProductNonnegative(x: real, y: real)
    requires x >= 0.0 && y >= 0.0
    ensures x * y >= 0.0
  {
  }

  lemma {:induction false} ConfidenceBounds(effects: seq<Effect>, state: Confidences)
    requires forall v <- state :: 0.0 <= state[v] <= 1.0
    ensures 0.0 <= ConfidenceSum(effects, state) <= |effects| as real
  {
    if effects != [] { ConfidenceBounds(effects[..|effects| - 1], state); }
  }

  lemma RiskBounds(effects: seq<Effect>)
    ensures 0.0 <= Risk(effects) <= 1.0
  {
    NegativesBound(effects);
    if effects != [] { FractionBound(Negatives(effects) as real, |effects| as real); }
  }

  lemma UncertaintyBounds(effects: seq<Effect>, state: Confidences)
    requires forall v <- state :: 0.0 <= state[v] <= 1.0
    ensures 0.0 <= Uncertainty(effects, state) <= 1.0
  {
    ConfidenceBounds(effects, state);
    if effects != [] { FractionBound(ConfidenceSum(effects, state), |effects| as real); }
  }

  lemma Weighted(w: real, x: real) returns (p: real)
    requires w >= 0.0 && 0.0 <= x <= 1.0
    ensures p == w * x && 0.0 <= p <= w
  {
    p := w * x;
  }

  lemma Parts(gain: real, risk: real, damage: real, irr: real, unc: real, lam: Lambdas)
    returns (p: real, q: real, r: real, s: real)
    requires lam.risk >= 0.0 && lam.coupling >= 0.0 && lam.irr >= 0.0 && lam.uncertainty >= 0.0
    requires 0.0 <= risk <= 1.0 && 0.0 <= damage <= 1.0 && 0.0 <= irr <= 1.0 && 0.0 <= unc <= 1.0
    ensures 0.0 <= p <= lam.risk && 0.0 <= q <= lam.coupling && 0.0 <= r <= lam.irr && 0.0 <= s <= lam.uncertainty
    ensures Weigh(gain, risk, damage, irr, unc, lam) == gain - (p + q + r + s)
  {
    p := Weighted(lam.risk, risk);
    q := Weighted(lam.coupling, damage);
    r := Weighted(lam.irr, irr);
    s := Weighted(lam.uncertainty, unc);
  }

  /** With inputs in schema range and nonnegative weights the score lies between minus their sum and 1. */
  lemma ScoreRange(a: Candidate, state: Confidences, edges: seq<Coupling>, lam: Lambdas)
    requires SchemaOk(a, state, edges)
    requires lam.risk >= 0.0 && lam.coupling >= 0.0 && lam.irr >= 0.0 && lam.uncertainty >= 0.0
    ensures -(lam.risk + lam.coupling + lam.irr + lam.uncertainty) <= Score(a, state, edges, lam) <= 1.0
  {
    var affected := AffectedVariables(a.effects);
    GainBounds(a.effects);
    RiskBounds(a.effects);
    DamageNonnegative(edges, affected);
    UncertaintyBounds(a.effects, state);
    var p, q, r, s := Parts(Min(ClampedGain(a.effects), 1.0), Risk(a.effects), Min(DamageSum(edges, affected), 1.0),
                            a.irreversibility, Uncertainty(a.effects, state), lam);
  }

  lemma {:induction false} ConfidenceSumGrows(effects: seq<Effect>, s: Confidences, t: Confidences)
    requires forall v :: ConfidenceOf(s, v) <= ConfidenceOf(t, v)
    ensures ConfidenceSum(effects, s) <= ConfidenceSum(effects, t)
  {
    if effects != [] { ConfidenceSumGrows(effects[..|effects| - 1], s, t); }
  }

  lemma QuotientGrows(x: real, y: real, n: real)
    requires x <= y && n > 0.0
    ensures x / n <= y / n
  {
  }

  lemma LessDoubtWeighsMore(gain: real, risk: real, damage: real, irr: real, more: real, less: real, lam: Lambdas)
    requires lam.uncertainty >= 0.0 && less <= more
    ensures Weigh(gain, risk, damage, irr, more, lam) <= Weigh(gain, risk, damage, irr, less, lam)
  {
    assert lam.uncertainty * (more - less) >= 0.0;
  }

  /** Raising confidences never lowers a score. */
  lemma ConfidenceNeverHurts(a: Candidate, s: Confidences, t: Confidences, edges: seq<Coupling>, lam: Lambdas)
    requires lam.uncertainty >= 0.0 && forall v :: ConfidenceOf(s, v) <= ConfidenceOf(t, v)
    ensures Score(a, s, edges, lam) <= Score(a, t, edges, lam)
  {
    ConfidenceSumGrows(a.effects, s, t);
    if a.effects != [] { QuotientGrows(ConfidenceSum(a.effects, s), ConfidenceSum(a.effects, t), |a.effects| as real); }
    LessDoubtWeighsMore(Min(ClampedGain(a.effects), 1.0), Risk(a.effects),
                        Min(DamageSum(edges, AffectedVariables(a.effects)), 1.0),
                        a.irreversibility, Uncertainty(a.effects, s), Uncertainty(a.effects, t), lam);
  }

  // ---- the terms in plain words -------------------------------------------------------------------

  function NegativeAt(effects: seq<Effect>): set<nat> {
    set i: nat | i < |effects| && effects[i].delta < 0.0
  }

  lemma {:induction false} NegativesCount(effects: seq<Effect>)
    ensures Negatives(effects) == |NegativeAt(effects)|
  {
    if effects == [] {
      assert NegativeAt(effects) == {};
    } else {
      var n := |effects| - 1;
      NegativesCount(effects[..n]);
      assert NegativeAt(effects) == NegativeAt(effects[..n]) + if effects[n].delta < 0.0 then {n} else {};
    }
  }

  lemma {:induction false} NegativesEnds(effects: seq<Effect>)
    ensures Negatives(effects) <= |effects|
    ensures Negatives(effects) == 0 <==> forall e <- effects :: e.delta >= 0.0
    ensures Negatives(effects) == |effects| <==> forall e <- effects :: e.delta < 0.0
  {
    if effects != [] {
      var front, last := effects[..|effects| - 1], effects[|effects| - 1];
      NegativesEnds(front);
      assert last in effects && forall e <- front :: e in effects;
      assert effects == front + [last];
    }
  }

  /** The risk is the share of negative deltas: 0 exactly if there are none, 1 exactly if there are no others. */
  lemma RiskExactly(effects: seq<Effect>)
    ensures Risk(effects) * |effects| as real == |NegativeAt(effects)| as real
    ensures Risk(effects) == 0.0 <==> forall e <- effects :: e.delta >= 0.0
    ensures effects != [] ==> (Risk(effects) == 1.0 <==> forall e <- effects :: e.delta < 0.0)
  {
    NegativesCount(effects);
    NegativesEnds(effects);
    if effects != [] { ShareEnds(Negatives(effects) as real, |effects| as real); }
  }

  lemma ShareEnds(x: real, n: real)
    requires n > 0.0
    ensures (x / n) * n == x && (x / n == 0.0 <==> x == 0.0) && (x / n == 1.0 <==> x == n)
  {
  }

  /** A negative edge out of an affected variable adds strength times confidence, any other edge nothing. */
  lemma {:induction false} EdgeAdds(a: seq<Coupling>, e: Coupling, b: seq<Coupling>, effects: seq<Effect>)
    ensures DamageSum([], AffectedVariables(effects)) == 0.0
    ensures DamageSum(a + [e] + b, AffectedVariables(effects))
         == DamageSum(a + b, AffectedVariables(effects))
            + if e.sign == -1 && (exists x <- effects :: x.variable == e.fromVariable)
              then e.strength * e.confidence else 0.0
    decreases |b|
  {
    if b == [] {
      assert a + [e] + b == a + [e] && a + b == a && (a + [e])[..|a|] == a;
    } else {
      var front, last := b[..|b| - 1], b[|b| - 1];
      EdgeAdds(a, e, front, effects);
      assert (a + [e] + b)[..|a + [e] + b| - 1] == a + [e] + front;
      assert (a + b)[..|a + b| - 1] == a + front;
    }
  }

  /** A positive delta adds a hundredth of itself, at most 1; any other effect adds no gain. */
  lemma {:induction false} EffectGains(a: seq<Effect>, e: Effect, b: seq<Effect>)
    ensures ClampedGain([]) == 0.0
    ensures ClampedGain(a + [e] + b)
         == ClampedGain(a + b)
            + if e.delta <= 0.0 then 0.0 else if e.delta <= 100.0 then e.delta / 100.0 else 1.0
    decreases |b|
  {
    if b == [] {
      assert a + [e] + b == a + [e] && a + b == a && (a + [e])[..|a|] == a;
    } else {
      var front := b[..|b| - 1];
      EffectGains(a, e, front);
      assert (a + [e] + b)[..|a + [e] + b| - 1] == a + [e] + front;
      assert (a + b)[..|a + b| - 1] == a + front;
    }
  }

  lemma ConfidencePush(effects: seq<Effect>, e: Effect, state: Confidences)
    ensures ConfidenceSum(effects + [e], state) == ConfidenceSum(effects, state) + ConfidenceOf(state, e.variable)
  {
    assert (effects + [e])[..|effects|] == effects;
  }

  /** Each effect brings in its variable's confidence, 0.5 where no record tells. */
  lemma {:induction false} EffectTrusts(a: seq<Effect>, e: Effect, b: seq<Effect>, state: Confidences)
    ensures ConfidenceSum([], state) == 0.0
    ensures ConfidenceSum(a + [e] + b, state)
         == ConfidenceSum(a + b, state) + if e.variable in state then state[e.variable] else 0.5
    decreases |b|
  {
    if b == [] {
      assert a + [e] + b == a + [e] && a + b == a;
      ConfidencePush(a, e, state);
    } else {
      var front, last := b[..|b| - 1], b[|b| - 1];
      EffectTrusts(a, e, front, state);
      assert a + [e] + b == (a + [e] + front) + [last] && a + b == (a + front) + [last];
      ConfidencePush(a + [e] + front, last, state);
      ConfidencePush(a + front, last, state);
    }
  }

  /** The doubt is one minus the average confidence, and one half without effects. */
  lemma DoubtExactly(effects: seq<Effect>, state: Confidences)
    ensures effects == [] ==> Uncertainty(effects, state) == 0.5
    ensures effects != [] ==>
              (1.0 - Uncertainty(effects, state)) * |effects| as real == ConfidenceSum(effects, state)
  {
    if effects != [] { ShareEnds(ConfidenceSum(effects, state), |effects| as real); }
  }

  /** At zero weights the score is the gain, at most 1. */
  lemma UnweighedIsGain(a: Candidate, state: Confidences, edges: seq<Coupling>)
    ensures Score(a, state, edges, Lambdas(0.0, 0.0, 0.0, 0.0)) == Min(ClampedGain(a.effects), 1.0)
  {
  }

  /** Raising the weight of the risk by `more` charges the action that much more of its risk. */
  lemma RiskIsCharged(a: Candidate, state: Confidences, edges: seq<Coupling>, lam: Lambdas, more: real)
    ensures Score(a, state, edges, lam.(risk := lam.risk + more))
         == Score(a, state, edges, lam) - more * Risk(a.effects)
  {
    ChargeAdds(lam.risk, more, Risk(a.effects));
  }

  lemma DamageIsCharged(a: Candidate, state: Confidences, edges: seq<Coupling>, lam: Lambdas, more: real)
    ensures Score(a, state, edges, lam.(coupling := lam.coupling + more))
         == Score(a, state, edges, lam) - more * Min(DamageSum(edges, AffectedVariables(a.effects)), 1.0)
  {
    ChargeAdds(lam.coupling, more, Min(DamageSum(edges, AffectedVariables(a.effects)), 1.0));
  }

  lemma IrreversibilityIsCharged(a: Candidate, state: Confidences, edges: seq<Coupling>, lam: Lambdas, more: real)
    ensures Score(a, state, edges, lam.(irr := lam.irr + more))
         == Score(a, state, edges, lam) - more * a.irreversibility
  {
    ChargeAdds(lam.irr, more, a.irreversibility);
  }

  lemma DoubtIsCharged(a: Candidate, state: Confidences, edges: seq<Coupling>, lam: Lambdas, more: real)
    ensures Score(a, state, edges, lam.(uncertainty := lam.uncertainty + more))
         == Score(a, state, edges, lam) - more * Uncertainty(a.effects, state)
  {
    ChargeAdds(lam.uncertainty, more, Uncertainty(a.effects, state));
  }

  lemma ChargeAdds(w: real, more: real, x: real)
    ensures (w + more) * x == w * x + more * x && 0.0 * x == 0.0
  {
  }
}
