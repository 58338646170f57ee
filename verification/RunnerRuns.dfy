/**
 * Whole lives of a runner from the empty store: state records are written, actions executed and
 * selected, and passes run, in any order.
 */
module RunnerRuns {
  import opened Prelude
  import opened Jobs
  import opened StateLog
  import opened StateStore
  import opened Adapter
  import opened VerificationRunner
  import opened RunnerTheorems
  import P = Protocol
  import ProtocolTheorems

  const EMPTY: World := World(map[], map[], [], [], Metrics(0, 0, 0, 0, 0))

  /**
   * What happens between one atomic store call and the next: layers write records, the adapter
   * executes an action, an action is selected for verification, check_pending runs, or the result of
   * an action is correlated. `order` is the order in which the store lists its jobs.
   */
  datatype Call =
    | Write(now: int, records: seq<StateRecord>)
    | Act(now: int, performed: Action)
    | Select(now: int, action: Option<Selected>, freshId: JobId)
    | Pass(now: int, order: seq<JobId>, nonce: string)
    | Result(now: int, order: seq<JobId>, result: Option<ActResult>)

  predicate Lists(order: seq<JobId>, jobs: map<JobId, Job>) {
    Distinct(order) && ToSet(order) == jobs.Keys && forall id <- order :: id in jobs
  }

  /** Time does not go back, job ids are fresh, and a pass sees every job. */
  predicate Legal(w: World, clock: int, call: Call) {
    && clock <= call.now
    && match call
       case Select(_, _, id) => id !in w.jobs
       case Pass(_, order, _) => Lists(order, w.jobs)
       case Result(_, order, _) => Lists(order, w.jobs)
       case _ => true
  }

  function AfterCall(env: Env, w: World, call: Call): World
    requires call.Pass? ==> forall id <- call.order :: id in w.jobs
  {
    match call
    case Write(_, records) => w.(log := w.log + records)
    case Act(now, a) => w.(log := ApplyAll(w.log, a.effects, a.actionId, now).log)
    case Select(now, action, id) => AfterSelect(env, w, action, now, id)
    case Pass(now, order, nonce) => AfterPass(env, w, order, nonce, now).world
    case Result(_, order, result) => AfterResult(w, order, result)
  }

  predicate IsLife(env: Env, w: World, clock: int, calls: seq<Call>)
    decreases |calls|
  {
    calls == [] || (Legal(w, clock, calls[0]) && IsLife(env, AfterCall(env, w, calls[0]), calls[0].now, calls[1..]))
  }

  function AfterCalls(env: Env, w: World, clock: int, calls: seq<Call>): World
    requires IsLife(env, w, clock, calls)
    decreases |calls|
  {
    if calls == [] then w else AfterCalls(env, AfterCall(env, w, calls[0]), calls[0].now, calls[1..])
  }

  // ---- conservation in every life -----------------------------------------------------------

  lemma CallConserves(env: Env, w: World, clock: int, call: Call)
    requires Conserved(w) && Legal(w, clock, call)
    ensures Conserved(AfterCall(env, w, call))
  {
    match call
    case Select(now, action, id) => SelectConserves(env, w, action, now, id);
    case Pass(now, order, nonce) => PassConserves(env, w, order, nonce, now);
    case Result(_, order, result) => ResultConserves(w, order, result);
    case _ =>
  }

  lemma {:induction false} CallsConserve(env: Env, w: World, clock: int, calls: seq<Call>)
    requires Conserved(w) && IsLife(env, w, clock, calls)
    ensures Conserved(AfterCalls(env, w, clock, calls))
    decreases |calls|
  {
    if calls != [] {
      CallConserves(env, w, clock, calls[0]);
      CallsConserve(env, AfterCall(env, w, calls[0]), calls[0].now, calls[1..]);
    }
  }

  /** Pending and finished jobs make up the store, one per dedupe key, and no counter runs ahead of it. */
  lemma ConservationInEveryLife(env: Env, calls: seq<Call>)
    requires IsLife(env, EMPTY, 0, calls)
    ensures var w := AfterCalls(env, EMPTY, 0, calls); var m := w.metrics;
            && |JobStore.PendingIds(w.jobs)| + m.passed + m.failed + m.deadlettered == |w.jobs|
            && |w.jobs| == |w.dedupe| <= m.enqueued && m.rollbacks <= m.failed
  {
    assert Conserved(EMPTY);
    CallsConserve(env, EMPTY, 0, calls);
    ConservationLaw(AfterCalls(env, EMPTY, 0, calls));
  }

  /** The dedupe keys of all selections that carry a verification, in order. */
  function SelectedKeys(env: Env, calls: seq<Call>): seq<string> {
    if calls == [] then []
    else (if Verifies(calls[0]) then [KeyOf(env, calls[0].action.value)] else []) + SelectedKeys(env, calls[1..])
  }

  predicate Verifies(call: Call) {
    call.Select? && call.action.Some? && call.action.value.verification.Some?
  }

  /** The key hashes the decision id, the action id and the specification; a missing decision is the action. */
  function KeyOf(env: Env, action: Selected): string
    requires action.verification.Some?
  {
    var actionId := action.actionId.GetOr("");
    env.key(action.decisionId.GetOr(actionId), actionId, action.verification.value)
  }

  lemma CallCounts(env: Env, w: World, clock: int, call: Call)
    requires Legal(w, clock, call)
    ensures var w' := AfterCall(env, w, call);
            && w'.metrics.enqueued == w.metrics.enqueued + (if Verifies(call) then 1 else 0)
            && w'.dedupe.Keys == w.dedupe.Keys + if Verifies(call) then {KeyOf(env, call.action.value)} else {}
  {
    match call
    case Select(now, action, _) =>
      if Verifies(call) { assert JobFor(env, action.value, now, w.log).dedupeKey == KeyOf(env, action.value); }
    case Pass(now, order, nonce) =>
      PassEnqueuesNothing(env, Claimed(env, w, now),
                          Snapshots(JobStore.ClaimedList(order, w.jobs, env.runner, env.lease, now)), nonce, now);
    case _ =>
  }

  lemma {:induction false} PassEnqueuesNothing(env: Env, w: World, todo: seq<P.Snapshot>, nonce: string, now: int)
    ensures var w' := AfterAll(env, w, todo, nonce, now).world;
            w'.metrics.enqueued == w.metrics.enqueued && w'.dedupe == w.dedupe
    decreases |todo|
  {
    if todo != [] { PassEnqueuesNothing(env, AfterOne(env, w, todo[0], nonce, now).world, todo[1..], nonce, now); }
  }

  lemma {:induction false} CallsCount(env: Env, w: World, clock: int, calls: seq<Call>)
    requires IsLife(env, w, clock, calls)
    ensures var w' := AfterCalls(env, w, clock, calls);
            && w'.metrics.enqueued == w.metrics.enqueued + |SelectedKeys(env, calls)|
            && w'.dedupe.Keys == w.dedupe.Keys + ToSet(SelectedKeys(env, calls))
    decreases |calls|
  {
    if calls != [] {
      CallCounts(env, w, clock, calls[0]);
      CallsCount(env, AfterCall(env, w, calls[0]), calls[0].now, calls[1..]);
    }
  }

  /**
   * Every selection counts as enqueued, but only the first of each dedupe key gets a job: the two
   * numbers agree if and only if no action was selected again under the same key.
   */
  lemma EnqueuedExactly(env: Env, calls: seq<Call>)
    requires IsLife(env, EMPTY, 0, calls)
    ensures var w := AfterCalls(env, EMPTY, 0, calls); var keys := SelectedKeys(env, calls);
            && w.metrics.enqueued == |keys| && |w.jobs| == |ToSet(keys)|
            && (|w.jobs| == w.metrics.enqueued <==> Distinct(keys))
  {
    var w, keys := AfterCalls(env, EMPTY, 0, calls), SelectedKeys(env, calls);
    assert Conserved(EMPTY);
    CallsConserve(env, EMPTY, 0, calls);
    CallsCount(env, EMPTY, 0, calls);
    OneJobPerKey(w.dedupe, w.jobs);
    assert |w.dedupe| == |w.dedupe.Keys| && w.dedupe.Keys == ToSet(keys);
    SizeMeansDistinct(keys);
    if Distinct(keys) { DistinctSize(keys); }
  }

  // ---- every life is a run of the protocol -----------------------------------------------------

  function StepsOfResult(w: World, order: seq<JobId>, result: Option<ActResult>): seq<P.Step> {
    if result.None? then []
    else
      var actionId := IdOf(result.value);
      [P.Attach(actionId, result.value.body, JobStore.FirstOf(order, w.jobs, actionId))]
  }

  function StepsOf(env: Env, w: World, call: Call): seq<P.Step>
    requires call.Pass? ==> forall id <- call.order :: id in w.jobs
  {
    [P.Tick(call.now)]
    + match call
      case Select(now, action, id) =>
        if action.Some? && action.value.verification.Some?
        then [P.Enqueue(JobFor(env, action.value, now, w.log), id)] else []
      case Pass(now, order, nonce) => StepsOfPass(env, w, order, nonce, now)
      case Result(_, order, result) => StepsOfResult(w, order, result)
      case _ => []
  }

  function StepsOfLife(env: Env, w: World, clock: int, calls: seq<Call>): seq<P.Step>
    requires IsLife(env, w, clock, calls)
    decreases |calls|
  {
    if calls == [] then []
    else StepsOf(env, w, calls[0]) + StepsOfLife(env, AfterCall(env, w, calls[0]), calls[0].now, calls[1..])
  }

  lemma SelectIsARun(env: Env, s: P.State, w: World, now: int, action: Option<Selected>, id: JobId)
    requires Tracks(env, s, w, [], now) && id !in w.jobs
    ensures var steps := if action.Some? && action.value.verification.Some?
                         then [P.Enqueue(JobFor(env, action.value, now, w.log), id)] else [];
            && IsGentleRun(ConfigOf(env), s, steps)
            && Tracks(env, P.After(ConfigOf(env), s, steps), AfterSelect(env, w, action, now, id), [], now)
  {
    if action.Some? && action.value.verification.Some? {
      RunOfOne(ConfigOf(env), s, P.Enqueue(JobFor(env, action.value, now, w.log), id));
    }
  }

  lemma ResultIsARun(env: Env, s: P.State, w: World, now: int, order: seq<JobId>, result: Option<ActResult>)
    requires Tracks(env, s, w, [], now) && Lists(order, w.jobs)
    ensures var steps := StepsOfResult(w, order, result);
            && IsGentleRun(ConfigOf(env), s, steps)
            && Tracks(env, P.After(ConfigOf(env), s, steps), AfterResult(w, order, result), [], now)
  {
    if result.Some? {
      var actionId := IdOf(result.value);
      JobStore.FirstIsAddressed(order, w.jobs, actionId);
      assert forall id <- MatchingIds(InMemory, w.jobs, actionId) :: id in ToSet(order);
      RunOfOne(ConfigOf(env), s, StepsOfResult(w, order, result)[0]);
    }
  }

  lemma CallIsARun(env: Env, s: P.State, w: World, clock: int, call: Call)
    requires env.runner != "" && Tracks(env, s, w, [], clock) && Legal(w, clock, call)
    ensures IsGentleRun(ConfigOf(env), s, StepsOf(env, w, call))
    ensures Tracks(env, P.After(ConfigOf(env), s, StepsOf(env, w, call)), AfterCall(env, w, call), [], call.now)
  {
    var c, tick := ConfigOf(env), P.Tick(call.now);
    RunOfOne(c, s, tick);
    var s1 := P.Next(c, s, tick);
    assert Tracks(env, s1, w, [], call.now);
    match call {
      case Select(now, action, id) =>
        SelectIsARun(env, s1, w, now, action, id);
        RunsCompose(c, s, [tick], StepsOf(env, w, call)[1..]);
      case Pass(now, order, nonce) =>
        PassIsARun(env, s1, w, order, nonce, now);
        RunsCompose(c, s, [tick], StepsOfPass(env, w, order, nonce, now));
      case Result(now, order, result) =>
        ResultIsARun(env, s1, w, now, order, result);
        RunsCompose(c, s, [tick], StepsOfResult(w, order, result));
      case _ =>
        assert [tick] + [] == [tick];
    }
  }

  /**
   * Refinement: whatever is written, executed, selected and correlated and however often
   * check_pending runs, the job store is in a state that the protocol reaches by a run whose crashes
   * hit no runner at work, and the runner is at rest. So all that is proved of the jobs, the ledger
   * and the history of such runs holds of it.
   */
  lemma {:induction false} LifeIsARun(env: Env, s: P.State, w: World, clock: int, calls: seq<Call>)
    requires env.runner != "" && Tracks(env, s, w, [], clock) && IsLife(env, w, clock, calls)
    ensures var c, steps := ConfigOf(env), StepsOfLife(env, w, clock, calls);
            && IsGentleRun(c, s, steps)
            && Tracks(env, P.After(c, s, steps), AfterCalls(env, w, clock, calls), [], P.After(c, s, steps).clock)
    decreases |calls|
  {
    if calls != [] {
      var c, first := ConfigOf(env), StepsOf(env, w, calls[0]);
      CallIsARun(env, s, w, clock, calls[0]);
      var w1 := AfterCall(env, w, calls[0]);
      LifeIsARun(env, P.After(c, s, first), w1, calls[0].now, calls[1..]);
      RunsCompose(c, s, first, StepsOfLife(env, w1, calls[0].now, calls[1..]));
    }
  }

  /** For one, the outcome ledger of the runner holds at most one entry per job, the job's own outcome. */
  lemma LedgerInEveryLife(env: Env, calls: seq<Call>, id: JobId)
    requires env.runner != "" && IsLife(env, EMPTY, 0, calls) && id in AfterCalls(env, EMPTY, 0, calls).jobs
    ensures var w := AfterCalls(env, EMPTY, 0, calls); var entries := P.Ledger(w.outcomes, id);
            && |entries| <= 1
            && (entries != [] ==> entries[0] == Outcome(id, w.jobs[id].status) && w.jobs[id].status in {Passed, Failed})
            && (Terminal(w.jobs[id].status) <==> w.jobs[id].finalAt.Some?)
  {
    assert Tracks(env, P.Init(), EMPTY, [], 0);
    LifeIsARun(env, P.Init(), EMPTY, 0, calls);
    ProtocolTheorems.LedgerAtMostOnce(ConfigOf(env), StepsOfLife(env, EMPTY, 0, calls), id);
    ProtocolTheorems.FinalOutcomeAtMostOnce(ConfigOf(env), StepsOfLife(env, EMPTY, 0, calls), id);
  }
}
