/** What a runner's rollbacks come to over its whole life. */
module RunnerRollbacks {
  import opened Prelude
  import opened Jobs
  import opened JobStore
  import opened VerificationRunner
  import opened RunnerTheorems
  import opened RunnerRuns
  import Evaluator
  import opened Adapter
  import opened StateLog
  import RunnerVerdicts
  import P = Protocol
  import ProtocolProgress
  import ProtocolSafety
  import ProtocolTheorems

  /** The failed jobs with a known rollback. */
  function Due(env: Env, jobs: map<JobId, Job>): set<JobId> {
    set id | id in jobs && jobs[id].status == Failed && RollsBack(jobs[id], env.catalogue.Keys)
  }

  /** The marked jobs beyond the counted rollbacks. */
  function Uncounted(w: World): int {
    |RolledBack(w.jobs)| - w.metrics.rollbacks
  }

  predicate MarkedExactly(env: Env, w: World) {
    Conserved(w) && RolledBack(w.jobs) == Due(env, w.jobs)
  }

  // ---- one copy --------------------------------------------------------------------------------

  lemma OneChange(env: Env, jobs: map<JobId, Job>, id: JobId, j: Job)
    requires RolledBack(jobs) == Due(env, jobs) && id in jobs
    requires j.rollbackAt.Some? <==> j.status == Failed && RollsBack(j, env.catalogue.Keys)
    ensures RolledBack(jobs[id := j]) == Due(env, jobs[id := j])
  {
    var jobs' := jobs[id := j];
    var here := if j.rollbackAt.Some? then {id} else {};
    assert RolledBack(jobs') == RolledBack(jobs) - {id} + here;
    assert Due(env, jobs') == Due(env, jobs) - {id} + here;
  }

  /** Finalising marks exactly a failed job with a known rollback, and counts it unless the rollback raises. */
  lemma OneMarks(env: Env, w: World, sn: P.Snapshot, nonce: string, now: int)
    requires MarkedExactly(env, w) && (sn.id in w.jobs ==> sn.job.spec == w.jobs[sn.id].spec)
    ensures var p := AfterOne(env, w, sn, nonce, now);
            && MarkedExactly(env, p.world)
            && Uncounted(p.world) == Uncounted(w) + if p.raised then 1 else 0
  {
    var p := AfterOne(env, w, sn, nonce, now);
    OneConserves(env, w, sn, nonce, now);
    if MayFinalize(w.jobs, sn.id, env.runner) {
      var j := p.world.jobs[sn.id];
      OneRow(env, w, sn, nonce, now);
      RewriteMark(w.jobs, sn.id, j);
      OneChange(env, w.jobs, sn.id, j);
    }
  }

  lemma OneRow(env: Env, w: World, sn: P.Snapshot, nonce: string, now: int)
    requires MarkedExactly(env, w) && MayFinalize(w.jobs, sn.id, env.runner) && sn.job.spec == w.jobs[sn.id].spec
    ensures w.jobs[sn.id].rollbackAt.None?
    ensures RowIsMarked(env, w, sn, AfterOne(env, w, sn, nonce, now))
  {
    assert w.jobs[sn.id].status != Failed;
    if sn.job.attempts <= sn.job.spec.maxAttempts.GetOr(env.maxAttempts) && !VerdictOn(env, w, sn.job).passed {
      RollbackRow(env, w, sn, VerdictOn(env, w, sn.job), nonce, now);
    }
  }

  /** The row comes to carry a mark exactly if its rollback is due, and that is counted unless it raises. */
  predicate RowIsMarked(env: Env, w: World, sn: P.Snapshot, p: Sweep)
    requires sn.id in w.jobs
  {
    && sn.id in p.world.jobs
    && var j := p.world.jobs[sn.id];
       && p.world.jobs == w.jobs[sn.id := j]
       && (j.rollbackAt.Some? <==> j.status == Failed && RollsBack(j, env.catalogue.Keys))
       && p.world.metrics.rollbacks == w.metrics.rollbacks + (if j.rollbackAt.Some? && !p.raised then 1 else 0)
       && (p.raised ==> j.rollbackAt.Some?)
  }

  lemma RollbackRow(env: Env, w: World, sn: P.Snapshot, v: Evaluator.Verdict, nonce: string, now: int)
    requires MayFinalize(w.jobs, sn.id, env.runner) && w.jobs[sn.id].rollbackAt.None?
    requires sn.job.spec == w.jobs[sn.id].spec && !v.passed
    ensures RowIsMarked(env, w, sn, AfterRollback(env, Recorded(w, sn.id, v, now), sn, nonce, now))
  {
  }

  lemma OneKeepsSpecs(env: Env, w: World, sn: P.Snapshot, nonce: string, now: int)
    ensures AfterOne(env, w, sn, nonce, now).world.jobs.Keys == w.jobs.Keys
    ensures forall id <- w.jobs :: AfterOne(env, w, sn, nonce, now).world.jobs[id].spec == w.jobs[id].spec
  {
  }

  // ---- a pass, and a life --------------------------------------------------------------------------

  predicate SpecsMatch(w: World, todo: seq<P.Snapshot>) {
    forall i :: 0 <= i < |todo| ==> todo[i].id in w.jobs && todo[i].job.spec == w.jobs[todo[i].id].spec
  }

  lemma {:induction false} AllMark(env: Env, w: World, todo: seq<P.Snapshot>, nonce: string, now: int)
    requires MarkedExactly(env, w) && SpecsMatch(w, todo)
    ensures var p := AfterAll(env, w, todo, nonce, now);
            && MarkedExactly(env, p.world)
            && Uncounted(p.world) == Uncounted(w) + if p.raised then 1 else 0
    decreases |todo|
  {
    if todo != [] {
      var p := AfterOne(env, w, todo[0], nonce, now);
      OneMarks(env, w, todo[0], nonce, now);
      OneKeepsSpecs(env, w, todo[0], nonce, now);
      assert SpecsMatch(p.world, todo[1..]);
      if !p.raised { AllMark(env, p.world, todo[1..], nonce, now); }
    }
  }

  lemma ClaimKeepsDue(env: Env, jobs: map<JobId, Job>, ids: set<JobId>, now: int)
    requires forall id <- ids :: id in jobs && Pending(jobs[id])
    ensures Due(env, ClaimAll(jobs, ids, env.runner, env.lease, now)) == Due(env, jobs)
  {
  }

  /** Rows that were not final keep out of both sets. */
  lemma ClaimMarks(env: Env, w: World, now: int)
    requires MarkedExactly(env, w)
    ensures MarkedExactly(env, Claimed(env, w, now)) && Uncounted(Claimed(env, w, now)) == Uncounted(w)
  {
    var ids := ClaimableIds(InMemory, w.jobs, now);
    ClaimConserves(env, w, now);
    ClaimingIsFrame(w.jobs, ids, env.runner, env.lease, now);
    ClaimKeepsDue(env, w.jobs, ids, now);
  }

  lemma CopiesMatch(env: Env, w: World, order: seq<JobId>, now: int)
    requires Lists(order, w.jobs)
    ensures SpecsMatch(Claimed(env, w, now), Snapshots(ClaimedList(order, w.jobs, env.runner, env.lease, now)))
  {
    var claimed := ClaimedList(order, w.jobs, env.runner, env.lease, now);
    ClaimReturnsTheClaimable(order, w.jobs, env.runner, env.lease, now);
    forall i | 0 <= i < |claimed| ensures claimed[i].0 in w.jobs && claimed[i].1.spec == w.jobs[claimed[i].0].spec {
      assert claimed[i] in claimed;
    }
  }

  lemma PassMarks(env: Env, w: World, order: seq<JobId>, nonce: string, now: int)
    requires MarkedExactly(env, w) && Lists(order, w.jobs)
    ensures var p := AfterPass(env, w, order, nonce, now);
            && MarkedExactly(env, p.world)
            && Uncounted(p.world) == Uncounted(w) + if p.raised then 1 else 0
  {
    ClaimMarks(env, w, now);
    CopiesMatch(env, w, order, now);
    AllMark(env, Claimed(env, w, now), Snapshots(ClaimedList(order, w.jobs, env.runner, env.lease, now)), nonce, now);
  }

  predicate Raises(env: Env, w: World, call: Call) {
    call.Pass? && Lists(call.order, w.jobs) && AfterPass(env, w, call.order, call.nonce, call.now).raised
  }

  /** How many passes of a life an exception cut short. */
  function CutShort(env: Env, w: World, clock: int, calls: seq<Call>): nat
    requires IsLife(env, w, clock, calls)
    decreases |calls|
  {
    if calls == [] then 0
    else
      (if Raises(env, w, calls[0]) then 1 else 0)
      + CutShort(env, AfterCall(env, w, calls[0]), calls[0].now, calls[1..])
  }

  lemma InsertMarks(env: Env, jobs: map<JobId, Job>, id: JobId, spec: JobSpec)
    requires id !in jobs
    ensures RolledBack(jobs[id := NewJob(spec)]) == RolledBack(jobs)
    ensures Due(env, jobs[id := NewJob(spec)]) == Due(env, jobs)
  {
  }

  lemma AttachMarks(env: Env, jobs: map<JobId, Job>, ids: set<JobId>, result: string)
    ensures RolledBack(AttachTo(InMemory, jobs, ids, result)) == RolledBack(jobs)
    ensures Due(env, AttachTo(InMemory, jobs, ids, result)) == Due(env, jobs)
  {
  }

  lemma SelectMarks(env: Env, w: World, now: int, action: Option<Selected>, id: JobId)
    requires MarkedExactly(env, w) && id !in w.jobs
    ensures var w' := AfterSelect(env, w, action, now, id);
            MarkedExactly(env, w') && Uncounted(w') == Uncounted(w)
  {
    SelectConserves(env, w, action, now, id);
    if action.Some? && action.value.verification.Some? {
      InsertMarks(env, w.jobs, id, JobFor(env, action.value, now, w.log));
    }
  }

  lemma ResultMarks(env: Env, w: World, order: seq<JobId>, result: Option<ActResult>)
    requires MarkedExactly(env, w)
    ensures var w' := AfterResult(w, order, result);
            MarkedExactly(env, w') && Uncounted(w') == Uncounted(w)
  {
    ResultConserves(w, order, result);
    if result.Some? { AttachMarks(env, w.jobs, FirstOf(order, w.jobs, IdOf(result.value)), result.value.body); }
  }

  lemma CallMarks(env: Env, w: World, clock: int, call: Call)
    requires MarkedExactly(env, w) && Legal(w, clock, call)
    ensures var w' := AfterCall(env, w, call);
            && MarkedExactly(env, w')
            && Uncounted(w') == Uncounted(w) + if Raises(env, w, call) then 1 else 0
  {
    match call
    case Pass(now, order, nonce) => PassMarks(env, w, order, nonce, now);
    case Select(now, action, id) => SelectMarks(env, w, now, action, id);
    case Result(_, order, result) => ResultMarks(env, w, order, result);
    case _ =>
  }

  lemma {:induction false} CallsMark(env: Env, w: World, clock: int, calls: seq<Call>)
    requires MarkedExactly(env, w) && IsLife(env, w, clock, calls)
    ensures var w' := AfterCalls(env, w, clock, calls);
            && MarkedExactly(env, w')
            && Uncounted(w') == Uncounted(w) + CutShort(env, w, clock, calls)
    decreases |calls|
  {
    if calls != [] {
      CallMarks(env, w, clock, calls[0]);
      CallsMark(env, AfterCall(env, w, calls[0]), calls[0].now, calls[1..]);
    }
  }

  /**
   * In every life the marked jobs are exactly the failed ones with a known rollback, and the counter
   * is their number less the passes cut short by a rollback that raised.
   */
  lemma RollbacksInEveryLife(env: Env, calls: seq<Call>)
    requires IsLife(env, EMPTY, 0, calls)
    ensures var w := AfterCalls(env, EMPTY, 0, calls);
            && RolledBack(w.jobs) == Due(env, w.jobs)
            && w.metrics.rollbacks + CutShort(env, EMPTY, 0, calls) == |Due(env, w.jobs)|
  {
    assert Conserved(EMPTY);
    CallsMark(env, EMPTY, 0, calls);
  }

  /**
   * In every life a job is marked for rollback exactly if it failed and the selection that made it
   * names a rollback of the catalogue.
   */
  lemma MarkedExactlyAsSelected(env: Env, calls: seq<Call>, id: JobId)
    requires IsLife(env, EMPTY, 0, calls) && id in AfterCalls(env, EMPTY, 0, calls).jobs
    ensures var j := AfterCalls(env, EMPTY, 0, calls).jobs[id];
            var call := calls[RunnerVerdicts.MadeBy(env, EMPTY, 0, calls, id)];
            && Verifies(call)
            && (j.rollbackAt.Some? <==>
                  && j.status == Failed && call.action.value.rollback.Some?
                  && call.action.value.rollback.value != "" && call.action.value.rollback.value in env.catalogue)
  {
    var w := AfterCalls(env, EMPTY, 0, calls);
    RunnerVerdicts.JobCarriesItsSelection(env, calls, id);
    RollbacksInEveryLife(env, calls);
    assert id in RolledBack(w.jobs) <==> id in Due(env, w.jobs);
  }

  // ---- every rollback due was executed --------------------------------------------------------------

  ghost predicate OwnSteps(steps: seq<P.Step>, r: RunnerId) {
    forall i, x :: 0 <= i < |steps| && ProtocolTheorems.ActedBy(steps[i], x) ==> x == r
  }

  lemma OwnStepsCompose(a: seq<P.Step>, b: seq<P.Step>, r: RunnerId)
    requires OwnSteps(a, r) && OwnSteps(b, r)
    ensures OwnSteps(a + b, r)
  {
  }

  lemma OneOwnSteps(env: Env, w: World, sn: P.Snapshot, nonce: string, now: int)
    ensures OwnSteps(StepsFor(env, w, sn, nonce, now), env.runner)
  {
  }

  lemma {:induction false} AllOwnSteps(env: Env, w: World, todo: seq<P.Snapshot>, nonce: string, now: int)
    ensures OwnSteps(StepsForAll(env, w, todo, nonce, now), env.runner)
    decreases |todo|
  {
    if todo != [] {
      var p, first := AfterOne(env, w, todo[0], nonce, now), StepsFor(env, w, todo[0], nonce, now);
      OneOwnSteps(env, w, todo[0], nonce, now);
      if p.raised {
        OwnStepsCompose(first, [P.Crash(env.runner)], env.runner);
      } else {
        AllOwnSteps(env, p.world, todo[1..], nonce, now);
        OwnStepsCompose(first, StepsForAll(env, p.world, todo[1..], nonce, now), env.runner);
      }
    }
  }

  lemma CallOwnSteps(env: Env, w: World, clock: int, call: Call)
    requires Legal(w, clock, call)
    ensures OwnSteps(StepsOf(env, w, call), env.runner)
  {
    match call
    case Pass(now, order, nonce) =>
      var todo := Snapshots(ClaimedList(order, w.jobs, env.runner, env.lease, now));
      AllOwnSteps(env, Claimed(env, w, now), todo, nonce, now);
    case _ =>
  }

  lemma {:induction false} LifeOwnSteps(env: Env, w: World, clock: int, calls: seq<Call>)
    requires IsLife(env, w, clock, calls)
    ensures OwnSteps(StepsOfLife(env, w, clock, calls), env.runner)
    decreases |calls|
  {
    if calls != [] {
      var w1 := AfterCall(env, w, calls[0]);
      CallOwnSteps(env, w, clock, calls[0]);
      LifeOwnSteps(env, w1, calls[0].now, calls[1..]);
      OwnStepsCompose(StepsOf(env, w, calls[0]), StepsOfLife(env, w1, calls[0].now, calls[1..]), env.runner);
    }
  }

  lemma AllAtRest(env: Env, calls: seq<Call>, x: RunnerId)
    requires env.runner != "" && IsLife(env, EMPTY, 0, calls)
    requires P.IsRun(ConfigOf(env), P.Init(), StepsOfLife(env, EMPTY, 0, calls))
    ensures P.RunnerOf(ProtocolTheorems.Reached(ConfigOf(env), StepsOfLife(env, EMPTY, 0, calls)), x).phase == P.Ready
  {
    if x == env.runner {
      assert Tracks(env, P.Init(), EMPTY, [], 0);
      LifeIsARun(env, P.Init(), EMPTY, 0, calls);
    } else {
      LifeOwnSteps(env, EMPTY, 0, calls);
      ProtocolTheorems.OthersLeaveARunnerAlone(ConfigOf(env), P.Init(), StepsOfLife(env, EMPTY, 0, calls), x);
    }
  }

  /**
   * In every life each judged job has exactly one ledger entry, and was rolled back exactly once if
   * it failed and its rollback is known, else never.
   */
  lemma ExactlyOnceInEveryLife(env: Env, calls: seq<Call>, id: JobId)
    requires env.runner != "" && IsLife(env, EMPTY, 0, calls)
    requires var w := AfterCalls(env, EMPTY, 0, calls); id in w.jobs && w.jobs[id].status in {Passed, Failed}
    ensures var w, steps := AfterCalls(env, EMPTY, 0, calls), StepsOfLife(env, EMPTY, 0, calls);
            && P.IsRun(ConfigOf(env), P.Init(), steps)
            && P.Ledger(w.outcomes, id) == [Outcome(id, w.jobs[id].status)]
            && w.jobs[id].leaseOwner.Some?
            && P.Of(ProtocolTheorems.Reached(ConfigOf(env), steps).history, P.ExecKind, id)
               == if id in Due(env, w.jobs) then [P.Executed(id, w.jobs[id].leaseOwner.value)] else []
  {
    var c, steps := ConfigOf(env), StepsOfLife(env, EMPTY, 0, calls);
    assert Tracks(env, P.Init(), EMPTY, [], 0);
    LifeIsARun(env, P.Init(), EMPTY, 0, calls);
    ProtocolTheorems.FinalOutcomeAtMostOnce(c, steps, id);
    var s := ProtocolTheorems.Reached(c, steps);
    AllAtRest(env, calls, s.jobs[id].leaseOwner.value);
    ProtocolProgress.GentleHitsNothing(c, P.Init(), steps, id);
    ProtocolProgress.ExactlyOnceUnlessHit(c, steps, id);
  }

  // ---- what rollbacks do to the state --------------------------------------------------------------

  /** What the rollback that a finished copy gets adds to a variable. */
  function RollbackDelta(env: Env, jobs: map<JobId, Job>, id: JobId, v: string): real {
    if id in Due(env, jobs) then TotalDelta(env.catalogue[jobs[id].spec.rollbackType.value].effects, v) else 0.0
  }

  function RollbackSum(env: Env, jobs: map<JobId, Job>, todo: seq<P.Snapshot>, v: string): real {
    if todo == [] then 0.0 else RollbackDelta(env, jobs, todo[0].id, v) + RollbackSum(env, jobs, todo[1..], v)
  }

  /** Where a rollback is due for the finished row, its effects are applied to the log; else nothing is written. */
  predicate LogFollows(env: Env, w: World, j: Job, p: Sweep, now: int) {
    if j.status == Failed && RollsBack(j, env.catalogue.Keys) then
      var action := env.catalogue[j.spec.rollbackType.value];
      Effected(p.world.log, !p.raised) == ApplyAll(w.log, action.effects, action.actionId, now)
    else
      p.world.log == w.log
  }

  predicate MarkedAs(j: Job, id: JobId, nonce: string, now: int) {
    j.rollbackAt.Some? ==> j.rollbackAt == Some(now) && j.rollbackActionId == Some("rb-" + id + "-" + nonce)
  }

  lemma RollbackLog(env: Env, w: World, sn: P.Snapshot, nonce: string, now: int)
    requires MayMark(w.jobs, sn.id, env.runner) && w.jobs[sn.id].status == Failed
    requires sn.job.spec == w.jobs[sn.id].spec
    ensures var p := AfterRollback(env, w, sn, nonce, now);
            && sn.id in p.world.jobs
            && LogFollows(env, w, p.world.jobs[sn.id], p, now) && MarkedAs(p.world.jobs[sn.id], sn.id, nonce, now)
  {
  }

  lemma OneLog(env: Env, w: World, sn: P.Snapshot, nonce: string, now: int)
    requires MayFinalize(w.jobs, sn.id, env.runner) && w.jobs[sn.id].rollbackAt.None?
    requires sn.job.spec == w.jobs[sn.id].spec
    ensures var p := AfterOne(env, w, sn, nonce, now);
            && sn.id in p.world.jobs
            && LogFollows(env, w, p.world.jobs[sn.id], p, now) && MarkedAs(p.world.jobs[sn.id], sn.id, nonce, now)
  {
    if sn.job.attempts <= sn.job.spec.maxAttempts.GetOr(env.maxAttempts) && !VerdictOn(env, w, sn.job).passed {
      RollbackLog(env, AfterVerdict(env, w, sn, now), sn, nonce, now);
    }
  }

  lemma LogAdds(env: Env, w: World, j: Job, p: Sweep, now: int, v: string)
    requires LogFollows(env, w, j, p, now) && !p.raised && Current(w.log, v).Some?
    ensures var delta := if j.status == Failed && RollsBack(j, env.catalogue.Keys)
                         then TotalDelta(env.catalogue[j.spec.rollbackType.value].effects, v) else 0.0;
            Current(p.world.log, v) == Some(Current(w.log, v).value + delta)
  {
    if j.status == Failed && RollsBack(j, env.catalogue.Keys) {
      var action := env.catalogue[j.spec.rollbackType.value];
      AddsTheDeltas(w.log, action.effects, action.actionId, now, v);
    }
  }

  /** The variable's value has grown by `delta`. */
  predicate Grown(log: seq<StateRecord>, log': seq<StateRecord>, v: string, delta: real) {
    Current(log, v).Some? && Current(log', v) == Some(Current(log, v).value + delta)
  }

  lemma GrownAdds(env: Env, jobs: map<JobId, Job>, todo: seq<P.Snapshot>, v: string,
                  a: seq<StateRecord>, b: seq<StateRecord>, c: seq<StateRecord>)
    requires todo != []
    requires Grown(a, b, v, RollbackDelta(env, jobs, todo[0].id, v))
    requires Grown(b, c, v, RollbackSum(env, jobs, todo[1..], v))
    ensures Grown(a, c, v, RollbackSum(env, jobs, todo, v))
  {
  }

  /** Finishing a copy executes the rollback that is due, and else writes nothing. */
  lemma OneRollsBack(env: Env, w: World, sn: P.Snapshot, nonce: string, now: int, v: string)
    requires MarkedExactly(env, w) && MayFinalize(w.jobs, sn.id, env.runner) && sn.job.spec == w.jobs[sn.id].spec
    requires !AfterOne(env, w, sn, nonce, now).raised && Current(w.log, v).Some?
    ensures var w' := AfterOne(env, w, sn, nonce, now).world;
            && sn.id in w'.jobs && MarkedAs(w'.jobs[sn.id], sn.id, nonce, now)
            && Grown(w.log, w'.log, v, RollbackDelta(env, w'.jobs, sn.id, v))
  {
    OneRow(env, w, sn, nonce, now);
    OneLog(env, w, sn, nonce, now);
    var p := AfterOne(env, w, sn, nonce, now);
    LogAdds(env, w, p.world.jobs[sn.id], p, now, v);
  }

  /** Copies that may all be finished, each once. */
  predicate Ready(env: Env, w: World, todo: seq<P.Snapshot>) {
    && MarkedExactly(env, w) && SpecsMatch(w, todo)
    && RunnerVerdicts.OneEach(todo) && RunnerVerdicts.AllOpen(env, w, todo)
  }

  lemma OneLeavesOpen(env: Env, w: World, todo: seq<P.Snapshot>, nonce: string, now: int)
    requires todo != [] && RunnerVerdicts.OneEach(todo) && RunnerVerdicts.AllOpen(env, w, todo)
    ensures RunnerVerdicts.OneEach(todo[1..])
    ensures RunnerVerdicts.AllOpen(env, AfterOne(env, w, todo[0], nonce, now).world, todo[1..])
  {
    var w1 := AfterOne(env, w, todo[0], nonce, now).world;
    forall x | 0 < x < |todo| ensures MayFinalize(w1.jobs, todo[x].id, env.runner) {
      RunnerVerdicts.OneLeavesOthers(env, w, todo[0], nonce, now, todo[x].id);
    }
  }

  lemma OneLeavesReady(env: Env, w: World, todo: seq<P.Snapshot>, nonce: string, now: int)
    requires todo != [] && Ready(env, w, todo)
    ensures Ready(env, AfterOne(env, w, todo[0], nonce, now).world, todo[1..])
  {
    OneMarks(env, w, todo[0], nonce, now);
    OneKeepsSpecs(env, w, todo[0], nonce, now);
    OneLeavesOpen(env, w, todo, nonce, now);
  }

  lemma DeltaStays(env: Env, jobs: map<JobId, Job>, jobs': map<JobId, Job>, id: JobId, v: string)
    requires id in jobs && id in jobs' && jobs'[id] == jobs[id]
    ensures RollbackDelta(env, jobs', id, v) == RollbackDelta(env, jobs, id, v)
  {
  }

  lemma FirstStays(env: Env, w: World, todo: seq<P.Snapshot>, nonce: string, now: int, v: string)
    requires todo != [] && Ready(env, w, todo)
    ensures var w1 := AfterOne(env, w, todo[0], nonce, now).world;
            var w' := AfterAll(env, w1, todo[1..], nonce, now).world;
            RollbackDelta(env, w'.jobs, todo[0].id, v) == RollbackDelta(env, w1.jobs, todo[0].id, v)
  {
    var w1 := AfterOne(env, w, todo[0], nonce, now).world;
    OneKeepsSpecs(env, w, todo[0], nonce, now);
    RunnerVerdicts.UnlistedStays(env, w1, todo[1..], nonce, now, todo[0].id);
    DeltaStays(env, w1.jobs, AfterAll(env, w1, todo[1..], nonce, now).world.jobs, todo[0].id, v);
  }

  lemma AllUnfolds(env: Env, w: World, todo: seq<P.Snapshot>, nonce: string, now: int)
    requires todo != [] && !AfterAll(env, w, todo, nonce, now).raised
    ensures var p := AfterOne(env, w, todo[0], nonce, now);
            && !p.raised
            && AfterAll(env, w, todo, nonce, now) == AfterAll(env, p.world, todo[1..], nonce, now)
  {
  }

  lemma HeadIsReady(env: Env, w: World, todo: seq<P.Snapshot>)
    requires todo != [] && Ready(env, w, todo)
    ensures MarkedExactly(env, w) && MayFinalize(w.jobs, todo[0].id, env.runner)
    ensures todo[0].job.spec == w.jobs[todo[0].id].spec
  {
  }

  lemma FirstGrows(env: Env, w: World, todo: seq<P.Snapshot>, nonce: string, now: int, v: string)
    requires todo != [] && Ready(env, w, todo)
    requires !AfterAll(env, w, todo, nonce, now).raised && Current(w.log, v).Some?
    ensures var w1 := AfterOne(env, w, todo[0], nonce, now).world;
            Grown(w.log, w1.log, v, RollbackDelta(env, w1.jobs, todo[0].id, v))
  {
    HeadIsReady(env, w, todo);
    AllUnfolds(env, w, todo, nonce, now);
    OneRollsBack(env, w, todo[0], nonce, now, v);
  }

  /** The first copy's part, as the rest of the pass leaves it. */
  lemma FirstRollsBack(env: Env, w: World, todo: seq<P.Snapshot>, nonce: string, now: int, v: string)
    returns (w1: World)
    requires todo != [] && Ready(env, w, todo)
    requires !AfterAll(env, w, todo, nonce, now).raised && Current(w.log, v).Some?
    ensures Ready(env, w1, todo[1..])
    ensures AfterAll(env, w, todo, nonce, now) == AfterAll(env, w1, todo[1..], nonce, now)
    ensures Grown(w.log, w1.log, v, RollbackDelta(env, AfterAll(env, w, todo, nonce, now).world.jobs, todo[0].id, v))
  {
    w1 := AfterOne(env, w, todo[0], nonce, now).world;
    FirstGrows(env, w, todo, nonce, now, v);
    OneLeavesReady(env, w, todo, nonce, now);
    FirstStays(env, w, todo, nonce, now, v);
    AllUnfolds(env, w, todo, nonce, now);
  }

  lemma {:induction false} AllRollBack(env: Env, w: World, todo: seq<P.Snapshot>, nonce: string, now: int, v: string,
                                       end: World)
    requires Ready(env, w, todo) && AfterAll(env, w, todo, nonce, now) == Swept(end, false)
    requires Current(w.log, v).Some?
    ensures Grown(w.log, end.log, v, RollbackSum(env, end.jobs, todo, v))
    decreases |todo|
  {
    if todo == [] {
      assert end == w;
    } else {
      var w1 := FirstRollsBack(env, w, todo, nonce, now, v);
      AllRollBack(env, w1, todo[1..], nonce, now, v, end);
      GrownAdds(env, end.jobs, todo, v, w.log, w1.log, end.log);
    }
  }

  lemma ClaimIsReady(env: Env, w: World, order: seq<JobId>, now: int)
    requires MarkedExactly(env, w) && Lists(order, w.jobs)
    ensures Ready(env, Claimed(env, w, now), RunnerVerdicts.TodoOf(env, w, order, now))
  {
    ClaimMarks(env, w, now);
    CopiesMatch(env, w, order, now);
    RunnerVerdicts.CopiesAreOpen(env, w, order, now);
  }

  /**
   * A pass that raises nothing changes each variable by exactly what the rollbacks due for the jobs
   * it finished add to it.
   */
  lemma PassRollsBack(env: Env, w: World, order: seq<JobId>, nonce: string, now: int, v: string, end: World)
    requires MarkedExactly(env, w) && Lists(order, w.jobs)
    requires AfterPass(env, w, order, nonce, now) == Swept(end, false) && Current(w.log, v).Some?
    ensures Grown(w.log, end.log, v, RollbackSum(env, end.jobs, RunnerVerdicts.TodoOf(env, w, order, now), v))
  {
    ClaimIsReady(env, w, order, now);
    AllRollBack(env, Claimed(env, w, now), RunnerVerdicts.TodoOf(env, w, order, now), nonce, now, v, end);
  }
}
