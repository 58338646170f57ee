/** What each verdict of a runner is computed from, over its whole life. */
module RunnerVerdicts {
  import opened Prelude
  import opened Jobs
  import opened JobStore
  import opened StateLog
  import opened StateStore
  import opened Evaluator
  import opened Adapter
  import opened VerificationRunner
  import opened RunnerRuns
  import RunnerTheorems
  import P = Protocol

  /**
   * An action selected after its effects were written is judged by exactly the records appended
   * from then on, against the value its metric had with those effects.
   */
  lemma JudgedByWhatFollows(env: Env, w: World, action: Selected, now: int, freshId: JobId, later: seq<StateRecord>)
    requires env.codec.Lawful() && action.verification.Some?
    requires freshId !in w.jobs && JobFor(env, action, now, w.log).dedupeKey !in w.dedupe
    ensures var w' := AfterSelect(env, w, Some(action), now, freshId);
            var spec := action.verification.value;
            && freshId in w'.jobs
            && VerdictOn(env, w'.(log := w.log + later), w'.jobs[freshId])
               == Judgement(spec, ValueIn(Replay(w.log), spec.metric, None), later)
  {
    ReadFromBoundary(env.codec, w.log, later);
  }

  // ---- jobs keep their specification and the log only grows ------------------------------------

  predicate Grows(w: World, w': World) {
    && w.log <= w'.log
    && forall id <- w.jobs :: id in w'.jobs && w'.jobs[id].spec == w.jobs[id].spec
  }

  lemma GrowsOn(a: World, b: World, c: World)
    requires Grows(a, b) && Grows(b, c)
    ensures Grows(a, c)
  {
    assert a.log == c.log[..|b.log|][..|a.log|];
  }

  lemma ExecutionGrows(log: seq<StateRecord>, effects: seq<Effect>, actionId: string, now: int)
    ensures log <= ApplyAll(log, effects, actionId, now).log
  {
    var written := AppendsWhatItApplied(log, effects, actionId, now);
  }

  lemma RollbackGrows(env: Env, w: World, sn: P.Snapshot, nonce: string, now: int)
    ensures Grows(w, AfterRollback(env, w, sn, nonce, now).world)
  {
    if RollsBack(sn.job, env.catalogue.Keys) {
      var action := env.catalogue[sn.job.spec.rollbackType.value];
      ExecutionGrows(w.log, action.effects, action.actionId, now);
    }
  }

  lemma RecordGrows(w: World, id: JobId, v: Evaluator.Verdict, now: int)
    requires id in w.jobs
    ensures Grows(w, Recorded(w, id, v, now))
  {
  }

  lemma OneGrows(env: Env, w: World, sn: P.Snapshot, nonce: string, now: int)
    ensures Grows(w, AfterOne(env, w, sn, nonce, now).world)
  {
    if MayFinalize(w.jobs, sn.id, env.runner) {
      var v := VerdictOn(env, w, sn.job);
      var w' := Recorded(w, sn.id, v, now);
      RecordGrows(w, sn.id, v, now);
      RollbackGrows(env, w', sn, nonce, now);
      GrowsOn(w, w', AfterRollback(env, w', sn, nonce, now).world);
    }
  }

  lemma {:induction false} AllGrow(env: Env, w: World, todo: seq<P.Snapshot>, nonce: string, now: int)
    ensures Grows(w, AfterAll(env, w, todo, nonce, now).world)
    decreases |todo|
  {
    if todo != [] {
      var p := AfterOne(env, w, todo[0], nonce, now);
      OneGrows(env, w, todo[0], nonce, now);
      if !p.raised {
        AllGrow(env, p.world, todo[1..], nonce, now);
        GrowsOn(w, p.world, AfterAll(env, w, todo, nonce, now).world);
      }
    }
  }

  lemma CallGrows(env: Env, w: World, clock: int, call: Call)
    requires Legal(w, clock, call)
    ensures Grows(w, AfterCall(env, w, call))
  {
    match call
    case Act(now, a) => ExecutionGrows(w.log, a.effects, a.actionId, now);
    case Pass(now, order, nonce) =>
      var w' := Claimed(env, w, now);
      var todo := Snapshots(ClaimedList(order, w.jobs, env.runner, env.lease, now));
      AllGrow(env, w', todo, nonce, now);
      GrowsOn(w, w', AfterAll(env, w', todo, nonce, now).world);
    case _ =>
  }

  lemma {:induction false} CallsGrow(env: Env, w: World, clock: int, calls: seq<Call>)
    requires IsLife(env, w, clock, calls)
    ensures Grows(w, AfterCalls(env, w, clock, calls))
    decreases |calls|
  {
    if calls != [] {
      var w1 := AfterCall(env, w, calls[0]);
      CallGrows(env, w, clock, calls[0]);
      CallsGrow(env, w1, calls[0].now, calls[1..]);
      GrowsOn(w, w1, AfterCalls(env, w, clock, calls));
    }
  }

  // ---- where a job comes from --------------------------------------------------------------------

  /** The job was made by selecting an action when the log stood at `start`. */
  predicate StemsFrom(env: Env, spec: JobSpec, action: Selected, at: int, start: seq<StateRecord>) {
    action.verification.Some? && spec == JobFor(env, action, at, start)
  }

  /** The call of a life that made a job. */
  function MadeBy(env: Env, w: World, clock: int, calls: seq<Call>, id: JobId): (k: nat)
    requires IsLife(env, w, clock, calls) && id !in w.jobs && id in AfterCalls(env, w, clock, calls).jobs
    ensures k < |calls|
    decreases |calls|
  {
    if id in AfterCall(env, w, calls[0]).jobs then 0
    else 1 + MadeBy(env, AfterCall(env, w, calls[0]), calls[0].now, calls[1..], id)
  }

  lemma {:induction false} PassAddsNoJob(env: Env, w: World, todo: seq<P.Snapshot>, nonce: string, now: int)
    ensures AfterAll(env, w, todo, nonce, now).world.jobs.Keys == w.jobs.Keys
    decreases |todo|
  {
    if todo != [] {
      var p := AfterOne(env, w, todo[0], nonce, now);
      assert p.world.jobs.Keys == w.jobs.Keys;
      PassAddsNoJob(env, p.world, todo[1..], nonce, now);
    }
  }

  /** Only selecting an action that asks for verification makes a job. */
  lemma CallMakes(env: Env, w: World, clock: int, call: Call, id: JobId)
    requires Legal(w, clock, call) && id !in w.jobs && id in AfterCall(env, w, call).jobs
    ensures Verifies(call) && call.freshId == id
    ensures StemsFrom(env, AfterCall(env, w, call).jobs[id].spec, call.action.value, call.now, w.log)
  {
    if call.Pass? {
      PassAddsNoJob(env, Claimed(env, w, call.now),
                    Snapshots(ClaimedList(call.order, w.jobs, env.runner, env.lease, call.now)), call.nonce, call.now);
    }
  }

  predicate PrefixLife(env: Env, w: World, clock: int, calls: seq<Call>, k: nat)
    requires k <= |calls|
  {
    IsLife(env, w, clock, calls[..k])
  }

  lemma {:induction false} LifePrefix(env: Env, w: World, clock: int, calls: seq<Call>, k: nat)
    requires IsLife(env, w, clock, calls) && k <= |calls|
    ensures PrefixLife(env, w, clock, calls, k)
    ensures k > 0 ==> PrefixLife(env, AfterCall(env, w, calls[0]), calls[0].now, calls[1..], k - 1)
    ensures k > 0 ==> AfterCalls(env, w, clock, calls[..k])
                      == AfterCalls(env, AfterCall(env, w, calls[0]), calls[0].now, calls[1..][..k - 1])
    decreases |calls|
  {
    if k > 0 {
      LifePrefix(env, AfterCall(env, w, calls[0]), calls[0].now, calls[1..], k - 1);
      assert calls[..k][1..] == calls[1..][..k - 1];
    }
  }

  /** Every job of a life was made by one selection, and has seen the log only grow since. */
  lemma {:induction false} EveryJobWasSelected(env: Env, w: World, clock: int, calls: seq<Call>, id: JobId)
    requires IsLife(env, w, clock, calls) && id !in w.jobs && id in AfterCalls(env, w, clock, calls).jobs
    ensures var k, w' := MadeBy(env, w, clock, calls, id), AfterCalls(env, w, clock, calls);
            && PrefixLife(env, w, clock, calls, k)
            && var start := AfterCalls(env, w, clock, calls[..k]).log;
               && Verifies(calls[k]) && calls[k].freshId == id && start <= w'.log
               && StemsFrom(env, w'.jobs[id].spec, calls[k].action.value, calls[k].now, start)
    decreases |calls|
  {
    var w1, k := AfterCall(env, w, calls[0]), MadeBy(env, w, clock, calls, id);
    LifePrefix(env, w, clock, calls, k);
    if id in w1.jobs {
      CallMakes(env, w, clock, calls[0], id);
      CallGrows(env, w, clock, calls[0]);
      CallsGrow(env, w1, calls[0].now, calls[1..]);
      GrowsOn(w, w1, AfterCalls(env, w, clock, calls));
      assert calls[..0] == [];
    } else {
      EveryJobWasSelected(env, w1, calls[0].now, calls[1..], id);
    }
  }

  // ---- what a pass does to each copy it claimed -----------------------------------------------------

  predicate OneEach(todo: seq<P.Snapshot>) {
    forall i, k :: 0 <= i < k < |todo| ==> todo[i].id != todo[k].id
  }

  predicate AllOpen(env: Env, w: World, todo: seq<P.Snapshot>) {
    forall i :: 0 <= i < |todo| ==> MayFinalize(w.jobs, todo[i].id, env.runner)
  }

  lemma OneLeavesOthers(env: Env, w: World, sn: P.Snapshot, nonce: string, now: int, id: JobId)
    requires id in w.jobs && id != sn.id
    ensures id in AfterOne(env, w, sn, nonce, now).world.jobs
    ensures AfterOne(env, w, sn, nonce, now).world.jobs[id] == w.jobs[id]
  {
  }

  lemma {:induction false} UnlistedStays(env: Env, w: World, todo: seq<P.Snapshot>, nonce: string, now: int, id: JobId)
    requires id in w.jobs && forall i :: 0 <= i < |todo| ==> todo[i].id != id
    ensures id in AfterAll(env, w, todo, nonce, now).world.jobs
    ensures AfterAll(env, w, todo, nonce, now).world.jobs[id] == w.jobs[id]
    decreases |todo|
  {
    if todo != [] {
      OneLeavesOthers(env, w, todo[0], nonce, now, id);
      UnlistedStays(env, AfterOne(env, w, todo[0], nonce, now).world, todo[1..], nonce, now, id);
    }
  }

  /** How a copy is finished: past the limit as a dead letter, else as its verdict says. */
  predicate FinishedAs(env: Env, sn: P.Snapshot, v: Verdict, j: Job, now: int) {
    && j.finalAt == Some(now)
    && if sn.job.attempts > sn.job.spec.maxAttempts.GetOr(env.maxAttempts) then
         && j.status == Deadlettered && j.finalEvent == Some("DEADLETTERED")
         && j.lastError == Some("max_attempts_exceeded")
       else
         && j.status == (if v.passed then Passed else Failed)
         && j.finalEvent == Some(if v.passed then "VERIFY_PASSED" else "VERIFY_FAILED")
         && (v.failureReason.Some? && v.failureReason.value != "" ==> j.lastError == v.failureReason)
  }

  lemma OneIsFinished(env: Env, w: World, sn: P.Snapshot, nonce: string, now: int)
    requires MayFinalize(w.jobs, sn.id, env.runner)
    ensures var w' := AfterOne(env, w, sn, nonce, now).world;
            sn.id in w'.jobs && FinishedAs(env, sn, VerdictOn(env, w, sn.job), w'.jobs[sn.id], now)
  {
  }

  /** The i-th copy is judged in the world the copies before it leave, whatever happens after it. */
  lemma {:induction false} EachIsFinished(env: Env, w: World, todo: seq<P.Snapshot>, nonce: string, now: int, i: nat)
    requires OneEach(todo) && AllOpen(env, w, todo) && i < |todo|
    requires !AfterAll(env, w, todo[..i], nonce, now).raised
    ensures var mid := AfterAll(env, w, todo[..i], nonce, now).world;
            var jobs := AfterAll(env, w, todo, nonce, now).world.jobs;
            && todo[i].id in jobs
            && FinishedAs(env, todo[i], VerdictOn(env, mid, todo[i].job), jobs[todo[i].id], now)
    decreases |todo|
  {
    var p := AfterOne(env, w, todo[0], nonce, now);
    if i == 0 {
      assert todo[..0] == [];
      OneIsFinished(env, w, todo[0], nonce, now);
      if !p.raised { UnlistedStays(env, p.world, todo[1..], nonce, now, todo[0].id); }
    } else {
      assert todo[..i][1..] == todo[1..][..i - 1] && todo[..i][0] == todo[0];
      forall x | 0 < x < |todo| ensures MayFinalize(p.world.jobs, todo[x].id, env.runner) {
        OneLeavesOthers(env, w, todo[0], nonce, now, todo[x].id);
      }
      EachIsFinished(env, p.world, todo[1..], nonce, now, i - 1);
    }
  }

  function TodoOf(env: Env, w: World, order: seq<JobId>, now: int): seq<P.Snapshot>
    requires forall id <- order :: id in w.jobs
  {
    Snapshots(ClaimedList(order, w.jobs, env.runner, env.lease, now))
  }

  lemma CopiesAreOpen(env: Env, w: World, order: seq<JobId>, now: int)
    requires RunnerTheorems.FinalExactly(w.jobs) && Distinct(order) && forall id <- order :: id in w.jobs
    ensures var todo := TodoOf(env, w, order, now);
            && OneEach(todo) && AllOpen(env, Claimed(env, w, now), todo)
            && forall i :: 0 <= i < |todo| ==> todo[i].id in w.jobs && todo[i].job.spec == w.jobs[todo[i].id].spec
  {
    var claimed := ClaimedList(order, w.jobs, env.runner, env.lease, now);
    ClaimReturnsTheClaimable(order, w.jobs, env.runner, env.lease, now);
    forall i | 0 <= i < |claimed| ensures claimed[i] in claimed {}
  }

  /** A pass finishes each copy it gets to, by its verdict in the world the copies before it leave. */
  lemma PassFinishes(env: Env, w: World, order: seq<JobId>, nonce: string, now: int, i: nat)
    requires RunnerTheorems.FinalExactly(w.jobs) && Distinct(order) && forall id <- order :: id in w.jobs
    requires i < |TodoOf(env, w, order, now)|
    requires !AfterAll(env, Claimed(env, w, now), TodoOf(env, w, order, now)[..i], nonce, now).raised
    ensures var todo, jobs := TodoOf(env, w, order, now), AfterPass(env, w, order, nonce, now).world.jobs;
            var sn, mid := todo[i], AfterAll(env, Claimed(env, w, now), todo[..i], nonce, now).world;
            && sn.id in w.jobs && sn.job.spec == w.jobs[sn.id].spec && w.log <= mid.log
            && sn.id in jobs && FinishedAs(env, sn, VerdictOn(env, mid, sn.job), jobs[sn.id], now)
  {
    var todo := TodoOf(env, w, order, now);
    CopiesAreOpen(env, w, order, now);
    AllGrow(env, Claimed(env, w, now), todo[..i], nonce, now);
    EachIsFinished(env, Claimed(env, w, now), todo, nonce, now, i);
  }

  // ---- the verdicts of a life ----------------------------------------------------------------------------

  lemma PrefixOfPrefix<T>(a: seq<T>, b: seq<T>, c: seq<T>)
    requires a <= b <= c
    ensures a <= c
  {
    assert a == c[..|b|][..|a|];
  }

  lemma JudgedFrom(env: Env, mid: World, j: Job, action: Selected, at: int, start: seq<StateRecord>)
    requires env.codec.Lawful() && StemsFrom(env, j.spec, action, at, start) && start <= mid.log
    ensures var spec := action.verification.value;
            VerdictOn(env, mid, j) == Judgement(spec, ValueIn(Replay(start), spec.metric, None), mid.log[|start|..])
  {
    assert mid.log == start + mid.log[|start|..];
    ReadFromBoundary(env.codec, start, mid.log[|start|..]);
  }

  lemma JobOfLife(env: Env, calls: seq<Call>, id: JobId)
    requires IsLife(env, EMPTY, 0, calls) && id in AfterCalls(env, EMPTY, 0, calls).jobs
    ensures var k, w := MadeBy(env, EMPTY, 0, calls, id), AfterCalls(env, EMPTY, 0, calls);
            && PrefixLife(env, EMPTY, 0, calls, k)
            && var start := AfterCalls(env, EMPTY, 0, calls[..k]).log;
               && Verifies(calls[k]) && calls[k].freshId == id && start <= w.log
               && StemsFrom(env, w.jobs[id].spec, calls[k].action.value, calls[k].now, start)
  {
    EveryJobWasSelected(env, EMPTY, 0, calls, id);
  }

  /** The job says what its selection said: what to verify, by when, how often to try and how to roll back. */
  predicate Carries(env: Env, spec: JobSpec, a: Selected, at: int) {
    && a.verification == Some(spec.verify)
    && spec.rollbackType == a.rollback
    && spec.deadline == at + 1_000_000 * (if a.deadlineSeconds.Some? then a.deadlineSeconds.value else 30)
    && spec.maxAttempts == Some(env.maxAttempts)
    && spec.actionId == a.actionId.GetOr("")
    && spec.dedupeKey == KeyOf(env, a)
  }

  /** In every life each job carries what the selection that made it asked for. */
  lemma JobCarriesItsSelection(env: Env, calls: seq<Call>, id: JobId)
    requires IsLife(env, EMPTY, 0, calls) && id in AfterCalls(env, EMPTY, 0, calls).jobs
    ensures var call := calls[MadeBy(env, EMPTY, 0, calls, id)];
            && Verifies(call)
            && Carries(env, AfterCalls(env, EMPTY, 0, calls).jobs[id].spec, call.action.value, call.now)
  {
    JobOfLife(env, calls, id);
  }

  lemma LifeIsFinalExactly(env: Env, calls: seq<Call>)
    requires IsLife(env, EMPTY, 0, calls)
    ensures RunnerTheorems.FinalExactly(AfterCalls(env, EMPTY, 0, calls).jobs)
  {
    assert RunnerTheorems.Conserved(EMPTY);
    CallsConserve(env, EMPTY, 0, calls);
  }

  /**
   * In every life, each copy a pass claims and gets to is finalised by that pass: as a dead letter
   * past its limit, else by comparing the records appended since its action was selected with the
   * value its metric had then.
   */
  lemma VerdictsInEveryLife(env: Env, calls: seq<Call>, now: int, order: seq<JobId>, nonce: string, i: nat)
    requires env.codec.Lawful() && IsLife(env, EMPTY, 0, calls)
    requires var w := AfterCalls(env, EMPTY, 0, calls);
             && Distinct(order) && ToSet(order) == w.jobs.Keys && (forall id <- order :: id in w.jobs)
             && var todo := TodoOf(env, w, order, now);
                i < |todo| && !AfterAll(env, Claimed(env, w, now), todo[..i], nonce, now).raised
    ensures var w := AfterCalls(env, EMPTY, 0, calls); var todo := TodoOf(env, w, order, now);
            var sn, mid := todo[i], AfterAll(env, Claimed(env, w, now), todo[..i], nonce, now).world;
            && sn.id in w.jobs
            && var k := MadeBy(env, EMPTY, 0, calls, sn.id);
               && PrefixLife(env, EMPTY, 0, calls, k)
               && var start := AfterCalls(env, EMPTY, 0, calls[..k]).log;
                  && Verifies(calls[k]) && calls[k].freshId == sn.id && start <= mid.log
                  && var spec := calls[k].action.value.verification.value;
                     var jobs := AfterPass(env, w, order, nonce, now).world.jobs;
                     var v := Judgement(spec, ValueIn(Replay(start), spec.metric, None), mid.log[|start|..]);
                     sn.id in jobs && FinishedAs(env, sn, v, jobs[sn.id], now)
  {
    var w := AfterCalls(env, EMPTY, 0, calls);
    var sn := TodoOf(env, w, order, now)[i];
    var mid := AfterAll(env, Claimed(env, w, now), TodoOf(env, w, order, now)[..i], nonce, now).world;
    LifeIsFinalExactly(env, calls);
    PassFinishes(env, w, order, nonce, now, i);
    JobOfLife(env, calls, sn.id);
    var k := MadeBy(env, EMPTY, 0, calls, sn.id);
    var start := AfterCalls(env, EMPTY, 0, calls[..k]).log;
    PrefixOfPrefix(start, w.log, mid.log);
    JudgedFrom(env, mid, sn.job, calls[k].action.value, calls[k].now, start);
  }
}
