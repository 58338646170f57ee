/**
 * VerificationRunner of control_plane/verification_runner.py in process mode: one runner over
 * the in-memory job store, judging from the state log and rolling back through the adapter.
 */
module VerificationRunner {
  import opened Prelude
  import opened Jobs
  import opened JobStore
  import opened StateLog
  import opened StateStore
  import opened Evaluator
  import opened Adapter
  import Protocol

  const DEFAULT_DEADLINE_SECONDS: int := 30
  const SECOND: int := 1_000_000

  datatype Metrics = Metrics(enqueued: nat, passed: nat, failed: nat, deadlettered: nat, rollbacks: nat)

  /** An ACTION_SELECTED payload; a missing key is None. */
  datatype Selected = Selected(
    actionId: Option<string>,
    decisionId: Option<string>,
    verification: Option<VerifySpec>,
    deadlineSeconds: Option<int>,
    rollback: Option<string>)

  /** An ACT_RESULT or ACTION_TAKEN payload; the action id may be missing (None) or null (Some(None)). */
  datatype ActResult = ActResult(actionId: Option<Option<string>>, body: string)

  /** `key` stands for the hash of decision id, action id and verification spec. */
  datatype Env = Env(
    runner: RunnerId,
    maxAttempts: int,
    lease: int,
    catalogue: map<string, Action>,
    key: (string, string, VerifySpec) -> string,
    codec: Codec)

  /** All the state one runner works on. */
  datatype World = World(
    jobs: map<JobId, Job>,
    dedupe: map<string, JobId>,
    outcomes: seq<Outcome>,
    log: seq<StateRecord>,
    metrics: Metrics)

  // ---- enqueueing a verification ----------------------------------------------------------

  function JobFor(env: Env, action: Selected, now: int, log: seq<StateRecord>): JobSpec
    requires action.verification.Some?
  {
    var vspec := action.verification.value;
    var actionId := action.actionId.GetOr("");
    JobSpec(env.key(action.decisionId.GetOr(actionId), actionId, vspec), actionId,
            now + SECOND * action.deadlineSeconds.GetOr(DEFAULT_DEADLINE_SECONDS),
            |Encode(env.codec, log)|, ValueIn(Replay(log), vspec.metric, None), vspec,
            action.rollback, Some(env.maxAttempts))
  }

  /** A duplicate key adds no job but counts as enqueued. */
  function AfterSelect(env: Env, w: World, action: Option<Selected>, now: int, freshId: JobId): World {
    if action.None? || action.value.verification.None? then w
    else
      var spec := JobFor(env, action.value, now, w.log);
      var w' := w.(metrics := w.metrics.(enqueued := w.metrics.enqueued + 1));
      if spec.dedupeKey in w.dedupe then w'
      else w'.(jobs := w.jobs[freshId := NewJob(spec)], dedupe := w.dedupe[spec.dedupeKey := freshId])
  }

  // ---- correlating a rollback's result ------------------------------------------------------

  function IdOf(result: ActResult): Option<string> {
    result.actionId.GetOr(Some(""))
  }

  function AfterResult(w: World, order: seq<JobId>, result: Option<ActResult>): World {
    if result.None? then w
    else
      var actionId := IdOf(result.value);
      w.(jobs := AttachTo(InMemory, w.jobs, FirstOf(order, w.jobs, actionId), result.value.body))
  }

  // ---- one pass over the claimed jobs -------------------------------------------------------

  function VerdictOn(env: Env, w: World, j: Job): Evaluator.Verdict {
    Judgement(j.spec.verify, j.spec.baseline,
              ReadRecords(env.codec, Suffix(Encode(env.codec, w.log), j.spec.baselineOffset)))
  }

  function Tag(id: JobId, nonce: string): string {
    "rb-" + id + "-" + nonce
  }

  /** A world, and whether an exception got there. */
  datatype Sweep = Swept(world: World, raised: bool)

  function AfterDeadLetter(env: Env, w: World, id: JobId, now: int): World {
    if MayFinalize(w.jobs, id, env.runner) then
      w.(jobs := w.jobs[id := FinalizeJob(w.jobs[id], Deadlettered, "DEADLETTERED",
                                           Some("max_attempts_exceeded"), now)],
         metrics := w.metrics.(deadlettered := w.metrics.deadlettered + 1))
    else w
  }

  /** Executing a rollback, which counts unless it raises. */
  function AfterEffects(w: World, action: Action, now: int): Sweep {
    var done := ApplyAll(w.log, action.effects, action.actionId, now);
    Swept(w.(log := done.log,
             metrics := if done.ok then w.metrics.(rollbacks := w.metrics.rollbacks + 1) else w.metrics),
          !done.ok)
  }

  function AfterRollback(env: Env, w: World, sn: Protocol.Snapshot, nonce: string, now: int): Sweep {
    if RollsBack(sn.job, env.catalogue.Keys) && MayMark(w.jobs, sn.id, env.runner) then
      AfterEffects(w.(jobs := w.jobs[sn.id := MarkJob(w.jobs[sn.id], Tag(sn.id, nonce), now)]),
                   env.catalogue[sn.job.spec.rollbackType.value], now)
    else Swept(w, false)
  }

  function Counting(m: Metrics, passed: bool): Metrics {
    if passed then m.(passed := m.passed + 1) else m.(failed := m.failed + 1)
  }

  function Recorded(w: World, id: JobId, v: Evaluator.Verdict, now: int): World
    requires id in w.jobs
  {
    w.(jobs := w.jobs[id := FinalizeJob(w.jobs[id], VerdictStatus(v.passed), VerdictEvent(v.passed),
                                         v.failureReason, now)],
       outcomes := w.outcomes + [Outcome(id, VerdictStatus(v.passed))],
       metrics := Counting(w.metrics, v.passed))
  }

  function AfterVerdict(env: Env, w: World, sn: Protocol.Snapshot, now: int): World
    requires MayFinalize(w.jobs, sn.id, env.runner)
  {
    Recorded(w, sn.id, VerdictOn(env, w, sn.job), now)
  }

  function AfterOne(env: Env, w: World, sn: Protocol.Snapshot, nonce: string, now: int): Sweep {
    if sn.job.attempts > sn.job.spec.maxAttempts.GetOr(env.maxAttempts) then
      Swept(AfterDeadLetter(env, w, sn.id, now), false)
    else if !MayFinalize(w.jobs, sn.id, env.runner) then Swept(w, false)
    else if VerdictOn(env, w, sn.job).passed then Swept(AfterVerdict(env, w, sn, now), false)
    else AfterRollback(env, AfterVerdict(env, w, sn, now), sn, nonce, now)
  }

  function AfterAll(env: Env, w: World, todo: seq<Protocol.Snapshot>, nonce: string, now: int): Sweep
    decreases |todo|
  {
    if todo == [] then Swept(w, false)
    else
      var p := AfterOne(env, w, todo[0], nonce, now);
      if p.raised then p else AfterAll(env, p.world, todo[1..], nonce, now)
  }

  function Claimed(env: Env, w: World, now: int): World {
    w.(jobs := ClaimAll(w.jobs, ClaimableIds(InMemory, w.jobs, now), env.runner, env.lease, now))
  }

  function Snapshots(claimed: seq<(JobId, Job)>): seq<Protocol.Snapshot> {
    seq(|claimed|, i requires 0 <= i < |claimed| => Protocol.Snapshot(claimed[i].0, claimed[i].1))
  }

  /** check_pending: claim what is due, then finish the claimed jobs in order. */
  function AfterPass(env: Env, w: World, order: seq<JobId>, nonce: string, now: int): Sweep
    requires forall id <- order :: id in w.jobs
  {
    AfterAll(env, Claimed(env, w, now), Snapshots(ClaimedList(order, w.jobs, env.runner, env.lease, now)), nonce, now)
  }

  class Runner {
    const env: Env
    const jobs: InMemoryJobStore
    const state: Store
    var metrics: Metrics

    ghost predicate Valid()
      reads this, jobs, state
    {
      jobs.Valid() && state.Valid() && state.codec == env.codec
    }

    ghost function Value(): World
      reads this, jobs, state
    {
      World(jobs.jobs, jobs.dedupe, jobs.outcomes, state.log, metrics)
    }

    constructor (env: Env, jobs: InMemoryJobStore, state: Store)
      ensures this.env == env && this.jobs == jobs && this.state == state && metrics == Metrics(0, 0, 0, 0, 0)
    {
      this.env, this.jobs, this.state, this.metrics := env, jobs, state, Metrics(0, 0, 0, 0, 0);
    }

    method OnActionSelected(action: Option<Selected>, now: int, freshId: JobId)
      requires Valid() && freshId !in jobs.jobs
      modifies this, jobs
      ensures Valid()
      ensures Value() == AfterSelect(env, old(Value()), action, now, freshId)
    {
      if action.None? || action.value.verification.None? {
        return;
      }
      var spec := BuildJob(action.value, now);
      var id, job := jobs.Enqueue(spec, freshId);
      metrics := metrics.(enqueued := metrics.enqueued + 1);
    }

    method BuildJob(a: Selected, now: int) returns (spec: JobSpec)
      requires Valid() && a.verification.Some?
      ensures spec == JobFor(env, a, now, state.log)
    {
      var vspec := a.verification.value;
      var actionId := a.actionId.GetOr("");
      var decisionId := a.decisionId.GetOr(actionId);
      var deadline := now + SECOND * a.deadlineSeconds.GetOr(DEFAULT_DEADLINE_SECONDS);
      var offset := state.Offset();
      var baseline := state.GetValue(vspec.metric, None);
      spec := JobSpec(env.key(decisionId, actionId, vspec), actionId, deadline, offset, baseline, vspec,
                      a.rollback, Some(env.maxAttempts));
    }

    method OnActResult(result: Option<ActResult>)
      requires Valid()
      modifies jobs
      ensures Valid() && jobs.order == old(jobs.order)
      ensures Value() == AfterResult(old(Value()), jobs.order, result)
    {
      if result.None? {
        return;
      }
      var done := jobs.RecordRollbackResult(IdOf(result.value), result.value.body);
    }

    method DoDeadLetter(id: JobId, now: int)
      requires Valid()
      modifies this, jobs
      ensures Valid() && jobs.order == old(jobs.order)
      ensures Value() == AfterDeadLetter(env, old(Value()), id, now)
    {
      var success := jobs.DeadLetter(id, env.runner, "max_attempts_exceeded", now);
      if !success {
        return;
      }
      metrics := metrics.(deadlettered := metrics.deadlettered + 1);
    }

    /** Returns false when applying the rollback's effects raises. */
    method DoRollback(sn: Protocol.Snapshot, nonce: string, now: int) returns (ok: bool)
      requires Valid()
      modifies this, jobs, state
      ensures Valid() && jobs.order == old(jobs.order)
      ensures Swept(Value(), !ok) == AfterRollback(env, old(Value()), sn, nonce, now)
    {
      if !RollsBack(sn.job, env.catalogue.Keys) {
        return true;
      }
      var marked := jobs.MarkRollbackTriggered(sn.id, env.runner, Tag(sn.id, nonce), now);
      if !marked {
        return true;
      }
      ok := RunRollback(env.catalogue[sn.job.spec.rollbackType.value], now);
    }

    /** Applies the rollback's effects and counts it. */
    method RunRollback(action: Action, now: int) returns (ok: bool)
      requires Valid()
      modifies this, state
      ensures Valid()
      ensures Swept(Value(), !ok) == AfterEffects(old(Value()), action, now)
    {
      ok := Execute(state, action, now);
      if ok {
        metrics := metrics.(rollbacks := metrics.rollbacks + 1);
      }
    }

    method Judge(j: Job) returns (result: Evaluator.Verdict)
      requires Valid()
      ensures result == VerdictOn(env, Value(), j)
    {
      result := Evaluate(env.codec, state.file, j);
    }

    /** Finalises and records; `finalized` is whether the exactly-once guard let it through. */
    method Conclude(id: JobId, result: Evaluator.Verdict, now: int) returns (finalized: bool)
      requires jobs.Valid()
      modifies this, jobs
      ensures jobs.Valid() && jobs.order == old(jobs.order) && jobs.dedupe == old(jobs.dedupe)
      ensures finalized == MayFinalize(old(jobs.jobs), id, env.runner)
      ensures Value() == if finalized then Recorded(old(Value()), id, result, now) else old(Value())
    {
      finalized := jobs.Finalize(id, env.runner, VerdictStatus(result.passed), VerdictEvent(result.passed),
                                 result.failureReason, now);
      if finalized {
        jobs.AppendOutcome(Outcome(id, VerdictStatus(result.passed)));
        metrics := Counting(metrics, result.passed);
      }
    }

    method ProcessOne(sn: Protocol.Snapshot, nonce: string, now: int) returns (ok: bool)
      requires Valid()
      modifies this, jobs, state
      ensures Valid() && jobs.order == old(jobs.order)
      ensures Swept(Value(), !ok) == AfterOne(env, old(Value()), sn, nonce, now)
    {
      if sn.job.attempts > sn.job.spec.maxAttempts.GetOr(env.maxAttempts) {
        DoDeadLetter(sn.id, now);
        return true;
      }
      var result := Judge(sn.job);
      var finalized := Conclude(sn.id, result, now);
      if !finalized || result.passed {
        return true;
      }
      ok := DoRollback(sn, nonce, now);
    }

    /** Returns false when an exception leaves the pass early; the store then stands as it was at that point. */
    method CheckPending(nonce: string, now: int) returns (ok: bool)
      requires Valid()
      modifies this, jobs, state
      ensures Valid() && jobs.order == old(jobs.order)
      ensures forall id <- old(jobs.order) :: id in old(jobs.jobs)
      ensures Swept(Value(), !ok) == AfterPass(env, old(Value()), old(jobs.order), nonce, now)
    {
      assert forall id <- jobs.order :: id in ToSet(jobs.order);
      var claimed := jobs.ClaimDue(env.runner, env.lease, now);
      ghost var todo := Snapshots(claimed);
      ghost var all := AfterAll(env, Value(), todo, nonce, now);
      var i := 0;
      while i < |claimed|
        invariant 0 <= i <= |claimed| && Valid() && jobs.order == old(jobs.order)
        invariant all == AfterAll(env, Value(), todo[i..], nonce, now)
      {
        assert todo[i..][0] == todo[i] && todo[i..][1..] == todo[i + 1..];
        ok := ProcessOne(Protocol.Snapshot(claimed[i].0, claimed[i].1), nonce, now);
        if !ok {
          return;
        }
        i := i + 1;
      }
      ok := true;
    }
  }
}
