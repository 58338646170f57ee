/** The promises of the job protocol, as statements about every run from the empty store. */
module ProtocolTheorems {
  import opened Prelude
  import opened Jobs
  import opened Protocol
  import opened ProtocolSafety

  function Reached(c: Config, steps: seq<Step>): State
    requires IsRun(c, Init(), steps)
  {
    After(c, Init(), steps)
  }

  /** Everything a run says about one job, satisfying the invariant. */
  lemma ReachedJob(c: Config, steps: seq<Step>, id: JobId) returns (v: View)
    requires IsRun(c, Init(), steps) && id in Reached(c, steps).jobs
    ensures v == ViewOf(Reached(c, steps), id) && JobOk(c, id, v)
  {
    ReachableInv(c, steps);
    v := ViewsOf(Reached(c, steps))[id];
  }

  // ---- exactly once ------------------------------------------------------------------

  /** A job is terminal exactly when its one final outcome has been set, by the lease owner. */
  lemma FinalOutcomeAtMostOnce(c: Config, steps: seq<Step>, id: JobId)
    requires IsRun(c, Init(), steps) && id in Reached(c, steps).jobs
    ensures var s := Reached(c, steps); var j := s.jobs[id]; var finals := Of(s.history, FinalKind, id);
            && |finals| <= 1
            && (Terminal(j.status) <==> j.finalAt.Some?)
            && (Terminal(j.status) <==> finals != [])
            && (finals != [] ==> j.leaseOwner.Some? && finals[0] == Finalized(id, j.leaseOwner.value, j.status)
                                 && j.status in {Passed, Failed, Deadlettered})
  {
    var v := ReachedJob(c, steps, id);
  }

  /** On a finalised job only the rollback mark and the result can still change; in memory each once. */
  predicate SettledAs(c: Config, j: Job, j': Job) {
    && j' == j.(rollbackAt := j'.rollbackAt, rollbackActionId := j'.rollbackActionId,
                rollbackResult := j'.rollbackResult)
    && (j.rollbackAt.Some? ==> j'.rollbackAt == j.rollbackAt && j'.rollbackActionId == j.rollbackActionId)
    && (j.rollbackResult.Some? ==> j'.rollbackResult.Some?)
    && (j.rollbackResult.Some? && c.rule == InMemory ==> j'.rollbackResult == j.rollbackResult)
  }

  lemma FinalRow(c: Config, s: State, id: JobId)
    requires Inv(c, s) && id in s.jobs && s.jobs[id].finalAt.Some?
    ensures !Pending(s.jobs[id])
  {
    assert JobOk(c, id, ViewsOf(s)[id]);
  }

  /** No runner claims or finalises a job that is final. */
  lemma FinalIsUnwritten(c: Config, s: State, step: Step, id: JobId)
    requires Enabled(c, s, step) && id in s.jobs && s.jobs[id].finalAt.Some? && !Pending(s.jobs[id])
    ensures Writes(s, step, id) ==> step.Mark? || step.Attach?
  {
    if step.Claim? { assert id !in ClaimableIds(c.rule, s.jobs, step.now); }
  }

  lemma StepSettled(c: Config, s: State, step: Step, id: JobId)
    requires Inv(c, s) && Enabled(c, s, step) && id in s.jobs && s.jobs[id].finalAt.Some?
    ensures id in Next(c, s, step).jobs && SettledAs(c, s.jobs[id], Next(c, s, step).jobs[id])
  {
    FinalRow(c, s, id);
    FinalIsUnwritten(c, s, step, id);
    UnwrittenJob(c, s, step, id);
    match step
    case Mark(r, tag) => MarkSettles(c, s, r, tag, id);
    case Attach(_, result, ids) => AttachSettles(c, s.jobs, ids, result, id);
    case _ =>
  }

  lemma MarkSettles(c: Config, s: State, r: RunnerId, tag: string, id: JobId)
    requires RunnerOf(s, r).phase.Marking? && id in s.jobs
    ensures id in MarkStep(c, s, r, tag).jobs && SettledAs(c, s.jobs[id], MarkStep(c, s, r, tag).jobs[id])
  {
  }

  lemma AttachSettles(c: Config, jobs: Rows, ids: set<JobId>, result: string, id: JobId)
    requires id in jobs
    ensures SettledAs(c, jobs[id], AttachTo(c.rule, jobs, ids, result)[id])
  {
  }

  /** In every continuation by any runners, a finalised job keeps its status, event, owner and attempts. */
  lemma {:induction false} FinalizedForever(c: Config, s: State, more: seq<Step>, id: JobId)
    requires Inv(c, s) && IsRun(c, s, more) && id in s.jobs && s.jobs[id].finalAt.Some?
    ensures id in After(c, s, more).jobs && SettledAs(c, s.jobs[id], After(c, s, more).jobs[id])
    decreases |more|
  {
    if more != [] {
      StepSettled(c, s, more[0], id);
      StepKeepsInv(c, s, more[0]);
      FinalizedForever(c, Next(c, s, more[0]), more[1..], id);
    }
  }

  // ---- leases -------------------------------------------------------------------------

  /** The claims of one job by any runners are spaced by leases, and `attempts` counts them. */
  lemma ClaimsAreLeasesApart(c: Config, steps: seq<Step>, id: JobId, i: nat, k: nat)
    requires IsRun(c, Init(), steps) && id in Reached(c, steps).jobs
    requires i < k < |Of(Reached(c, steps).history, ClaimKind, id)|
    requires forall r :: c.lease(r) > 0
    ensures var claims := Of(Reached(c, steps).history, ClaimKind, id);
            && claims[i].Claimed? && claims[k].Claimed?
            && claims[i].at + c.lease(claims[i].runner) <= claims[k].at
            && Reached(c, steps).jobs[id].attempts == |claims|
  {
    var v := ReachedJob(c, steps, id);
    ClaimPair(c, id, v, i, k);
  }

  lemma ClaimPair(c: Config, id: JobId, v: View, i: nat, k: nat)
    requires LeaseOk(c, id, v) && i < k < |v.claims| && forall r :: c.lease(r) > 0
    ensures v.claims[i].Claimed? && v.claims[k].Claimed? && v.job.attempts == |v.claims|
    ensures v.claims[i].at + c.lease(v.claims[i].runner) <= v.claims[k].at
  {
    forall x | 0 <= x < |v.claims| ensures v.claims[x].lease >= 1 {
      assert c.lease(v.claims[x].runner) > 0;
    }
    SpacedApart(v.claims, i, k, 1);
  }

  /** With leases of at least `m`, the k-th claim after the i-th comes at least (k - i) leases later. */
  lemma {:induction false} SpacedApart(claims: seq<Event>, i: nat, k: nat, m: int)
    requires Spaced(claims) && i < k < |claims| && m >= 0
    requires forall x :: 0 <= x < |claims| ==> claims[x].lease >= m
    ensures claims[i].at + claims[i].lease + (k - i - 1) * m <= claims[k].at
    decreases k
  {
    assert claims[k - 1].at + claims[k - 1].lease <= claims[k].at;
    if i < k - 1 {
      SpacedApart(claims, i, k - 1, m);
    }
  }

  /** So the attempts counter is bounded by the time the job has been claimed over. */
  lemma AttemptsBound(c: Config, steps: seq<Step>, id: JobId, m: int)
    requires IsRun(c, Init(), steps) && id in Reached(c, steps).jobs
    requires m > 0 && forall r :: c.lease(r) >= m
    requires Reached(c, steps).jobs[id].attempts > 0
    ensures var claims := Of(Reached(c, steps).history, ClaimKind, id);
            && |claims| == Reached(c, steps).jobs[id].attempts
            && claims[0].Claimed? && claims[|claims| - 1].Claimed?
            && (|claims| - 1) * m <= claims[|claims| - 1].at - claims[0].at
  {
    var v := ReachedJob(c, steps, id);
    ClaimsBound(c, id, v, m);
  }

  lemma ClaimsBound(c: Config, id: JobId, v: View, m: int)
    requires LeaseOk(c, id, v) && v.claims != []
    requires m > 0 && forall r :: c.lease(r) >= m
    ensures (|v.claims| - 1) * m <= v.claims[|v.claims| - 1].at - v.claims[0].at
  {
    var n := |v.claims|;
    if n > 1 {
      SpacedApart(v.claims, 0, n - 1, m);
      assert (n - 1) * m == (n - 2) * m + m;
    }
  }

  // ---- the ledger and rollback -----------------------------------------------------------

  /** At most one ledger entry per job, agreeing with its outcome, and none for a dead letter. */
  lemma LedgerAtMostOnce(c: Config, steps: seq<Step>, id: JobId)
    requires IsRun(c, Init(), steps) && id in Reached(c, steps).jobs
    ensures var s := Reached(c, steps); var entries := Ledger(s.outcomes, id);
            && |entries| <= 1
            && (entries != [] ==> entries[0] == Outcome(id, s.jobs[id].status) && s.jobs[id].status in {Passed, Failed})
  {
    var v := ReachedJob(c, steps, id);
  }

  /** A rollback runs at most once per job, only after that same runner finalised the job FAILED. */
  lemma RollbackAtMostOnce(c: Config, steps: seq<Step>, id: JobId)
    requires IsRun(c, Init(), steps) && id in Reached(c, steps).jobs
    ensures var s := Reached(c, steps); var execs := Of(s.history, ExecKind, id);
            && |execs| <= 1
            && (execs != [] ==>
                  && execs[0].Executed?
                  && Of(s.history, FinalKind, id) == [Finalized(id, execs[0].runner, Failed)]
                  && RollsBack(s.jobs[id], c.catalogue)
                  && (s.jobs[id].rollbackAt.Some? <==> c.markAwaited))
            && (s.jobs[id].rollbackAt.Some? ==> s.jobs[id].status == Failed)
            && (!c.markAwaited ==> s.jobs[id].rollbackAt.None?)
  {
    var v := ReachedJob(c, steps, id);
  }

  /** The guard the runner relies on: finalising froze the lease, so marking cannot fail. */
  lemma MarkingAlwaysSucceeds(c: Config, steps: seq<Step>, r: RunnerId)
    requires IsRun(c, Init(), steps) && RunnerOf(Reached(c, steps), r).phase.Marking?
    ensures MayMark(Reached(c, steps).jobs, RunnerOf(Reached(c, steps), r).phase.sn.id, r)
  {
    ReachableInv(c, steps);
    var s := Reached(c, steps);
    assert RunnerOk(c, r, s.runners[r], ViewsOf(s));
  }

  predicate ActedBy(step: Step, r: RunnerId) {
    match step
    case Tick(_) => false
    case Enqueue(_, _) => false
    case Attach(_, _, _) => false
    case _ => step.r == r
  }

  lemma {:induction false} OthersLeaveARunnerAlone(c: Config, s: State, steps: seq<Step>, r: RunnerId)
    requires IsRun(c, s, steps) && forall i :: 0 <= i < |steps| ==> !ActedBy(steps[i], r)
    ensures RunnerOf(After(c, s, steps), r) == RunnerOf(s, r)
    decreases |steps|
  {
    if steps != [] {
      assert !ActedBy(steps[0], r);
      OthersLeaveARunnerAlone(c, Next(c, s, steps[0]), steps[1..], r);
    }
  }

  lemma MarkThenExecute(c: Config, s: State, r: RunnerId, tag: string)
    requires Inv(c, s) && RunnerOf(s, r).phase.Marking?
    ensures var id := RunnerOf(s, r).phase.sn.id;
            && Enabled(c, s, Mark(r, tag))
            && Enabled(c, Next(c, s, Mark(r, tag)), Execute(r))
            && var s' := Next(c, Next(c, s, Mark(r, tag)), Execute(r));
            && id in s'.jobs
            && (c.markAwaited ==> s'.jobs[id].rollbackAt == Some(s.clock) && s'.jobs[id].rollbackActionId == Some(tag))
            && Of(s'.history, ExecKind, id) == [Executed(id, r)]
  {
    var w := s.runners[r];
    assert RunnerOk(c, r, w, ViewsOf(s));
    OfPush(s.history, Executed(w.phase.sn.id, r), ExecKind, w.phase.sn.id);
  }

  /**
   * A runner about to mark and roll back completes it however long the others run in between:
   * the two steps are enabled, and leave the job marked and rolled back exactly once.
   */
  lemma RollbackCompletes(c: Config, steps: seq<Step>, others: seq<Step>, r: RunnerId, tag: string)
    requires IsRun(c, Init(), steps) && RunnerOf(Reached(c, steps), r).phase.Marking?
    requires IsRun(c, Reached(c, steps), others) && forall i :: 0 <= i < |others| ==> !ActedBy(others[i], r)
    ensures var s := After(c, Reached(c, steps), others);
            var id := RunnerOf(Reached(c, steps), r).phase.sn.id;
            && Enabled(c, s, Mark(r, tag))
            && Enabled(c, Next(c, s, Mark(r, tag)), Execute(r))
            && var s' := Next(c, Next(c, s, Mark(r, tag)), Execute(r));
            && id in s'.jobs
            && (c.markAwaited ==> s'.jobs[id].rollbackAt == Some(s.clock) && s'.jobs[id].rollbackActionId == Some(tag))
            && Of(s'.history, ExecKind, id) == [Executed(id, r)]
  {
    ReachableInv(c, steps);
    RunKeepsInv(c, Reached(c, steps), others);
    OthersLeaveARunnerAlone(c, Reached(c, steps), others, r);
    MarkThenExecute(c, After(c, Reached(c, steps), others), r, tag);
  }

  // ---- results of rollbacks -----------------------------------------------------------------

  /**
   * A result can reach a job exactly when it names the job's rollback or, in memory, has a null
   * id and the job has no rollback.
   */
  lemma ResultReachesExactly(c: Config, steps: seq<Step>, id: JobId, actionId: Option<string>)
    requires IsRun(c, Init(), steps) && id in Reached(c, steps).jobs
    ensures var jobs := Reached(c, steps).jobs;
            (exists ids: set<JobId> :: id in ids && Addressed(c.rule, jobs, actionId, ids))
            <==> if actionId.Some? then jobs[id].rollbackAt.Some? && jobs[id].rollbackActionId == actionId
                 else c.rule == InMemory && jobs[id].rollbackAt.None?
  {
    var v := ReachedJob(c, steps, id);
    var jobs := Reached(c, steps).jobs;
    if Matches(c.rule, jobs[id], actionId) {
      assert id in MatchingIds(c.rule, jobs, actionId);
      var ids := if c.rule == Postgres then MatchingIds(c.rule, jobs, actionId) else {id};
      assert Addressed(c.rule, jobs, actionId, ids);
    }
  }

  predicate ResultsAreMarked(jobs: Rows) {
    forall id <- jobs :: jobs[id].rollbackResult.Some? ==> jobs[id].rollbackAt.Some?
  }

  /** Only a result changes a row's result, and no step takes a mark away. */
  lemma RowKeepsResult(c: Config, s: State, step: Step, id: JobId)
    requires Enabled(c, s, step) && !step.Attach? && id in Next(c, s, step).jobs
    ensures var j' := Next(c, s, step).jobs[id];
            if id !in s.jobs then j'.rollbackResult.None?
            else j'.rollbackResult == s.jobs[id].rollbackResult && (s.jobs[id].rollbackAt.Some? ==> j'.rollbackAt.Some?)
  {
    match step
    case Mark(r, tag) => assert Next(c, s, step) == MarkStep(c, s, r, tag);
    case _ =>
  }

  lemma AttachKeepsResultsMarked(rule: ClaimRule, jobs: Rows, ids: set<JobId>, result: string)
    requires ResultsAreMarked(jobs) && forall id <- ids :: id in jobs ==> jobs[id].rollbackAt.Some?
    ensures ResultsAreMarked(AttachTo(rule, jobs, ids, result))
  {
  }

  lemma MatchedIsMarked(c: Config, s: State, actionId: Option<string>, id: JobId)
    requires Inv(c, s) && actionId.Some? && id in MatchingIds(c.rule, s.jobs, actionId)
    ensures s.jobs[id].rollbackAt.Some?
  {
    assert JobOk(c, id, ViewsOf(s)[id]);
  }

  lemma StepKeepsResultsMarked(c: Config, s: State, step: Step)
    requires Inv(c, s) && Enabled(c, s, step) && ResultsAreMarked(s.jobs)
    requires step.Attach? ==> step.actionId.Some?
    ensures ResultsAreMarked(Next(c, s, step).jobs)
  {
    if step.Attach? {
      forall id <- step.ids ensures id in s.jobs && s.jobs[id].rollbackAt.Some? {
        MatchedIsMarked(c, s, step.actionId, id);
      }
      AttachKeepsResultsMarked(c.rule, s.jobs, step.ids, step.result);
    } else {
      var jobs' := Next(c, s, step).jobs;
      forall id <- jobs' ensures jobs'[id].rollbackResult.Some? ==> jobs'[id].rollbackAt.Some? {
        RowKeepsResult(c, s, step, id);
      }
    }
  }

  /** As long as no result has a null id, only jobs marked for rollback carry a result. */
  lemma {:induction false} ResultNeedsMark(c: Config, s: State, steps: seq<Step>)
    requires Inv(c, s) && IsRun(c, s, steps) && ResultsAreMarked(s.jobs)
    requires forall i :: 0 <= i < |steps| && steps[i].Attach? ==> steps[i].actionId.Some?
    ensures ResultsAreMarked(After(c, s, steps).jobs)
    decreases |steps|
  {
    if steps != [] {
      StepKeepsResultsMarked(c, s, steps[0]);
      StepKeepsInv(c, s, steps[0]);
      ResultNeedsMark(c, Next(c, s, steps[0]), steps[1..]);
    }
  }

  /** Where marking is not awaited, SQL never correlates any result. */
  lemma UnawaitedNeverCorrelates(c: Config, steps: seq<Step>, id: JobId)
    requires c.rule == Postgres && !c.markAwaited && IsRun(c, Init(), steps) && id in Reached(c, steps).jobs
    ensures Reached(c, steps).jobs[id].rollbackActionId.None? && Reached(c, steps).jobs[id].rollbackResult.None?
  {
    var v := ReachedJob(c, steps, id);
  }

  // ---- attempt limits: where the two claim rules part ---------------------------------------

  /** A job is dead-lettered exactly when it was finished on a claim past its owner's limit. */
  lemma DeadLetteredExactlyPastTheLimit(c: Config, steps: seq<Step>, id: JobId)
    requires IsRun(c, Init(), steps) && id in Reached(c, steps).jobs && Terminal(Reached(c, steps).jobs[id].status)
    ensures var j := Reached(c, steps).jobs[id];
            && j.leaseOwner.Some?
            && var own := c.limit(j.leaseOwner.value);
               var limit := if c.rule == InMemory && j.spec.maxAttempts.Some? then j.spec.maxAttempts.value else own;
               && (j.status == Deadlettered <==> j.attempts > limit)
               && (j.status != Deadlettered <==> 0 < j.attempts <= limit)
  {
    var v := ReachedJob(c, steps, id);
  }

  /** The SQL rule never claims a job more often than its stored limit. */
  lemma PostgresAttemptsWithinLimit(c: Config, steps: seq<Step>, id: JobId)
    requires c.rule == Postgres && IsRun(c, Init(), steps) && id in Reached(c, steps).jobs
    ensures var j := Reached(c, steps).jobs[id];
            j.attempts <= Max(0, if j.spec.maxAttempts.Some? then j.spec.maxAttempts.value else 3)
  {
    var v := ReachedJob(c, steps, id);
  }

  /** So the SQL runner's dead-letter branch is dead code wherever runner limits are not below job limits. */
  lemma PostgresNeverDeadLetters(c: Config, steps: seq<Step>, r: RunnerId)
    requires c.rule == Postgres && IsRun(c, Init(), steps)
    requires forall id, x :: id in Reached(c, steps).jobs ==> StoredLimit(Reached(c, steps).jobs[id]) <= c.limit(x)
    ensures !Enabled(c, Reached(c, steps), DeadLetter(r))
    ensures forall id <- Reached(c, steps).jobs :: Reached(c, steps).jobs[id].status != Deadlettered
  {
    ReachableInv(c, steps);
    var s := Reached(c, steps);
    forall id <- s.jobs ensures s.jobs[id].status != Deadlettered {
      var v := ReachedJob(c, steps, id);
      if Terminal(v.job.status) {
        DeadLetteredExactlyPastTheLimit(c, steps, id);
        WithinLimit(c, id, v, v.job.leaseOwner.value);
      }
    }
    if r in s.runners && s.runners[r].todo != [] {
      assert RunnerOk(c, r, s.runners[r], ViewsOf(s));
      var id := s.runners[r].todo[0].id;
      assert SnapshotOk(r, s.runners[r].todo[0], ViewsOf(s));
      WithinLimit(c, id, ViewsOf(s)[id], r);
    }
  }

  lemma WithinLimit(c: Config, id: JobId, v: View, r: RunnerId)
    requires c.rule == Postgres && JobOk(c, id, v) && v.job.attempts > 0 && StoredLimit(v.job) <= c.limit(r)
    ensures v.job.attempts <= LimitOf(c, v.job, r)
  {
  }

  /**
   * The SQL rule claims nothing that the in-memory rule does not; on a due pending job they differ
   * exactly at the instant its lease expires, or when its attempts are used up and no lease runs.
   */
  lemma ClaimRulesDiffer(c: Config, steps: seq<Step>, id: JobId, now: int)
    requires IsRun(c, Init(), steps) && id in Reached(c, steps).jobs
    requires var j := Reached(c, steps).jobs[id]; Pending(j) && j.spec.deadline <= now
    ensures var j := Reached(c, steps).jobs[id];
            && (Claimable(Postgres, j, now) ==> Claimable(InMemory, j, now))
            && ((Claimable(InMemory, j, now) <==> Claimable(Postgres, j, now))
                <==> !(j.leaseExpires == Some(now)
                       || (j.attempts >= StoredLimit(j) && (j.leaseExpires.None? || j.leaseExpires.value < now))))
  {
    var v := ReachedJob(c, steps, id);
  }

  // ---- idempotent enqueue ---------------------------------------------------------------------

  function EnqueuedKeys(steps: seq<Step>): set<string> {
    set step | step in steps && step.Enqueue? :: step.spec.dedupeKey
  }

  function KeysOf(step: Step): set<string> {
    if step.Enqueue? then {step.spec.dedupeKey} else {}
  }

  lemma UnionAssociates<T>(a: set<T>, b: set<T>, c: set<T>)
    ensures a + b + c == a + (b + c)
  {
  }

  /** There is exactly one job per distinct dedupe key ever enqueued. */
  lemma JobsCountDistinctKeys(c: Config, steps: seq<Step>)
    requires IsRun(c, Init(), steps)
    ensures Reached(c, steps).dedupe.Keys == EnqueuedKeys(steps)
    ensures |Reached(c, steps).jobs| == |EnqueuedKeys(steps)|
  {
    ReachableInv(c, steps);
    KeysGrow(c, Init(), steps);
    var s := Reached(c, steps);
    OneJobPerKey(s.dedupe, s.jobs);
  }

  lemma {:induction false} KeysGrow(c: Config, s: State, steps: seq<Step>)
    requires IsRun(c, s, steps)
    ensures After(c, s, steps).dedupe.Keys == s.dedupe.Keys + EnqueuedKeys(steps)
    decreases |steps|
  {
    if steps != [] {
      KeysGrow(c, Next(c, s, steps[0]), steps[1..]);
      KeysStep(c, s, steps[0]);
      KeysSplit(steps);
      UnionAssociates(s.dedupe.Keys, KeysOf(steps[0]), EnqueuedKeys(steps[1..]));
    }
  }

  lemma KeysSplit(steps: seq<Step>)
    requires steps != []
    ensures EnqueuedKeys(steps) == KeysOf(steps[0]) + EnqueuedKeys(steps[1..])
  {
    forall k <- EnqueuedKeys(steps) ensures k in KeysOf(steps[0]) + EnqueuedKeys(steps[1..]) {
      var step :| step in steps && step.Enqueue? && step.spec.dedupeKey == k;
      assert step == steps[0] || step in steps[1..];
    }
  }

  lemma KeysStep(c: Config, s: State, step: Step)
    requires Enabled(c, s, step)
    ensures Next(c, s, step).dedupe.Keys == s.dedupe.Keys + KeysOf(step)
  {
  }
}
