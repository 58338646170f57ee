/** What check_pending conserves, and that a whole pass is a run of the job protocol. */
module RunnerTheorems {
  import opened Prelude
  import opened Jobs
  import opened JobStore
  import opened StateLog
  import opened VerificationRunner
  import P = Protocol
  import ProtocolProgress

  // ---- conservation ------------------------------------------------------------------------

  predicate FinalExactly(jobs: map<JobId, Job>) {
    forall id <- jobs ::
      && jobs[id].status in {Queued, Waiting, Passed, Failed, Deadlettered}
      && (jobs[id].finalAt.Some? <==> Terminal(jobs[id].status))
      && (jobs[id].rollbackAt.Some? ==> jobs[id].status == Failed)
  }

  predicate Counted(m: Metrics, jobs: map<JobId, Job>) {
    && m.passed == |WithStatus(jobs, Passed)|
    && m.failed == |WithStatus(jobs, Failed)|
    && m.deadlettered == |WithStatus(jobs, Deadlettered)|
  }

  function RolledBack(jobs: map<JobId, Job>): set<JobId> {
    set id | id in jobs && jobs[id].rollbackAt.Some?
  }

  /** The counters agree with the store. */
  predicate Conserved(w: World) {
    && FinalExactly(w.jobs) && DedupeOk(w.dedupe, w.jobs) && Counted(w.metrics, w.jobs)
    && w.metrics.rollbacks <= |RolledBack(w.jobs)|
    && |w.jobs| <= w.metrics.enqueued
  }

  lemma CountWithout(jobs: map<JobId, Job>, id: JobId, status: Status)
    requires id in jobs
    ensures |WithStatus(jobs, status)| == |WithStatus(jobs - {id}, status)| + if jobs[id].status == status then 1 else 0
  {
    var rest := WithStatus(jobs - {id}, status);
    assert WithStatus(jobs, status) == if jobs[id].status == status then rest + {id} else rest;
  }

  /** A change of one row moves it from its old status to its new one. */
  lemma MoveOne(jobs: map<JobId, Job>, id: JobId, j: Job, status: Status)
    requires id in jobs
    ensures |WithStatus(jobs[id := j], status)|
         == |WithStatus(jobs, status)|
            + (if j.status == status then 1 else 0) - (if jobs[id].status == status then 1 else 0)
  {
    CountWithout(jobs, id, status);
    CountWithout(jobs[id := j], id, status);
    assert jobs[id := j] - {id} == jobs - {id};
  }

  lemma RewriteRow(w: World, id: JobId, j: Job)
    requires FinalExactly(w.jobs) && DedupeOk(w.dedupe, w.jobs) && id in w.jobs && j.spec == w.jobs[id].spec
    requires FinalExactly(map[id := j])
    ensures FinalExactly(w.jobs[id := j]) && DedupeOk(w.dedupe, w.jobs[id := j])
    ensures |w.jobs[id := j]| == |w.jobs|
  {
    assert map[id := j][id] == j;
    DedupeKept(w.dedupe, w.jobs, w.jobs[id := j]);
  }

  lemma RewriteMark(jobs: map<JobId, Job>, id: JobId, j: Job)
    requires id in jobs
    ensures j.rollbackAt == jobs[id].rollbackAt ==> RolledBack(jobs[id := j]) == RolledBack(jobs)
    ensures j.rollbackAt.Some? && jobs[id].rollbackAt.None? ==> |RolledBack(jobs[id := j])| == |RolledBack(jobs)| + 1
  {
    if j.rollbackAt.Some? && jobs[id].rollbackAt.None? {
      assert RolledBack(jobs[id := j]) == RolledBack(jobs) + {id};
    }
  }

  lemma FinishConserves(w: World, id: JobId, runner: RunnerId, status: Status, event: string,
                        error: Option<string>, now: int)
    requires Conserved(w) && MayFinalize(w.jobs, id, runner) && status in {Passed, Failed, Deadlettered}
    ensures var jobs := w.jobs[id := FinalizeJob(w.jobs[id], status, event, error, now)];
            var m := w.metrics;
            && FinalExactly(jobs) && DedupeOk(w.dedupe, jobs) && |jobs| == |w.jobs|
               && RolledBack(jobs) == RolledBack(w.jobs)
            && (status == Passed ==> Counted(m.(passed := m.passed + 1), jobs))
            && (status == Failed ==> Counted(m.(failed := m.failed + 1), jobs))
            && (status == Deadlettered ==> Counted(m.(deadlettered := m.deadlettered + 1), jobs))
  {
    var j := FinalizeJob(w.jobs[id], status, event, error, now);
    RewriteRow(w, id, j);
    RewriteMark(w.jobs, id, j);
    MoveOne(w.jobs, id, j, Passed);
    MoveOne(w.jobs, id, j, Failed);
    MoveOne(w.jobs, id, j, Deadlettered);
  }

  lemma RollbackConserves(env: Env, w: World, sn: P.Snapshot, nonce: string, now: int)
    requires Conserved(w) && sn.id in w.jobs && w.jobs[sn.id].status == Failed
    ensures Conserved(AfterRollback(env, w, sn, nonce, now).world)
  {
    if RollsBack(sn.job, env.catalogue.Keys) && MayMark(w.jobs, sn.id, env.runner) {
      var j := MarkJob(w.jobs[sn.id], Tag(sn.id, nonce), now);
      RewriteRow(w, sn.id, j);
      RewriteMark(w.jobs, sn.id, j);
      MoveOne(w.jobs, sn.id, j, Passed);
      MoveOne(w.jobs, sn.id, j, Failed);
      MoveOne(w.jobs, sn.id, j, Deadlettered);
    }
  }

  lemma OneConserves(env: Env, w: World, sn: P.Snapshot, nonce: string, now: int)
    requires Conserved(w)
    ensures Conserved(AfterOne(env, w, sn, nonce, now).world)
  {
    if MayFinalize(w.jobs, sn.id, env.runner) {
      if sn.job.attempts > sn.job.spec.maxAttempts.GetOr(env.maxAttempts) {
        FinishConserves(w, sn.id, env.runner, Deadlettered, "DEADLETTERED", Some("max_attempts_exceeded"), now);
      } else {
        var v := VerdictOn(env, w, sn.job);
        FinishConserves(w, sn.id, env.runner, VerdictStatus(v.passed), VerdictEvent(v.passed), v.failureReason, now);
        if !v.passed { RollbackConserves(env, AfterVerdict(env, w, sn, now), sn, nonce, now); }
      }
    }
  }

  lemma {:induction false} AllConserve(env: Env, w: World, todo: seq<P.Snapshot>, nonce: string, now: int)
    requires Conserved(w)
    ensures Conserved(AfterAll(env, w, todo, nonce, now).world)
    decreases |todo|
  {
    if todo != [] {
      OneConserves(env, w, todo[0], nonce, now);
      AllConserve(env, AfterOne(env, w, todo[0], nonce, now).world, todo[1..], nonce, now);
    }
  }

  /** Rows that stay or become pending, without a rollback mark, do not touch the counted sets. */
  lemma SameFinals(jobs: map<JobId, Job>, jobs': map<JobId, Job>)
    requires jobs.Keys <= jobs'.Keys
    requires forall id <- jobs' :: if id in jobs && jobs'[id] == jobs[id] then true
                                   else Pending(jobs'[id]) && jobs'[id].rollbackAt.None?
                                        && (id in jobs ==> Pending(jobs[id]) && jobs[id].rollbackAt.None?)
    ensures WithStatus(jobs', Passed) == WithStatus(jobs, Passed)
    ensures WithStatus(jobs', Failed) == WithStatus(jobs, Failed)
    ensures WithStatus(jobs', Deadlettered) == WithStatus(jobs, Deadlettered)
    ensures RolledBack(jobs') == RolledBack(jobs)
  {
  }

  lemma ClaimingIsFrame(jobs: map<JobId, Job>, ids: set<JobId>, runner: RunnerId, lease: int, now: int)
    requires FinalExactly(jobs) && forall id <- ids :: id in jobs && Pending(jobs[id]) && jobs[id].finalAt.None?
    ensures var jobs' := ClaimAll(jobs, ids, runner, lease, now);
            && jobs'.Keys == jobs.Keys && FinalExactly(jobs')
            && forall id <- jobs :: jobs'[id].spec == jobs[id].spec
    ensures var jobs' := ClaimAll(jobs, ids, runner, lease, now);
            && WithStatus(jobs', Passed) == WithStatus(jobs, Passed)
            && WithStatus(jobs', Failed) == WithStatus(jobs, Failed)
            && WithStatus(jobs', Deadlettered) == WithStatus(jobs, Deadlettered)
            && RolledBack(jobs') == RolledBack(jobs)
  {
    SameFinals(jobs, ClaimAll(jobs, ids, runner, lease, now));
  }

  lemma DedupeKept(dedupe: map<string, JobId>, jobs: map<JobId, Job>, jobs': map<JobId, Job>)
    requires DedupeOk(dedupe, jobs) && jobs'.Keys == jobs.Keys && forall id <- jobs :: jobs'[id].spec == jobs[id].spec
    ensures DedupeOk(dedupe, jobs') && |jobs'| == |jobs|
  {
    assert |jobs'.Keys| == |jobs.Keys|;
  }

  lemma ClaimConserves(env: Env, w: World, now: int)
    requires Conserved(w)
    ensures Conserved(Claimed(env, w, now)) && Claimed(env, w, now).jobs.Keys == w.jobs.Keys
  {
    ClaimingIsFrame(w.jobs, ClaimableIds(InMemory, w.jobs, now), env.runner, env.lease, now);
    DedupeKept(w.dedupe, w.jobs, Claimed(env, w, now).jobs);
  }

  /** Every pass, even one an exception cuts short, keeps the counters in step with the store. */
  lemma PassConserves(env: Env, w: World, order: seq<JobId>, nonce: string, now: int)
    requires Conserved(w) && forall id <- order :: id in w.jobs
    ensures Conserved(AfterPass(env, w, order, nonce, now).world)
  {
    ClaimConserves(env, w, now);
    var todo := Snapshots(ClaimedList(order, w.jobs, env.runner, env.lease, now));
    AllConserve(env, Claimed(env, w, now), todo, nonce, now);
  }

  lemma InsertFinals(jobs: map<JobId, Job>, spec: JobSpec, freshId: JobId)
    requires FinalExactly(jobs) && freshId !in jobs
    ensures var jobs' := jobs[freshId := NewJob(spec)];
            && FinalExactly(jobs') && |jobs'| == |jobs| + 1
            && WithStatus(jobs', Passed) == WithStatus(jobs, Passed)
            && WithStatus(jobs', Failed) == WithStatus(jobs, Failed)
            && WithStatus(jobs', Deadlettered) == WithStatus(jobs, Deadlettered)
            && RolledBack(jobs') == RolledBack(jobs)
  {
    var jobs' := jobs[freshId := NewJob(spec)];
    assert jobs'.Keys == jobs.Keys + {freshId};
    SameFinals(jobs, jobs');
  }

  lemma InsertKey(dedupe: map<string, JobId>, jobs: map<JobId, Job>, spec: JobSpec, freshId: JobId)
    requires DedupeOk(dedupe, jobs) && freshId !in jobs && spec.dedupeKey !in dedupe
    ensures DedupeOk(dedupe[spec.dedupeKey := freshId], jobs[freshId := NewJob(spec)])
  {
  }

  lemma InsertConserves(w: World, spec: JobSpec, freshId: JobId)
    requires Conserved(w) && freshId !in w.jobs && spec.dedupeKey !in w.dedupe
    ensures Conserved(w.(jobs := w.jobs[freshId := NewJob(spec)], dedupe := w.dedupe[spec.dedupeKey := freshId],
                         metrics := w.metrics.(enqueued := w.metrics.enqueued + 1)))
  {
    InsertFinals(w.jobs, spec, freshId);
    InsertKey(w.dedupe, w.jobs, spec, freshId);
  }

  lemma SelectConserves(env: Env, w: World, action: Option<Selected>, now: int, freshId: JobId)
    requires Conserved(w) && freshId !in w.jobs
    ensures Conserved(AfterSelect(env, w, action, now, freshId))
  {
    if action.Some? && action.value.verification.Some? {
      var spec := JobFor(env, action.value, now, w.log);
      if spec.dedupeKey !in w.dedupe { InsertConserves(w, spec, freshId); }
    }
  }

  lemma AttachIsFrame(jobs: map<JobId, Job>, ids: set<JobId>, result: string)
    requires FinalExactly(jobs)
    ensures var jobs' := AttachTo(InMemory, jobs, ids, result);
            && jobs'.Keys == jobs.Keys && FinalExactly(jobs')
            && (forall id <- jobs :: jobs'[id].spec == jobs[id].spec)
            && WithStatus(jobs', Passed) == WithStatus(jobs, Passed)
            && WithStatus(jobs', Failed) == WithStatus(jobs, Failed)
            && WithStatus(jobs', Deadlettered) == WithStatus(jobs, Deadlettered)
            && RolledBack(jobs') == RolledBack(jobs)
  {
  }

  /** A result goes to the first job naming its action id; a missing id is the empty one, no payload nobody's. */
  lemma ResultExactly(w: World, order: seq<JobId>, body: string, id: Option<string>)
    ensures AfterResult(w, order, None) == w
    ensures AfterResult(w, order, Some(ActResult(None, body)))
         == w.(jobs := AttachTo(InMemory, w.jobs, FirstOf(order, w.jobs, Some("")), body))
    ensures AfterResult(w, order, Some(ActResult(Some(id), body)))
         == w.(jobs := AttachTo(InMemory, w.jobs, FirstOf(order, w.jobs, id), body))
  {
  }

  lemma ResultConserves(w: World, order: seq<JobId>, result: Option<ActResult>)
    requires Conserved(w)
    ensures Conserved(AfterResult(w, order, result))
  {
    if result.Some? {
      var ids := FirstOf(order, w.jobs, IdOf(result.value));
      AttachIsFrame(w.jobs, ids, result.value.body);
      DedupeKept(w.dedupe, w.jobs, AttachTo(InMemory, w.jobs, ids, result.value.body));
    }
  }

  lemma StatusesPartition(jobs: map<JobId, Job>)
    requires FinalExactly(jobs)
    ensures |PendingIds(jobs)| + |WithStatus(jobs, Passed)| + |WithStatus(jobs, Failed)|
              + |WithStatus(jobs, Deadlettered)| == |jobs|
  {
    var a, b := PendingIds(jobs), WithStatus(jobs, Passed);
    var c, d := WithStatus(jobs, Failed), WithStatus(jobs, Deadlettered);
    assert jobs.Keys == a + b + c + d;
    DisjointSizes(a, b, c, d);
  }

  lemma DisjointSizes<T>(a: set<T>, b: set<T>, c: set<T>, d: set<T>)
    requires a !! b !! c !! d
    ensures |a + b + c + d| == |a| + |b| + |c| + |d|
  {
  }

  /** What conservation says: pending and finished jobs make up the store, and no counter runs ahead. */
  lemma ConservationLaw(w: World)
    requires Conserved(w)
    ensures |PendingIds(w.jobs)| + w.metrics.passed + w.metrics.failed + w.metrics.deadlettered == |w.jobs|
    ensures |w.jobs| == |w.dedupe| <= w.metrics.enqueued
    ensures w.metrics.rollbacks <= w.metrics.failed
  {
    StatusesPartition(w.jobs);
    OneJobPerKey(w.dedupe, w.jobs);
    SubsetSize(RolledBack(w.jobs), WithStatus(w.jobs, Failed));
  }

  // ---- a pass finishes what it claims ----------------------------------------------------------

  /** Finishing one claimed job makes it terminal and leaves every other row alone. */
  lemma OneFinishes(env: Env, w: World, sn: P.Snapshot, nonce: string, now: int, other: JobId)
    requires MayFinalize(w.jobs, sn.id, env.runner) && other in w.jobs && other != sn.id
    ensures var w' := AfterOne(env, w, sn, nonce, now).world;
            && w'.jobs.Keys == w.jobs.Keys && Terminal(w'.jobs[sn.id].status)
            && w'.jobs[other] == w.jobs[other]
  {
  }

  lemma {:induction false} AllFinish(env: Env, w: World, todo: seq<P.Snapshot>, nonce: string, now: int, id: JobId)
    requires forall i :: 0 <= i < |todo| ==> MayFinalize(w.jobs, todo[i].id, env.runner)
    requires forall i, k :: 0 <= i < k < |todo| ==> todo[i].id != todo[k].id
    requires !AfterAll(env, w, todo, nonce, now).raised && id in w.jobs
    requires Terminal(w.jobs[id].status) || exists i :: 0 <= i < |todo| && todo[i].id == id
    requires Terminal(w.jobs[id].status) ==> forall i :: 0 <= i < |todo| ==> todo[i].id != id
    ensures var jobs := AfterAll(env, w, todo, nonce, now).world.jobs; id in jobs && Terminal(jobs[id].status)
    decreases |todo|
  {
    if todo != [] {
      var w' := AfterOne(env, w, todo[0], nonce, now).world;
      forall i | 0 < i < |todo| ensures MayFinalize(w'.jobs, todo[i].id, env.runner) {
        OneFinishes(env, w, todo[0], nonce, now, todo[i].id);
      }
      if id != todo[0].id { OneFinishes(env, w, todo[0], nonce, now, id); }
      assert Terminal(w'.jobs[todo[0].id].status);
      AllFinish(env, w', todo[1..], nonce, now, id);
    }
  }

  /** Unless an exception cuts it short, a pass leaves every job that was claimable finished. */
  lemma PassFinishesAllDue(env: Env, w: World, order: seq<JobId>, nonce: string, now: int, id: JobId)
    requires Distinct(order) && ToSet(order) == w.jobs.Keys && forall x <- order :: x in w.jobs
    requires FinalExactly(w.jobs) && id in ClaimableIds(InMemory, w.jobs, now)
    requires !AfterPass(env, w, order, nonce, now).raised
    ensures var jobs := AfterPass(env, w, order, nonce, now).world.jobs; id in jobs && Terminal(jobs[id].status)
  {
    var w', claimed := Claimed(env, w, now), ClaimedList(order, w.jobs, env.runner, env.lease, now);
    ClaimReturnsTheClaimable(order, w.jobs, env.runner, env.lease, now);
    var todo := Snapshots(claimed);
    forall i | 0 <= i < |todo| ensures MayFinalize(w'.jobs, todo[i].id, env.runner) {
      assert claimed[i] in claimed;
    }
    assert id in ToSet(order);
    var i :| 0 <= i < |claimed| && claimed[i] == (id, ClaimJob(w.jobs[id], env.runner, env.lease, now));
    assert todo[i].id == id;
    AllFinish(env, w', todo, nonce, now, id);
  }

  // ---- a pass is a run of the protocol -------------------------------------------------------

  /** The protocol's configuration for a single in-memory runner. */
  function ConfigOf(env: Env): P.Config {
    P.Config(InMemory, r => env.lease, r => env.maxAttempts, env.catalogue.Keys, true)
  }

  /** The runner is at the head of `todo`, and the store is the world's. */
  predicate Tracks(env: Env, s: P.State, w: World, todo: seq<P.Snapshot>, now: int) {
    && s.clock == now
    && s.jobs == w.jobs && s.dedupe == w.dedupe && s.outcomes == w.outcomes
    && P.RunnerOf(s, env.runner) == P.Runner(todo, P.Ready)
  }

  /** A run in which no crash hits a runner at work. */
  predicate IsGentleRun(c: P.Config, s: P.State, steps: seq<P.Step>) {
    P.IsRun(c, s, steps) && ProtocolProgress.Gentle(c, s, steps)
  }

  lemma {:induction false} RunsCompose(c: P.Config, s: P.State, a: seq<P.Step>, b: seq<P.Step>)
    requires IsGentleRun(c, s, a) && IsGentleRun(c, P.After(c, s, a), b)
    ensures IsGentleRun(c, s, a + b) && P.After(c, s, a + b) == P.After(c, P.After(c, s, a), b)
    decreases |a|
  {
    if a == [] {
      assert a + b == b;
    } else {
      RunsCompose(c, P.Next(c, s, a[0]), a[1..], b);
      assert (a + b)[0] == a[0] && (a + b)[1..] == a[1..] + b;
    }
  }

  function StepsForRollback(env: Env, w: World, sn: P.Snapshot, nonce: string): seq<P.Step> {
    var mark := P.Mark(env.runner, Tag(sn.id, nonce));
    if MayMark(w.jobs, sn.id, env.runner) then [mark] + [P.Execute(env.runner)] else [mark]
  }

  lemma RollbackIsARun(env: Env, s: P.State, w: World, sn: P.Snapshot, rest: seq<P.Snapshot>, nonce: string, now: int)
    requires s.clock == now && s.jobs == w.jobs && s.dedupe == w.dedupe && s.outcomes == w.outcomes
    requires P.RunnerOf(s, env.runner) == P.Runner(rest, P.Marking(sn)) && RollsBack(sn.job, env.catalogue.Keys)
    ensures var steps := StepsForRollback(env, w, sn, nonce);
            && IsGentleRun(ConfigOf(env), s, steps)
            && Tracks(env, P.After(ConfigOf(env), s, steps), AfterRollback(env, w, sn, nonce, now).world, rest, now)
  {
    var c, mark := ConfigOf(env), P.Mark(env.runner, Tag(sn.id, nonce));
    RunOfOne(c, s, mark);
    if MayMark(w.jobs, sn.id, env.runner) {
      RunOfOne(c, P.Next(c, s, mark), P.Execute(env.runner));
      RunsCompose(c, s, [mark], [P.Execute(env.runner)]);
    }
  }

  /** The steps by which the runner finishes the job at the head of its list. */
  function StepsFor(env: Env, w: World, sn: P.Snapshot, nonce: string, now: int): seq<P.Step> {
    var r := env.runner;
    if sn.job.attempts > sn.job.spec.maxAttempts.GetOr(env.maxAttempts) then [P.DeadLetter(r)]
    else
      var v := VerdictOn(env, w, sn.job);
      var judge := [P.Judge(r, v.passed, v.failureReason)];
      if !MayFinalize(w.jobs, sn.id, r) then judge
      else if v.passed || !RollsBack(sn.job, env.catalogue.Keys) then judge + [P.Record(r)]
      else judge + [P.Record(r)] + StepsForRollback(env, AfterVerdict(env, w, sn, now), sn, nonce)
  }

  function StepsForAll(env: Env, w: World, todo: seq<P.Snapshot>, nonce: string, now: int): seq<P.Step>
    decreases |todo|
  {
    if todo == [] then []
    else
      var p := AfterOne(env, w, todo[0], nonce, now);
      StepsFor(env, w, todo[0], nonce, now)
      + if p.raised then [P.Crash(env.runner)] else StepsForAll(env, p.world, todo[1..], nonce, now)
  }

  lemma RunOfOne(c: P.Config, s: P.State, a: P.Step)
    requires P.Enabled(c, s, a) && ProtocolProgress.GentleStep(s, a)
    ensures IsGentleRun(c, s, [a]) && P.After(c, s, [a]) == P.Next(c, s, a)
  {
    assert [a][1..] == [];
  }

  lemma OneIsARun(env: Env, s: P.State, w: World, todo: seq<P.Snapshot>, nonce: string, now: int)
    requires todo != [] && Tracks(env, s, w, todo, now)
    ensures var steps := StepsFor(env, w, todo[0], nonce, now);
            && IsGentleRun(ConfigOf(env), s, steps)
            && Tracks(env, P.After(ConfigOf(env), s, steps),
                      AfterOne(env, w, todo[0], nonce, now).world, todo[1..], now)
  {
    var c, r, sn := ConfigOf(env), env.runner, todo[0];
    if sn.job.attempts > sn.job.spec.maxAttempts.GetOr(env.maxAttempts) {
      RunOfOne(c, s, P.DeadLetter(r));
    } else {
      var v := VerdictOn(env, w, sn.job);
      var judge := P.Judge(r, v.passed, v.failureReason);
      RunOfOne(c, s, judge);
      if MayFinalize(w.jobs, sn.id, r) {
        var s1 := P.Next(c, s, judge);
        RunOfOne(c, s1, P.Record(r));
        RunsCompose(c, s, [judge], [P.Record(r)]);
        if !v.passed && RollsBack(sn.job, env.catalogue.Keys) {
          RollbackIsARun(env, P.Next(c, s1, P.Record(r)), AfterVerdict(env, w, sn, now), sn, todo[1..], nonce, now);
          RunsCompose(c, s, [judge] + [P.Record(r)], StepsForRollback(env, AfterVerdict(env, w, sn, now), sn, nonce));
        }
      }
    }
  }

  lemma {:induction false} AllAreARun(env: Env, s: P.State, w: World, todo: seq<P.Snapshot>, nonce: string, now: int)
    requires Tracks(env, s, w, todo, now)
    ensures var steps := StepsForAll(env, w, todo, nonce, now);
            && IsGentleRun(ConfigOf(env), s, steps)
            && Tracks(env, P.After(ConfigOf(env), s, steps), AfterAll(env, w, todo, nonce, now).world, [], now)
    decreases |todo|
  {
    if todo != [] {
      var c := ConfigOf(env);
      var p, first := AfterOne(env, w, todo[0], nonce, now), StepsFor(env, w, todo[0], nonce, now);
      OneIsARun(env, s, w, todo, nonce, now);
      var s1 := P.After(c, s, first);
      if p.raised {
        RunOfOne(c, s1, P.Crash(env.runner));
        RunsCompose(c, s, first, [P.Crash(env.runner)]);
      } else {
        AllAreARun(env, s1, p.world, todo[1..], nonce, now);
        RunsCompose(c, s, first, StepsForAll(env, p.world, todo[1..], nonce, now));
      }
    }
  }

  function IdsOf(claimed: seq<(JobId, Job)>): seq<JobId> {
    seq(|claimed|, i requires 0 <= i < |claimed| => claimed[i].0)
  }

  function ClaimStepFor(env: Env, w: World, order: seq<JobId>, now: int): P.Step
    requires forall id <- order :: id in w.jobs
  {
    P.Claim(env.runner, now, IdsOf(ClaimedList(order, w.jobs, env.runner, env.lease, now)))
  }

  /** All the protocol steps of one check_pending. */
  function StepsOfPass(env: Env, w: World, order: seq<JobId>, nonce: string, now: int): seq<P.Step>
    requires forall id <- order :: id in w.jobs
  {
    [ClaimStepFor(env, w, order, now)]
    + StepsForAll(env, Claimed(env, w, now),
                  Snapshots(ClaimedList(order, w.jobs, env.runner, env.lease, now)), nonce, now)
  }

  lemma ClaimIsAStep(env: Env, s: P.State, w: World, order: seq<JobId>, now: int)
    requires Tracks(env, s, w, [], now) && env.runner != ""
    requires Distinct(order) && ToSet(order) == w.jobs.Keys && forall id <- order :: id in w.jobs
    ensures P.Enabled(ConfigOf(env), s, ClaimStepFor(env, w, order, now))
    ensures Tracks(env, P.Next(ConfigOf(env), s, ClaimStepFor(env, w, order, now)), Claimed(env, w, now),
                   Snapshots(ClaimedList(order, w.jobs, env.runner, env.lease, now)), now)
  {
    var claimed := ClaimedList(order, w.jobs, env.runner, env.lease, now);
    var ids := IdsOf(claimed);
    ClaimReturnsTheClaimable(order, w.jobs, env.runner, env.lease, now);
    forall id <- ids ensures id in ClaimableIds(InMemory, w.jobs, now) {
      var i :| 0 <= i < |ids| && ids[i] == id;
      assert claimed[i] in claimed;
    }
    forall id <- ClaimableIds(InMemory, w.jobs, now) ensures id in ids {
      assert id in ToSet(order);
      var i :| 0 <= i < |claimed| && claimed[i] == (id, ClaimJob(w.jobs[id], env.runner, env.lease, now));
      assert ids[i] == id;
    }
    assert ToSet(ids) == ClaimableIds(InMemory, w.jobs, now);
    var jobs := Claimed(env, w, now).jobs;
    forall i | 0 <= i < |ids| ensures jobs[ids[i]] == claimed[i].1 {
      assert claimed[i] in claimed && ids[i] in ids;
    }
    assert P.Snapshots(ids, jobs) == Snapshots(claimed);
  }

  /**
   * Refinement: from any state in which the runner is at rest, a whole pass of check_pending is
   * the run StepsOfPass of the protocol and ends in the same store, so everything proved of
   * protocol runs holds of the class.
   */
  lemma PassIsARun(env: Env, s: P.State, w: World, order: seq<JobId>, nonce: string, now: int)
    requires Tracks(env, s, w, [], now) && env.runner != ""
    requires Distinct(order) && ToSet(order) == w.jobs.Keys && forall id <- order :: id in w.jobs
    ensures var steps := StepsOfPass(env, w, order, nonce, now);
            && IsGentleRun(ConfigOf(env), s, steps)
            && Tracks(env, P.After(ConfigOf(env), s, steps), AfterPass(env, w, order, nonce, now).world, [], now)
  {
    var c, claim := ConfigOf(env), ClaimStepFor(env, w, order, now);
    ClaimIsAStep(env, s, w, order, now);
    RunOfOne(c, s, claim);
    var todo := Snapshots(ClaimedList(order, w.jobs, env.runner, env.lease, now));
    AllAreARun(env, P.Next(c, s, claim), Claimed(env, w, now), todo, nonce, now);
    RunsCompose(c, s, [claim], StepsForAll(env, Claimed(env, w, now), todo, nonce, now));
  }
}
