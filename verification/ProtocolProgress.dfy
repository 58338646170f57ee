/** At most once becomes exactly once for every job that no crash catches in the middle. */
module ProtocolProgress {
  import opened Prelude
  import opened Jobs
  import opened Protocol
  import opened ProtocolSafety
  import opened ProtocolTheorems

  predicate FreeFor(w: Runner, id: JobId) {
    w.phase == Ready || w.phase.sn.id == id
  }

  /** What is still owed on a judged job is in the hands of its owner `w`. */
  predicate Held(c: Config, id: JobId, v: View, w: Runner) {
    v.job.status in {Passed, Failed} ==>
      && (v.ledger == [] ==> w.phase.Recording? && w.phase.sn.id == id)
      && (v.job.status == Failed && RollsBack(v.job, c.catalogue) && v.execs == [] ==>
            w.phase != Ready && w.phase.sn.id == id)
  }

  /** Except for the jobs in `hit`, whatever is owed is in hand. */
  predicate NothingLost(c: Config, hit: set<JobId>, vs: Views, runners: Runners) {
    forall id <- vs :: id !in hit && vs[id].job.leaseOwner.Some? ==>
        Held(c, id, vs[id], RunnerIn(runners, vs[id].job.leaseOwner.value))
  }

  /** A runner that works on one job at a time drops nothing it owes on another. */
  lemma OneJobAtATime(c: Config, hit: set<JobId>, vs: Views, runners: Runners, id: JobId, v: View, r: RunnerId,
                      w: Runner)
    requires NothingLost(c, hit, vs, runners) && id in vs && v.job.leaseOwner == Some(r)
    requires FreeFor(RunnerIn(runners, r), id) && FreeFor(w, id) && Held(c, id, v, w)
    ensures NothingLost(c, hit, vs[id := v], runners[r := w])
  {
    forall y <- vs | y != id && y !in hit && vs[y].job.leaseOwner.Some?
      ensures Held(c, y, vs[y], RunnerIn(runners[r := w], vs[y].job.leaseOwner.value))
    {
      assert Held(c, y, vs[y], RunnerIn(runners, vs[y].job.leaseOwner.value));
    }
  }

  lemma FinishDrops(c: Config, hit: set<JobId>, vs: Views, runners: Runners, r: RunnerId, status: Status, event: string,
                    error: Option<string>, now: int, next: Phase)
    requires NothingLost(c, hit, vs, runners) && r in runners && runners[r].phase == Ready
    requires runners[r].todo != [] && runners[r].todo[0].id in vs
    requires Finishing(c, r, runners[r].todo[0], status, next) && vs[runners[r].todo[0].id].job.leaseOwner == Some(r)
    ensures var id := runners[r].todo[0].id;
            var v := Pushed(vs[id], FinalizeJob(vs[id].job, status, event, error, now), Finalized(id, r, status));
            NothingLost(c, hit, vs[id := v], runners[r := Runner(runners[r].todo[1..], next)])
  {
    var id := runners[r].todo[0].id;
    var v := Pushed(vs[id], FinalizeJob(vs[id].job, status, event, error, now), Finalized(id, r, status));
    OneJobAtATime(c, hit, vs, runners, id, v, r, Runner(runners[r].todo[1..], next));
  }

  lemma FinishLosesNothing(c: Config, hit: set<JobId>, s: State, r: RunnerId, status: Status, event: string,
                           error: Option<string>, next: Phase)
    requires KnownJobs(s) && RunnerOf(s, r).todo != [] && RunnerOf(s, r).phase == Ready
    requires Finishing(c, r, RunnerOf(s, r).todo[0], status, next)
    requires NothingLost(c, hit, ViewsOf(s), s.runners)
    ensures NothingLost(c, hit, ViewsOf(Finish(s, r, status, event, error, next)),
                        Finish(s, r, status, event, error, next).runners)
  {
    var s', todo := Finish(s, r, status, event, error, next), s.runners[r].todo;
    if MayFinalize(s.jobs, todo[0].id, r) {
      PushedEvent(s, s', FinalizeJob(s.jobs[todo[0].id], status, event, error, s.clock),
                  Finalized(todo[0].id, r, status));
      FinishDrops(c, hit, ViewsOf(s), s.runners, r, status, event, error, s.clock, next);
    } else {
      SameViews(s, s');
      SamePhases(c, hit, ViewsOf(s), s.runners, r, Runner(todo[1..], Ready));
    }
  }

  lemma SamePhases(c: Config, hit: set<JobId>, vs: Views, runners: Runners, r: RunnerId, w: Runner)
    requires NothingLost(c, hit, vs, runners) && w.phase == RunnerIn(runners, r).phase
    ensures NothingLost(c, hit, vs, runners[r := w])
  {
    forall y <- vs | y !in hit && vs[y].job.leaseOwner.Some?
      ensures Held(c, y, vs[y], RunnerIn(runners[r := w], vs[y].job.leaseOwner.value))
    {
      assert Held(c, y, vs[y], RunnerIn(runners, vs[y].job.leaseOwner.value));
    }
  }

  lemma RecordDrops(c: Config, hit: set<JobId>, vs: Views, runners: Runners, r: RunnerId, next: Phase)
    requires NothingLost(c, hit, vs, runners) && r in runners && runners[r].phase.Recording?
             && RunnerOk(c, r, runners[r], vs)
    requires var p := runners[r].phase;
             next == if !p.passed && RollsBack(p.sn.job, c.catalogue) then Marking(p.sn) else Ready
    ensures var w := runners[r]; var id := w.phase.sn.id;
            && id in vs
            && var v := vs[id].(ledger := vs[id].ledger + [Outcome(id, VerdictStatus(w.phase.passed))]);
               NothingLost(c, hit, vs[id := v], runners[r := w.(phase := next)])
  {
    var w := runners[r];
    var id := w.phase.sn.id;
    var v := vs[id].(ledger := vs[id].ledger + [Outcome(id, VerdictStatus(w.phase.passed))]);
    OneJobAtATime(c, hit, vs, runners, id, v, r, w.(phase := next));
  }

  lemma RecordLosesNothing(c: Config, hit: set<JobId>, s: State, r: RunnerId)
    requires Inv(c, s) && RunnerOf(s, r).phase.Recording? && NothingLost(c, hit, ViewsOf(s), s.runners)
    ensures NothingLost(c, hit, ViewsOf(RecordStep(c, s, r)), RecordStep(c, s, r).runners)
  {
    RunnerIsOk(c, s, r);
    RecordDrops(c, hit, ViewsOf(s), s.runners, r, RecordStep(c, s, r).runners[r].phase);
    RecordedViews(c, s, r);
  }

  lemma MarkDrops(c: Config, hit: set<JobId>, vs: Views, runners: Runners, r: RunnerId, j: Job)
    requires NothingLost(c, hit, vs, runners) && r in runners && runners[r].phase.Marking?
             && RunnerOk(c, r, runners[r], vs)
    requires var v := vs[runners[r].phase.sn.id].job;
             j == v.(rollbackAt := j.rollbackAt, rollbackActionId := j.rollbackActionId)
    ensures var w := runners[r]; var id := w.phase.sn.id;
            && id in vs
            && NothingLost(c, hit, vs[id := vs[id].(job := j)], runners[r := w.(phase := Executing(w.phase.sn))])
  {
    var w := runners[r];
    var id := w.phase.sn.id;
    OneJobAtATime(c, hit, vs, runners, id, vs[id].(job := j), r, w.(phase := Executing(w.phase.sn)));
  }

  lemma MarkLosesNothing(c: Config, hit: set<JobId>, s: State, r: RunnerId, tag: string)
    requires Inv(c, s) && RunnerOf(s, r).phase.Marking? && NothingLost(c, hit, ViewsOf(s), s.runners)
    ensures NothingLost(c, hit, ViewsOf(MarkStep(c, s, r, tag)), MarkStep(c, s, r, tag).runners)
  {
    RunnerIsOk(c, s, r);
    MarkEffect(c, s, r, tag);
    MarkDrops(c, hit, ViewsOf(s), s.runners, r, MarkedRow(c, s, r, tag));
  }

  lemma ExecuteDrops(c: Config, hit: set<JobId>, vs: Views, runners: Runners, r: RunnerId)
    requires NothingLost(c, hit, vs, runners) && r in runners && runners[r].phase.Executing?
             && RunnerOk(c, r, runners[r], vs)
    ensures var w := runners[r]; var id := w.phase.sn.id;
            && id in vs
            && NothingLost(c, hit, vs[id := Pushed(vs[id], vs[id].job, Executed(id, r))],
                           runners[r := w.(phase := Ready)])
  {
    var w := runners[r];
    var id := w.phase.sn.id;
    OneJobAtATime(c, hit, vs, runners, id, Pushed(vs[id], vs[id].job, Executed(id, r)), r, w.(phase := Ready));
  }

  lemma ExecuteLosesNothing(c: Config, hit: set<JobId>, s: State, r: RunnerId)
    requires Inv(c, s) && RunnerOf(s, r).phase.Executing? && NothingLost(c, hit, ViewsOf(s), s.runners)
    ensures NothingLost(c, hit, ViewsOf(ExecuteStep(s, r)), ExecuteStep(s, r).runners)
  {
    RunnerIsOk(c, s, r);
    ExecuteDrops(c, hit, ViewsOf(s), s.runners, r);
    ExecutedViews(s, r);
  }

  lemma ClaimDrops(c: Config, hit: set<JobId>, vs: Views, runners: Runners, ids: set<JobId>, r: RunnerId, now: int,
                   w: Runner)
    requires NothingLost(c, hit, vs, runners) && AllClaimable(c, vs, ids, now)
    requires RunnerIn(runners, r).phase == Ready && w.phase == Ready
    ensures NothingLost(c, hit, ClaimedViews(vs, ids, r, c.lease(r), now), runners[r := w])
  {
    SamePhases(c, hit, vs, runners, r, w);
    forall y <- vs | y in ids ensures Held(c, y, ClaimView(vs[y], y, r, c.lease(r), now), w) {
      assert Claimable(c.rule, vs[y].job, now);
    }
  }

  lemma ClaimLosesNothing(c: Config, hit: set<JobId>, s: State, r: RunnerId, now: int, order: seq<JobId>)
    requires Enabled(c, s, Claim(r, now, order)) && NothingLost(c, hit, ViewsOf(s), s.runners)
    ensures NothingLost(c, hit, ViewsOf(ClaimStep(s, r, c.lease(r), now, order)),
                        ClaimStep(s, r, c.lease(r), now, order).runners)
  {
    ClaimViews(s, r, c.lease(r), now, order);
    assert AllClaimable(c, ViewsOf(s), ToSet(order), now);
    ClaimDrops(c, hit, ViewsOf(s), s.runners, ToSet(order), r, now, ClaimStep(s, r, c.lease(r), now, order).runners[r]);
  }

  lemma EnqueueLosesNothing(c: Config, hit: set<JobId>, s: State, spec: JobSpec, id: JobId)
    requires Inv(c, s) && id !in s.jobs && NothingLost(c, hit, ViewsOf(s), s.runners)
    ensures NothingLost(c, hit, ViewsOf(EnqueueStep(s, spec, id)), s.runners)
  {
    if spec.dedupeKey !in s.dedupe { EnqueuedViews(s, spec, id); }
  }

  lemma AttachDrops(c: Config, hit: set<JobId>, vs: Views, runners: Runners, ids: set<JobId>, result: string)
    requires NothingLost(c, hit, vs, runners)
    ensures NothingLost(c, hit, AttachedViews(c, vs, ids, result), runners)
  {
  }

  // ---- crashes ---------------------------------------------------------------------------------

  /** The step is a crash of a runner at work on this job. */
  predicate HitsNow(s: State, step: Step, id: JobId) {
    step.Crash? && RunnerOf(s, step.r).phase != Ready && RunnerOf(s, step.r).phase.sn.id == id
  }

  predicate Hit(c: Config, s: State, steps: seq<Step>, id: JobId)
    requires IsRun(c, s, steps)
    decreases |steps|
  {
    steps != [] && (HitsNow(s, steps[0], id) || Hit(c, Next(c, s, steps[0]), steps[1..], id))
  }

  /** A crash loses at most what the runner owed on the job it was at work on. */
  lemma CrashDrops(c: Config, hit: set<JobId>, vs: Views, runners: Runners, r: RunnerId)
    requires NothingLost(c, hit, vs, runners)
    requires RunnerIn(runners, r).phase == Ready || RunnerIn(runners, r).phase.sn.id in hit
    ensures NothingLost(c, hit, vs, runners[r := Runner([], Ready)])
  {
    forall y <- vs | y !in hit && vs[y].job.leaseOwner.Some?
      ensures Held(c, y, vs[y], RunnerIn(runners[r := Runner([], Ready)], vs[y].job.leaseOwner.value))
    {
      assert Held(c, y, vs[y], RunnerIn(runners, vs[y].job.leaseOwner.value));
    }
  }

  lemma StepLosesNothing(c: Config, hit: set<JobId>, s: State, step: Step)
    requires Inv(c, s) && Enabled(c, s, step) && NothingLost(c, hit, ViewsOf(s), s.runners)
    requires forall id :: HitsNow(s, step, id) ==> id in hit
    ensures NothingLost(c, hit, ViewsOf(Next(c, s, step)), Next(c, s, step).runners)
  {
    match step
    case Tick(_) => SameViews(s, Next(c, s, step));
    case Enqueue(spec, id) => EnqueueLosesNothing(c, hit, s, spec, id);
    case Claim(r, now, order) => ClaimLosesNothing(c, hit, s, r, now, order);
    case DeadLetter(r) =>
      FinishLosesNothing(c, hit, s, r, Deadlettered, "DEADLETTERED", Some("max_attempts_exceeded"), Ready);
    case Judge(r, passed, reason) =>
      FinishLosesNothing(c, hit, s, r, VerdictStatus(passed), VerdictEvent(passed), reason,
                         Recording(RunnerOf(s, r).todo[0], passed));
    case Record(r) => RecordLosesNothing(c, hit, s, r);
    case Mark(r, tag) => MarkLosesNothing(c, hit, s, r, tag);
    case Execute(r) => ExecuteLosesNothing(c, hit, s, r);
    case Crash(r) =>
      SameViews(s, Next(c, s, step));
      if RunnerOf(s, r).phase != Ready { assert HitsNow(s, step, RunnerOf(s, r).phase.sn.id); }
      CrashDrops(c, hit, ViewsOf(s), s.runners, r);
    case Attach(_, result, ids) =>
      AttachViews(c, s, Next(c, s, step), ids, result);
      AttachDrops(c, hit, ViewsOf(s), s.runners, ids, result);
  }

  lemma {:induction false} RunLosesNothing(c: Config, hit: set<JobId>, s: State, steps: seq<Step>)
    requires Inv(c, s) && IsRun(c, s, steps) && NothingLost(c, hit, ViewsOf(s), s.runners)
    requires forall id :: Hit(c, s, steps, id) ==> id in hit
    ensures NothingLost(c, hit, ViewsOf(After(c, s, steps)), After(c, s, steps).runners)
    decreases |steps|
  {
    if steps != [] {
      forall id ensures HitsNow(s, steps[0], id) ==> id in hit {
        if HitsNow(s, steps[0], id) { assert Hit(c, s, steps, id); }
      }
      StepLosesNothing(c, hit, s, steps[0]);
      StepKeepsInv(c, s, steps[0]);
      forall id ensures Hit(c, Next(c, s, steps[0]), steps[1..], id) ==> id in hit {
        if Hit(c, Next(c, s, steps[0]), steps[1..], id) { assert Hit(c, s, steps, id); }
      }
      RunLosesNothing(c, hit, Next(c, s, steps[0]), steps[1..]);
    }
  }

  /** The jobs that crashes hit. */
  function HitIds(c: Config, s: State, steps: seq<Step>): set<JobId>
    requires IsRun(c, s, steps)
    decreases |steps|
  {
    if steps == [] then {}
    else
      (if steps[0].Crash? && RunnerOf(s, steps[0].r).phase != Ready then {RunnerOf(s, steps[0].r).phase.sn.id} else {})
      + HitIds(c, Next(c, s, steps[0]), steps[1..])
  }

  lemma {:induction false} HitIdsExactly(c: Config, s: State, steps: seq<Step>, id: JobId)
    requires IsRun(c, s, steps)
    ensures id in HitIds(c, s, steps) <==> Hit(c, s, steps, id)
    decreases |steps|
  {
    if steps != [] { HitIdsExactly(c, Next(c, s, steps[0]), steps[1..], id); }
  }

  // ---- what a crash drops stays dropped -----------------------------------------------------------

  /** Nobody is at work on a judged job that lacks its ledger entry or its rollback. */
  predicate Dropped(c: Config, s: State, id: JobId) {
    && id in s.jobs && s.jobs[id].finalAt.Some? && Lacks(c, s.jobs[id], s.outcomes, s.history, id)
    && forall r <- s.runners :: s.runners[r].phase != Ready ==> s.runners[r].phase.sn.id != id
  }

  predicate Lacks(c: Config, j: Job, outcomes: seq<Outcome>, history: seq<Event>, id: JobId) {
    || Ledger(outcomes, id) == []
    || (j.status == Failed && RollsBack(j, c.catalogue) && Of(history, ExecKind, id) == [])
  }

  /** A runner at work owns a judged job that still lacks something. */
  lemma WorkIsOwed(c: Config, s: State, r: RunnerId)
    requires Inv(c, s) && RunnerOf(s, r).phase != Ready
    ensures var id := RunnerOf(s, r).phase.sn.id;
            && id in s.jobs && s.jobs[id].finalAt.Some? && s.jobs[id].leaseOwner == Some(r)
            && Lacks(c, s.jobs[id], s.outcomes, s.history, id)
  {
    RunnerIsOk(c, s, r);
    PhaseIsOwed(c, r, s.runners[r].phase, ViewsOf(s));
  }

  lemma PhaseIsOwed(c: Config, r: RunnerId, phase: Phase, vs: Views)
    requires PhaseOk(c, r, phase, vs) && phase != Ready
    ensures phase.sn.id in vs
    ensures var v := vs[phase.sn.id];
            && v.job.finalAt.Some? && v.job.leaseOwner == Some(r)
            && (v.ledger == [] || (v.job.status == Failed && RollsBack(v.job, c.catalogue) && v.execs == []))
  {
  }

  lemma HitDrops(c: Config, s: State, step: Step, id: JobId)
    requires Inv(c, s) && Enabled(c, s, step) && HitsNow(s, step, id)
    ensures Dropped(c, Next(c, s, step), id)
  {
    WorkIsOwed(c, s, step.r);
    forall r <- s.runners | r != step.r && s.runners[r].phase != Ready ensures s.runners[r].phase.sn.id != id {
      WorkIsOwed(c, s, r);
    }
  }

  /** Only a runner at work on a job adds to its ledger or rolls it back. */
  lemma StepAdds(c: Config, s: State, step: Step, id: JobId)
    requires Enabled(c, s, step)
    requires forall r <- s.runners :: s.runners[r].phase != Ready ==> s.runners[r].phase.sn.id != id
    ensures Ledger(Next(c, s, step).outcomes, id) == Ledger(s.outcomes, id)
    ensures Of(Next(c, s, step).history, ExecKind, id) == Of(s.history, ExecKind, id)
  {
    match step
    case Claim(r, now, order) => OfClaimEvents(s.history, order, r, now, c.lease(r), ExecKind, id);
    case DeadLetter(r) => OfPush(s.history, Finalized(RunnerOf(s, r).todo[0].id, r, Deadlettered), ExecKind, id);
    case Judge(r, passed, _) =>
      OfPush(s.history, Finalized(RunnerOf(s, r).todo[0].id, r, VerdictStatus(passed)), ExecKind, id);
    case Record(r) =>
      var p := RunnerOf(s, r).phase;
      LedgerPush(s.outcomes, Outcome(p.sn.id, VerdictStatus(p.passed)), id);
    case Execute(r) => OfPush(s.history, Executed(RunnerOf(s, r).phase.sn.id, r), ExecKind, id);
    case _ =>
  }

  /** Nobody takes up a finalised job again. */
  lemma StaysIdle(c: Config, s: State, step: Step, id: JobId)
    requires Enabled(c, s, step) && id in s.jobs && s.jobs[id].finalAt.Some?
    requires forall r <- s.runners :: s.runners[r].phase != Ready ==> s.runners[r].phase.sn.id != id
    ensures var s' := Next(c, s, step);
            forall r <- s'.runners :: s'.runners[r].phase != Ready ==> s'.runners[r].phase.sn.id != id
  {
  }

  lemma {:induction false} DroppedForever(c: Config, s: State, steps: seq<Step>, id: JobId)
    requires Inv(c, s) && IsRun(c, s, steps) && Dropped(c, s, id)
    ensures Dropped(c, After(c, s, steps), id)
    decreases |steps|
  {
    if steps != [] {
      StepAdds(c, s, steps[0], id);
      StaysIdle(c, s, steps[0], id);
      StepSettled(c, s, steps[0], id);
      StepKeepsInv(c, s, steps[0]);
      DroppedForever(c, Next(c, s, steps[0]), steps[1..], id);
    }
  }

  lemma {:induction false} HitIsDropped(c: Config, s: State, steps: seq<Step>, id: JobId)
    requires Inv(c, s) && IsRun(c, s, steps) && Hit(c, s, steps, id)
    ensures Dropped(c, After(c, s, steps), id)
    decreases |steps|
  {
    StepKeepsInv(c, s, steps[0]);
    if HitsNow(s, steps[0], id) {
      HitDrops(c, s, steps[0], id);
      DroppedForever(c, Next(c, s, steps[0]), steps[1..], id);
    } else {
      HitIsDropped(c, Next(c, s, steps[0]), steps[1..], id);
    }
  }

  // ---- exactly once ------------------------------------------------------------------------------------

  /** The job has its one ledger entry and, if it failed and its rollback is known, its one rollback. */
  predicate DoneOnce(c: Config, s: State, id: JobId)
    requires id in s.jobs && s.jobs[id].leaseOwner.Some?
  {
    var j := s.jobs[id];
    && Ledger(s.outcomes, id) == [Outcome(id, j.status)]
    && Of(s.history, ExecKind, id)
       == if j.status == Failed && RollsBack(j, c.catalogue) then [Executed(id, j.leaseOwner.value)] else []
  }

  /**
   * In every run, once the owner of a judged job is back at rest, the job has exactly one ledger
   * entry and, if due, exactly one rollback, if and only if no crash hit a runner at work on it.
   */
  lemma ExactlyOnceUnlessHit(c: Config, steps: seq<Step>, id: JobId)
    requires IsRun(c, Init(), steps)
    requires var s := After(c, Init(), steps);
             && id in s.jobs && s.jobs[id].status in {Passed, Failed}
             && s.jobs[id].leaseOwner.Some? && RunnerOf(s, s.jobs[id].leaseOwner.value).phase == Ready
    ensures DoneOnce(c, After(c, Init(), steps), id) <==> !Hit(c, Init(), steps, id)
  {
    if Hit(c, Init(), steps, id) {
      HitIsDropped(c, Init(), steps, id);
    } else {
      UnhitIsDone(c, steps, id);
    }
  }

  lemma UnhitIsDone(c: Config, steps: seq<Step>, id: JobId)
    requires IsRun(c, Init(), steps) && !Hit(c, Init(), steps, id)
    requires var s := After(c, Init(), steps);
             && id in s.jobs && s.jobs[id].status in {Passed, Failed}
             && s.jobs[id].leaseOwner.Some? && RunnerOf(s, s.jobs[id].leaseOwner.value).phase == Ready
    ensures DoneOnce(c, After(c, Init(), steps), id)
  {
    var hit := HitIds(c, Init(), steps);
    forall x ensures Hit(c, Init(), steps, x) <==> x in hit { HitIdsExactly(c, Init(), steps, x); }
    ReachableInv(c, steps);
    RunLosesNothing(c, hit, Init(), steps);
    var s := After(c, Init(), steps);
    OwesNothing(c, id, ViewsOf(s)[id], RunnerIn(s.runners, s.jobs[id].leaseOwner.value));
  }

  lemma OwesNothing(c: Config, id: JobId, v: View, w: Runner)
    requires JobOk(c, id, v) && Held(c, id, v, w) && w.phase == Ready
    requires v.job.status in {Passed, Failed} && v.job.leaseOwner.Some?
    ensures v.ledger == [Outcome(id, v.job.status)]
    ensures v.execs == if v.job.status == Failed && RollsBack(v.job, c.catalogue)
                       then [Executed(id, v.job.leaseOwner.value)] else []
  {
  }

  /** Crashes, if any, hit runners that are not at work on a job. */
  predicate Gentle(c: Config, s: State, steps: seq<Step>)
    requires IsRun(c, s, steps)
    decreases |steps|
  {
    steps == [] || (GentleStep(s, steps[0]) && Gentle(c, Next(c, s, steps[0]), steps[1..]))
  }

  predicate GentleStep(s: State, step: Step) {
    step.Crash? ==> RunnerOf(s, step.r).phase == Ready
  }

  lemma {:induction false} GentleHitsNothing(c: Config, s: State, steps: seq<Step>, id: JobId)
    requires IsRun(c, s, steps) && Gentle(c, s, steps)
    ensures !Hit(c, s, steps, id)
    decreases |steps|
  {
    if steps != [] { GentleHitsNothing(c, Next(c, s, steps[0]), steps[1..], id); }
  }
}
