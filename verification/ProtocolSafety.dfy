/**
 * What every reachable state of the job protocol satisfies, whatever the interleaving,
 * the crashes and the verdicts.
 */
module ProtocolSafety {
  import opened Prelude
  import opened Jobs
  import opened Protocol

  /** Everything the system knows and has done about one job. */
  datatype View = View(job: Job, claims: seq<Event>, finals: seq<Event>, execs: seq<Event>, ledger: seq<Outcome>)

  type Views = map<JobId, View>
  type Keys = map<string, JobId>
  type Rows = map<JobId, Job>
  type Runners = map<RunnerId, Runner>

  function ViewOf(s: State, id: JobId): View
    requires id in s.jobs
  {
    View(s.jobs[id], Of(s.history, ClaimKind, id), Of(s.history, FinalKind, id),
         Of(s.history, ExecKind, id), Ledger(s.outcomes, id))
  }

  function ViewsOf(s: State): Views {
    map id | id in s.jobs :: ViewOf(s, id)
  }

  // ---- the invariant, over views ---------------------------------------------------

  /** Successive claims are at least the earlier claim's lease apart. */
  predicate Spaced(claims: seq<Event>) {
    && (forall i :: 0 <= i < |claims| ==> claims[i].Claimed?)
    && (forall i :: 0 < i < |claims| ==> claims[i - 1].at + claims[i - 1].lease <= claims[i].at)
  }

  predicate LeaseOk(c: Config, id: JobId, v: View) {
    && Spaced(v.claims)
    && |v.claims| == v.job.attempts
    && (forall i :: 0 <= i < |v.claims| ==>
         v.claims[i].id == id && v.claims[i].runner != "" && v.claims[i].lease == c.lease(v.claims[i].runner))
    && (v.claims == [] ==> v.job.status == Queued && v.job.leaseOwner.None? && v.job.leaseExpires.None?)
    && (v.claims != [] ==>
          var last := v.claims[|v.claims| - 1];
          && v.job.status != Queued
          && v.job.leaseOwner == Some(last.runner)
          && v.job.leaseExpires == Some(last.at + last.lease))
    && (c.rule == Postgres ==> v.job.attempts <= Max(0, StoredLimit(v.job)))
  }

  predicate OutcomeOk(c: Config, id: JobId, v: View) {
    if v.job.finalAt.None? then
      Pending(v.job) && v.finals == [] && v.execs == [] && v.ledger == [] && v.job.rollbackAt.None?
    else
      && v.job.leaseOwner.Some?
      && var owner := v.job.leaseOwner.value;
      && v.job.status in {Passed, Failed, Deadlettered}
      && v.finals == [Finalized(id, owner, v.job.status)]
      && (v.job.status == Deadlettered <==> v.job.attempts > LimitOf(c, v.job, owner))
      && (v.ledger == [] || (v.ledger == [Outcome(id, v.job.status)] && v.job.status != Deadlettered))
      && (v.execs == [] || (v.execs == [Executed(id, owner)] && v.job.status == Failed && v.ledger != []
                            && RollsBack(v.job, c.catalogue) && (c.markAwaited ==> v.job.rollbackAt.Some?)))
      && (v.job.rollbackAt.Some? ==> c.markAwaited && v.job.status == Failed && v.ledger != [])
  }

  /** Marks are complete, and in SQL a result needs one. */
  predicate MarkOk(c: Config, j: Job) {
    && (j.rollbackActionId.Some? <==> j.rollbackAt.Some?)
    && (c.rule == Postgres && j.rollbackResult.Some? ==> j.rollbackAt.Some?)
  }

  predicate JobOk(c: Config, id: JobId, v: View) {
    LeaseOk(c, id, v) && OutcomeOk(c, id, v) && MarkOk(c, v.job)
  }

  /** A claimed copy is still current as long as its runner holds the lease. */
  predicate SnapshotOk(r: RunnerId, sn: Snapshot, vs: Views) {
    && sn.id in vs
    && sn.job.spec == vs[sn.id].job.spec
    && 0 < sn.job.attempts <= vs[sn.id].job.attempts
    && (vs[sn.id].job.leaseOwner == Some(r) ==> sn.job.attempts == vs[sn.id].job.attempts)
  }

  predicate TodoOk(r: RunnerId, todo: seq<Snapshot>, vs: Views) {
    && (forall i, j :: 0 <= i < j < |todo| ==> todo[i].id != todo[j].id)
    && (forall i :: 0 <= i < |todo| ==> SnapshotOk(r, todo[i], vs))
  }

  /** The runner has finalised this job and not yet rolled it back. */
  predicate Won(r: RunnerId, sn: Snapshot, vs: Views, status: Status) {
    && SnapshotOk(r, sn, vs)
    && var v := vs[sn.id];
    && v.job.finalAt.Some? && v.job.leaseOwner == Some(r) && v.job.status == status && v.execs == []
  }

  predicate PhaseOk(c: Config, r: RunnerId, phase: Phase, vs: Views) {
    match phase
    case Ready => true
    case Recording(sn, passed) =>
      Won(r, sn, vs, VerdictStatus(passed)) && vs[sn.id].ledger == [] && vs[sn.id].job.rollbackAt.None?
    case Marking(sn) =>
      && Won(r, sn, vs, Failed) && RollsBack(sn.job, c.catalogue)
      && vs[sn.id].ledger != [] && vs[sn.id].job.rollbackAt.None?
    case Executing(sn) =>
      && Won(r, sn, vs, Failed) && RollsBack(sn.job, c.catalogue)
      && vs[sn.id].ledger != [] && (c.markAwaited ==> vs[sn.id].job.rollbackAt.Some?)
  }

  predicate RunnerOk(c: Config, r: RunnerId, w: Runner, vs: Views) {
    TodoOk(r, w.todo, vs) && PhaseOk(c, r, w.phase, vs)
  }

  predicate ViewsOk(c: Config, vs: Views) {
    forall id <- vs :: JobOk(c, id, vs[id])
  }

  predicate RunnersOk(c: Config, runners: Runners, vs: Views) {
    forall r <- runners :: RunnerOk(c, r, runners[r], vs)
  }

  predicate KnownJobs(s: State) {
    && (forall e <- s.history :: e.id in s.jobs)
    && (forall o <- s.outcomes :: o.id in s.jobs)
  }

  /** Job rows, dedupe keys, runners and views fit together. */
  predicate Agree(c: Config, dedupe: Keys, jobs: Rows, runners: Runners, vs: Views) {
    && DedupeOk(dedupe, jobs)
    && vs.Keys == jobs.Keys && (forall id <- jobs :: vs[id].job == jobs[id])
    && ViewsOk(c, vs) && RunnersOk(c, runners, vs)
  }

  predicate Inv(c: Config, s: State) {
    KnownJobs(s) && Agree(c, s.dedupe, s.jobs, s.runners, ViewsOf(s))
  }

  lemma RunnerIsOk(c: Config, s: State, r: RunnerId)
    requires Inv(c, s) && RunnerOf(s, r) != Runner([], Ready)
    ensures r in s.runners && RunnerOk(c, r, s.runners[r], ViewsOf(s))
  {
  }

  // ---- changing one view -------------------------------------------------------------

  /** A change to a job that `r` owns, made by `r`, disturbs no other runner. */
  lemma OthersKeep(c: Config, vs: Views, id: JobId, v: View, r: RunnerId, runners: Runners, w: Runner)
    requires ViewsOk(c, vs) && RunnersOk(c, runners, vs)
    requires id in vs && vs[id].job.leaseOwner == Some(r) && JobOk(c, id, v)
    requires v.job.leaseOwner == Some(r) && v.job.spec == vs[id].job.spec && v.job.attempts == vs[id].job.attempts
    requires RunnerOk(c, r, w, vs[id := v])
    ensures ViewsOk(c, vs[id := v]) && RunnersOk(c, runners[r := w], vs[id := v])
  {
    forall x <- runners | x != r ensures RunnerOk(c, x, runners[x], vs[id := v]) {
      assert RunnerOk(c, x, runners[x], vs);
    }
  }

  /** Runner `r` updates one job it owns. */
  lemma UpdateAgrees(c: Config, dedupe: Keys, jobs: Rows, runners: Runners, vs: Views,
                     id: JobId, v: View, r: RunnerId, w: Runner)
    requires Agree(c, dedupe, jobs, runners, vs) && id in vs && vs[id].job.leaseOwner == Some(r) && JobOk(c, id, v)
    requires v.job.leaseOwner == Some(r) && v.job.spec == vs[id].job.spec && v.job.attempts == vs[id].job.attempts
    requires RunnerOk(c, r, w, vs[id := v])
    ensures Agree(c, dedupe, jobs[id := v.job], runners[r := w], vs[id := v])
  {
    OthersKeep(c, vs, id, v, r, runners, w);
    DedupeFrame(dedupe, jobs, jobs[id := v.job]);
  }

  /** Runner `r` moves on without touching a job. */
  lemma MoveAgrees(c: Config, dedupe: Keys, jobs: Rows, runners: Runners, vs: Views,
                   r: RunnerId, w: Runner)
    requires Agree(c, dedupe, jobs, runners, vs) && RunnerOk(c, r, w, vs)
    ensures Agree(c, dedupe, jobs, runners[r := w], vs)
  {
  }

  /** Whatever a step leaves alone keeps its view. */
  lemma SameViews(s: State, s': State)
    requires s'.jobs == s.jobs && s'.history == s.history && s'.outcomes == s.outcomes
    ensures ViewsOf(s') == ViewsOf(s)
  {
    forall id <- s.jobs ensures ViewOf(s', id) == ViewOf(s, id) {}
  }

  /** A job's view after one more event about it, and perhaps a change to its row. */
  function Pushed(v: View, j: Job, e: Event): View {
    match e
    case Claimed(_, _, _, _) => v.(job := j, claims := v.claims + [e])
    case Finalized(_, _, _) => v.(job := j, finals := v.finals + [e])
    case Executed(_, _) => v.(job := j, execs := v.execs + [e])
  }

  lemma PushedEvent(s: State, s': State, j: Job, e: Event)
    requires KnownJobs(s) && e.id in s.jobs && s'.jobs == s.jobs[e.id := j]
    requires s'.history == s.history + [e] && s'.outcomes == s.outcomes
    ensures KnownJobs(s')
    ensures ViewsOf(s') == ViewsOf(s)[e.id := Pushed(ViewsOf(s)[e.id], j, e)]
  {
    forall y <- s.jobs ensures ViewOf(s', y) == if y == e.id then Pushed(ViewOf(s, y), j, e) else ViewOf(s, y) {
      OfPush(s.history, e, ClaimKind, y);
      OfPush(s.history, e, FinalKind, y);
      OfPush(s.history, e, ExecKind, y);
    }
  }

  lemma DedupeFrame(dedupe: Keys, jobs: Rows, jobs': Rows)
    requires DedupeOk(dedupe, jobs) && jobs'.Keys == jobs.Keys
    requires forall id <- jobs :: jobs'[id].spec == jobs[id].spec
    ensures DedupeOk(dedupe, jobs')
  {
  }

  // ---- every step keeps it -------------------------------------------------------------

  lemma EnqueueKeepsInv(c: Config, s: State, spec: JobSpec, id: JobId)
    requires Inv(c, s) && id !in s.jobs
    ensures Inv(c, EnqueueStep(s, spec, id))
  {
    if spec.dedupeKey !in s.dedupe {
      EnqueuedViews(s, spec, id);
      EnqueueAgrees(c, s.dedupe, s.jobs, s.runners, ViewsOf(s), id, spec);
    }
  }

  lemma EnqueueAgrees(c: Config, dedupe: Keys, jobs: Rows, runners: Runners, vs: Views,
                      id: JobId, spec: JobSpec)
    requires Agree(c, dedupe, jobs, runners, vs) && id !in jobs && spec.dedupeKey !in dedupe
    ensures Agree(c, dedupe[spec.dedupeKey := id], jobs[id := NewJob(spec)], runners,
                  vs[id := View(NewJob(spec), [], [], [], [])])
  {
    NewViewOk(c, vs, id, spec, runners);
  }

  lemma EnqueuedViews(s: State, spec: JobSpec, id: JobId)
    requires KnownJobs(s) && id !in s.jobs && spec.dedupeKey !in s.dedupe
    ensures ViewsOf(EnqueueStep(s, spec, id)) == ViewsOf(s)[id := View(NewJob(spec), [], [], [], [])]
  {
    OfNothing(s.history, ClaimKind, id);
    OfNothing(s.history, FinalKind, id);
    OfNothing(s.history, ExecKind, id);
    LedgerNothing(s.outcomes, id);
    forall y <- s.jobs ensures ViewOf(EnqueueStep(s, spec, id), y) == ViewOf(s, y) {}
  }

  lemma NewViewOk(c: Config, vs: Views, id: JobId, spec: JobSpec, runners: Runners)
    requires ViewsOk(c, vs) && RunnersOk(c, runners, vs) && id !in vs
    ensures ViewsOk(c, vs[id := View(NewJob(spec), [], [], [], [])])
    ensures RunnersOk(c, runners, vs[id := View(NewJob(spec), [], [], [], [])])
  {
    var vs' := vs[id := View(NewJob(spec), [], [], [], [])];
    assert JobOk(c, id, vs'[id]);
    forall r <- runners ensures RunnerOk(c, r, runners[r], vs') {
      assert RunnerOk(c, r, runners[r], vs);
    }
  }

  function ClaimView(v: View, id: JobId, r: RunnerId, lease: int, now: int): View {
    v.(job := ClaimJob(v.job, r, lease, now), claims := v.claims + [Claimed(id, r, now, lease)])
  }

  function ClaimedViews(vs: Views, ids: set<JobId>, r: RunnerId, lease: int, now: int): Views {
    map id | id in vs :: if id in ids then ClaimView(vs[id], id, r, lease, now) else vs[id]
  }

  predicate AllClaimable(c: Config, vs: Views, ids: set<JobId>, now: int) {
    forall id <- ids :: id in vs && Claimable(c.rule, vs[id].job, now)
  }

  lemma ClaimViewOk(c: Config, id: JobId, v: View, r: RunnerId, now: int)
    requires JobOk(c, id, v) && Claimable(c.rule, v.job, now) && r != ""
    ensures JobOk(c, id, ClaimView(v, id, r, c.lease(r), now))
  {
    var v' := ClaimView(v, id, r, c.lease(r), now);
    assert LeaseOk(c, id, v');
  }

  lemma ClaimKeepsViews(c: Config, vs: Views, ids: set<JobId>, r: RunnerId, now: int)
    requires ViewsOk(c, vs) && AllClaimable(c, vs, ids, now) && r != ""
    ensures ViewsOk(c, ClaimedViews(vs, ids, r, c.lease(r), now))
  {
    var vs' := ClaimedViews(vs, ids, r, c.lease(r), now);
    forall id <- vs ensures JobOk(c, id, vs'[id]) {
      assert JobOk(c, id, vs[id]);
      if id in ids { ClaimViewOk(c, id, vs[id], r, now); }
    }
  }

  /** A job some other runner has finalised or lost cannot upset that runner by being claimed. */
  lemma ClaimKeepsRunner(c: Config, vs: Views, ids: set<JobId>, x: RunnerId, w: Runner, r: RunnerId, lease: int,
                         now: int)
    requires ViewsOk(c, vs) && AllClaimable(c, vs, ids, now) && RunnerOk(c, x, w, vs) && x != r
    ensures RunnerOk(c, x, w, ClaimedViews(vs, ids, r, lease, now))
  {
    if w.phase != Ready {
      assert JobOk(c, w.phase.sn.id, vs[w.phase.sn.id]);
      assert w.phase.sn.id !in ids;
    }
  }

  lemma FreshSnapshotsOk(r: RunnerId, order: seq<JobId>, jobs: Rows, vs: Views)
    requires Distinct(order)
    requires forall id <- order :: id in jobs && id in vs && vs[id].job == jobs[id] && jobs[id].attempts > 0
    ensures TodoOk(r, Snapshots(order, jobs), vs)
  {
  }

  lemma ClaimKeepsRunners(c: Config, vs: Views, runners: Runners, order: seq<JobId>,
                          jobs: Rows, r: RunnerId, now: int)
    requires ViewsOk(c, vs) && RunnersOk(c, runners, vs) && Distinct(order) && AllClaimable(c, vs, ToSet(order), now)
    requires jobs.Keys == vs.Keys
    requires forall id <- jobs :: jobs[id] == ClaimedViews(vs, ToSet(order), r, c.lease(r), now)[id].job
    ensures forall id <- order :: id in jobs
    ensures RunnersOk(c, runners[r := Runner(Snapshots(order, jobs), Ready)],
                      ClaimedViews(vs, ToSet(order), r, c.lease(r), now))
  {
    assert forall id <- order :: id in ToSet(order);
    FreshSnapshotsOk(r, order, jobs, ClaimedViews(vs, ToSet(order), r, c.lease(r), now));
    forall x <- runners | x != r
      ensures RunnerOk(c, x, runners[x], ClaimedViews(vs, ToSet(order), r, c.lease(r), now))
    {
      ClaimKeepsRunner(c, vs, ToSet(order), x, runners[x], r, c.lease(r), now);
    }
  }

  lemma ClaimViews(s: State, r: RunnerId, lease: int, now: int, order: seq<JobId>)
    requires ToSet(order) <= s.jobs.Keys && Distinct(order)
    ensures ViewsOf(ClaimStep(s, r, lease, now, order)) == ClaimedViews(ViewsOf(s), ToSet(order), r, lease, now)
  {
    forall id <- s.jobs
      ensures ViewOf(ClaimStep(s, r, lease, now, order), id)
           == if id in ToSet(order) then ClaimView(ViewOf(s, id), id, r, lease, now) else ViewOf(s, id)
    {
      OfClaimEvents(s.history, order, r, now, lease, ClaimKind, id);
      OfClaimEvents(s.history, order, r, now, lease, FinalKind, id);
      OfClaimEvents(s.history, order, r, now, lease, ExecKind, id);
    }
  }

  lemma ClaimedRows(c: Config, jobs: Rows, vs: Views, ids: set<JobId>, r: RunnerId, now: int)
    requires vs.Keys == jobs.Keys && (forall id <- jobs :: vs[id].job == jobs[id])
             && ids <= ClaimableIds(c.rule, jobs, now)
    ensures var jobs' := ClaimAll(jobs, ids, r, c.lease(r), now); var vs' := ClaimedViews(vs, ids, r, c.lease(r), now);
            && AllClaimable(c, vs, ids, now)
            && jobs'.Keys == vs'.Keys == jobs.Keys
            && forall id <- jobs :: vs'[id].job == jobs'[id] && jobs'[id].spec == jobs[id].spec
  {
  }

  lemma ClaimAgrees(c: Config, dedupe: Keys, jobs: Rows, runners: Runners, vs: Views,
                    r: RunnerId, now: int, order: seq<JobId>)
    requires Agree(c, dedupe, jobs, runners, vs) && r != ""
    requires Distinct(order) && ToSet(order) <= ClaimableIds(c.rule, jobs, now)
    ensures var jobs' := ClaimAll(jobs, ToSet(order), r, c.lease(r), now);
            && (forall id <- order :: id in jobs')
            && Agree(c, dedupe, jobs', runners[r := Runner(Snapshots(order, jobs'), Ready)],
                     ClaimedViews(vs, ToSet(order), r, c.lease(r), now))
  {
    var ids := ToSet(order);
    var jobs' := ClaimAll(jobs, ids, r, c.lease(r), now);
    ClaimedRows(c, jobs, vs, ids, r, now);
    ClaimKeepsViews(c, vs, ids, r, now);
    ClaimKeepsRunners(c, vs, runners, order, jobs', r, now);
    DedupeFrame(dedupe, jobs, jobs');
  }

  lemma ClaimKeepsInv(c: Config, s: State, r: RunnerId, now: int, order: seq<JobId>)
    requires Inv(c, s) && r != "" && Distinct(order) && ToSet(order) <= ClaimableIds(c.rule, s.jobs, now)
    ensures Inv(c, ClaimStep(s, r, c.lease(r), now, order))
  {
    ClaimKnown(s, order, r, now, c.lease(r));
    ClaimViews(s, r, c.lease(r), now, order);
    ClaimAgrees(c, s.dedupe, s.jobs, s.runners, ViewsOf(s), r, now, order);
  }

  lemma ClaimKnown(s: State, order: seq<JobId>, r: RunnerId, now: int, lease: int)
    requires KnownJobs(s) && ToSet(order) <= s.jobs.Keys
    ensures KnownJobs(ClaimStep(s, r, lease, now, order))
  {
    forall e <- s.history + ClaimEvents(order, r, now, lease) ensures e.id in s.jobs {
      ClaimedKnown(s, e, order, r, now, lease);
    }
  }

  lemma ClaimedKnown(s: State, e: Event, order: seq<JobId>, r: RunnerId, now: int, lease: int)
    requires KnownJobs(s) && ToSet(order) <= s.jobs.Keys
    requires e in s.history + ClaimEvents(order, r, now, lease)
    ensures e.id in s.jobs
  {
    if e !in s.history {
      var g := ClaimEvents(order, r, now, lease);
      var i :| 0 <= i < |g| && g[i] == e;
      assert order[i] in ToSet(order);
    }
  }

  /** The two ways a runner finishes a claimed job. */
  predicate Finishing(c: Config, r: RunnerId, sn: Snapshot, status: Status, next: Phase) {
    if sn.job.attempts > LimitOf(c, sn.job, r)
    then status == Deadlettered && next == Ready
    else status in {Passed, Failed} && next == Recording(sn, status == Passed)
  }

  lemma FinalJobOk(c: Config, id: JobId, v: View, r: RunnerId, sn: Snapshot, status: Status, event: string,
                   error: Option<string>, now: int, next: Phase)
    requires JobOk(c, id, v) && v.job.finalAt.None? && v.job.leaseOwner == Some(r)
    requires sn.job.spec == v.job.spec && sn.job.attempts == v.job.attempts && Finishing(c, r, sn, status, next)
    ensures JobOk(c, id, Pushed(v, FinalizeJob(v.job, status, event, error, now), Finalized(id, r, status)))
  {
  }

  lemma FinalViewOk(c: Config, vs: Views, r: RunnerId, todo: seq<Snapshot>, status: Status, event: string,
                    error: Option<string>, now: int, next: Phase)
    requires ViewsOk(c, vs) && todo != [] && TodoOk(r, todo, vs) && Finishing(c, r, todo[0], status, next)
    requires var j := vs[todo[0].id].job; j.finalAt.None? && j.leaseOwner == Some(r)
    ensures var id := todo[0].id;
            var v := Pushed(vs[id], FinalizeJob(vs[id].job, status, event, error, now), Finalized(id, r, status));
            JobOk(c, id, v) && RunnerOk(c, r, Runner(todo[1..], next), vs[id := v])
  {
    var id := todo[0].id;
    assert JobOk(c, id, vs[id]);
    assert SnapshotOk(r, todo[0], vs);
    FinalJobOk(c, id, vs[id], r, todo[0], status, event, error, now, next);
  }

  lemma FinishAgrees(c: Config, dedupe: Keys, jobs: Rows, runners: Runners, vs: Views,
                     r: RunnerId, status: Status, event: string, error: Option<string>, now: int, next: Phase)
    requires Agree(c, dedupe, jobs, runners, vs) && r in runners && runners[r].todo != []
    requires Finishing(c, r, runners[r].todo[0], status, next) && MayFinalize(jobs, runners[r].todo[0].id, r)
    ensures var id := runners[r].todo[0].id;
            var j := FinalizeJob(jobs[id], status, event, error, now);
            Agree(c, dedupe, jobs[id := j], runners[r := Runner(runners[r].todo[1..], next)],
                  vs[id := Pushed(vs[id], j, Finalized(id, r, status))])
  {
    var todo := runners[r].todo;
    var id := todo[0].id;
    assert RunnerOk(c, r, runners[r], vs);
    FinalViewOk(c, vs, r, todo, status, event, error, now, next);
    var v := Pushed(vs[id], FinalizeJob(jobs[id], status, event, error, now), Finalized(id, r, status));
    UpdateAgrees(c, dedupe, jobs, runners, vs, id, v, r, Runner(todo[1..], next));
  }

  lemma WinKeepsInv(c: Config, s: State, r: RunnerId, status: Status, event: string, error: Option<string>, next: Phase)
    requires Inv(c, s) && r in s.runners && s.runners[r].todo != []
    requires Finishing(c, r, s.runners[r].todo[0], status, next) && MayFinalize(s.jobs, s.runners[r].todo[0].id, r)
    ensures Inv(c, Finish(s, r, status, event, error, next))
  {
    var id := s.runners[r].todo[0].id;
    var j := FinalizeJob(s.jobs[id], status, event, error, s.clock);
    PushedEvent(s, Finish(s, r, status, event, error, next), j, Finalized(id, r, status));
    FinishAgrees(c, s.dedupe, s.jobs, s.runners, ViewsOf(s), r, status, event, error, s.clock, next);
  }

  lemma YieldKeepsInv(c: Config, s: State, r: RunnerId, w: Runner)
    requires Inv(c, s) && RunnerOk(c, r, w, ViewsOf(s))
    ensures Inv(c, s.(runners := s.runners[r := w]))
  {
    SameViews(s, s.(runners := s.runners[r := w]));
    MoveAgrees(c, s.dedupe, s.jobs, s.runners, ViewsOf(s), r, w);
  }

  lemma FinishKeepsInv(c: Config, s: State, r: RunnerId, status: Status, event: string, error: Option<string>,
                       next: Phase)
    requires Inv(c, s) && RunnerOf(s, r).todo != []
    requires Finishing(c, r, RunnerOf(s, r).todo[0], status, next)
    ensures Inv(c, Finish(s, r, status, event, error, next))
  {
    if MayFinalize(s.jobs, s.runners[r].todo[0].id, r) {
      WinKeepsInv(c, s, r, status, event, error, next);
    } else {
      RunnerIsOk(c, s, r);
      YieldKeepsInv(c, s, r, Runner(s.runners[r].todo[1..], Ready));
    }
  }

  /** The view of the job at hand and the runner's next phase, for the steps after finalize. */
  lemma RecordedOk(c: Config, vs: Views, r: RunnerId, w: Runner, next: Phase)
    requires ViewsOk(c, vs) && RunnerOk(c, r, w, vs) && w.phase.Recording?
    requires next == Ready || (!w.phase.passed && RollsBack(w.phase.sn.job, c.catalogue) && next == Marking(w.phase.sn))
    ensures var id := w.phase.sn.id;
            var v := vs[id].(ledger := vs[id].ledger + [Outcome(id, VerdictStatus(w.phase.passed))]);
            JobOk(c, id, v) && RunnerOk(c, r, w.(phase := next), vs[id := v])
  {
    assert JobOk(c, w.phase.sn.id, vs[w.phase.sn.id]);
  }

  lemma MarkedOk(c: Config, vs: Views, r: RunnerId, w: Runner, tag: string, now: int)
    requires ViewsOk(c, vs) && RunnerOk(c, r, w, vs) && w.phase.Marking?
    ensures var id := w.phase.sn.id;
            var v := if c.markAwaited then vs[id].(job := MarkJob(vs[id].job, tag, now)) else vs[id];
            JobOk(c, id, v) && RunnerOk(c, r, w.(phase := Executing(w.phase.sn)), vs[id := v])
  {
    assert JobOk(c, w.phase.sn.id, vs[w.phase.sn.id]);
  }

  lemma ExecutedOk(c: Config, vs: Views, r: RunnerId, w: Runner)
    requires ViewsOk(c, vs) && RunnerOk(c, r, w, vs) && w.phase.Executing?
    ensures var id := w.phase.sn.id;
            var v := Pushed(vs[id], vs[id].job, Executed(id, r));
            JobOk(c, id, v) && RunnerOk(c, r, w.(phase := Ready), vs[id := v])
  {
    assert JobOk(c, w.phase.sn.id, vs[w.phase.sn.id]);
  }

  lemma RecordedViews(c: Config, s: State, r: RunnerId)
    requires KnownJobs(s) && RunnerOf(s, r).phase.Recording? && RunnerOf(s, r).phase.sn.id in s.jobs
    ensures var id := RunnerOf(s, r).phase.sn.id;
            var v := ViewOf(s, id);
            var s' := RecordStep(c, s, r);
            && KnownJobs(s')
            && ViewsOf(s')
               == ViewsOf(s)[id := v.(ledger := v.ledger + [Outcome(id, VerdictStatus(RunnerOf(s, r).phase.passed))])]
  {
    var p := RunnerOf(s, r).phase;
    var entry := Outcome(p.sn.id, VerdictStatus(p.passed));
    forall y <- s.jobs
      ensures ViewOf(RecordStep(c, s, r), y)
           == if y == entry.id then ViewOf(s, y).(ledger := ViewOf(s, y).ledger + [entry]) else ViewOf(s, y)
    {
      LedgerPush(s.outcomes, entry, y);
    }
  }

  lemma MarkedViews(s: State, s': State, id: JobId, j: Job)
    requires id in s.jobs && s'.jobs == s.jobs[id := j] && s'.history == s.history && s'.outcomes == s.outcomes
    ensures ViewsOf(s') == ViewsOf(s)[id := ViewOf(s, id).(job := j)]
  {
    forall y <- s.jobs ensures ViewOf(s', y) == if y == id then ViewOf(s, id).(job := j) else ViewOf(s, y) {}
  }

  lemma RecordAgrees(c: Config, dedupe: Keys, jobs: Rows, runners: Runners, vs: Views,
                     r: RunnerId, next: Phase)
    requires Agree(c, dedupe, jobs, runners, vs) && r in runners && runners[r].phase.Recording?
    requires var p := runners[r].phase;
             next == Ready || (!p.passed && RollsBack(p.sn.job, c.catalogue) && next == Marking(p.sn))
    ensures var w := runners[r]; var id := w.phase.sn.id;
            && id in jobs
            && var v := vs[id].(ledger := vs[id].ledger + [Outcome(id, VerdictStatus(w.phase.passed))]);
               Agree(c, dedupe, jobs, runners[r := w.(phase := next)], vs[id := v])
  {
    var w := runners[r];
    var id := w.phase.sn.id;
    assert RunnerOk(c, r, w, vs);
    RecordedOk(c, vs, r, w, next);
    var v := vs[id].(ledger := vs[id].ledger + [Outcome(id, VerdictStatus(w.phase.passed))]);
    UpdateAgrees(c, dedupe, jobs, runners, vs, id, v, r, w.(phase := next));
    assert jobs[id := v.job] == jobs;
  }

  lemma RecordKeepsInv(c: Config, s: State, r: RunnerId)
    requires Inv(c, s) && RunnerOf(s, r).phase.Recording?
    ensures Inv(c, RecordStep(c, s, r))
  {
    RecordAgrees(c, s.dedupe, s.jobs, s.runners, ViewsOf(s), r, RecordStep(c, s, r).runners[r].phase);
    RecordedViews(c, s, r);
  }

  function MarkedRow(c: Config, s: State, r: RunnerId, tag: string): Job
    requires RunnerOf(s, r).phase.Marking? && RunnerOf(s, r).phase.sn.id in s.jobs
  {
    var j := s.jobs[RunnerOf(s, r).phase.sn.id];
    if c.markAwaited then MarkJob(j, tag, s.clock) else j
  }

  /** A runner in its marking phase always gets its mark, so the refusal branch is never taken. */
  lemma MarkEffect(c: Config, s: State, r: RunnerId, tag: string)
    requires Inv(c, s) && RunnerOf(s, r).phase.Marking?
    ensures var w := s.runners[r]; var id := w.phase.sn.id;
            && id in s.jobs
            && MarkStep(c, s, r, tag)
               == s.(jobs := s.jobs[id := MarkedRow(c, s, r, tag)],
                     runners := s.runners[r := w.(phase := Executing(w.phase.sn))])
            && ViewsOf(MarkStep(c, s, r, tag)) == ViewsOf(s)[id := ViewsOf(s)[id].(job := MarkedRow(c, s, r, tag))]
  {
    var id := MarkingRunner(c, s, r);
    MarkStepIs(c, s, r, tag, id);
    MarkedViews(s, MarkStep(c, s, r, tag), id, MarkedRow(c, s, r, tag));
  }

  lemma MarkingRunner(c: Config, s: State, r: RunnerId) returns (id: JobId)
    requires Inv(c, s) && RunnerOf(s, r).phase.Marking?
    ensures r in s.runners && id == s.runners[r].phase.sn.id && id in s.jobs && MayMark(s.jobs, id, r)
  {
    id := s.runners[r].phase.sn.id;
    assert RunnerOk(c, r, s.runners[r], ViewsOf(s));
  }

  lemma MarkStepIs(c: Config, s: State, r: RunnerId, tag: string, id: JobId)
    requires r in s.runners && s.runners[r].phase.Marking? && s.runners[r].phase.sn.id == id && MayMark(s.jobs, id, r)
    ensures var w := s.runners[r];
            MarkStep(c, s, r, tag)
            == s.(jobs := s.jobs[id := MarkedRow(c, s, r, tag)],
                  runners := s.runners[r := w.(phase := Executing(w.phase.sn))])
  {
    assert s.jobs[id := s.jobs[id]] == s.jobs;
  }

  lemma MarkAgrees(c: Config, dedupe: Keys, jobs: Rows, runners: Runners, vs: Views,
                   r: RunnerId, tag: string, now: int)
    requires Agree(c, dedupe, jobs, runners, vs) && r in runners && runners[r].phase.Marking?
    ensures var w := runners[r]; var id := w.phase.sn.id;
            && id in jobs
            && var j := if c.markAwaited then MarkJob(jobs[id], tag, now) else jobs[id];
               Agree(c, dedupe, jobs[id := j], runners[r := w.(phase := Executing(w.phase.sn))],
                     vs[id := vs[id].(job := j)])
  {
    var w := runners[r];
    var id := w.phase.sn.id;
    assert RunnerOk(c, r, w, vs);
    MarkedOk(c, vs, r, w, tag, now);
    var j := if c.markAwaited then MarkJob(jobs[id], tag, now) else jobs[id];
    UpdateAgrees(c, dedupe, jobs, runners, vs, id, vs[id].(job := j), r, w.(phase := Executing(w.phase.sn)));
  }

  lemma MarkKeepsInv(c: Config, s: State, r: RunnerId, tag: string)
    requires Inv(c, s) && RunnerOf(s, r).phase.Marking?
    ensures Inv(c, MarkStep(c, s, r, tag))
  {
    MarkEffect(c, s, r, tag);
    MarkAgrees(c, s.dedupe, s.jobs, s.runners, ViewsOf(s), r, tag, s.clock);
  }

  lemma ExecuteAgrees(c: Config, dedupe: Keys, jobs: Rows, runners: Runners, vs: Views,
                      r: RunnerId)
    requires Agree(c, dedupe, jobs, runners, vs) && r in runners && runners[r].phase.Executing?
    ensures var w := runners[r]; var id := w.phase.sn.id;
            && id in jobs
            && Agree(c, dedupe, jobs, runners[r := w.(phase := Ready)],
                     vs[id := Pushed(vs[id], jobs[id], Executed(id, r))])
  {
    var w := runners[r];
    var id := w.phase.sn.id;
    assert RunnerOk(c, r, w, vs);
    ExecutedOk(c, vs, r, w);
    UpdateAgrees(c, dedupe, jobs, runners, vs, id, Pushed(vs[id], jobs[id], Executed(id, r)), r, w.(phase := Ready));
    assert jobs[id := jobs[id]] == jobs;
  }

  lemma ExecutedViews(s: State, r: RunnerId)
    requires KnownJobs(s) && RunnerOf(s, r).phase.Executing? && RunnerOf(s, r).phase.sn.id in s.jobs
    ensures var id := RunnerOf(s, r).phase.sn.id;
            && KnownJobs(ExecuteStep(s, r))
            && ViewsOf(ExecuteStep(s, r)) == ViewsOf(s)[id := Pushed(ViewsOf(s)[id], s.jobs[id], Executed(id, r))]
  {
    var id := RunnerOf(s, r).phase.sn.id;
    assert s.jobs[id := s.jobs[id]] == s.jobs;
    PushedEvent(s, ExecuteStep(s, r), s.jobs[id], Executed(id, r));
  }

  lemma ExecuteKeepsInv(c: Config, s: State, r: RunnerId)
    requires Inv(c, s) && RunnerOf(s, r).phase.Executing?
    ensures Inv(c, ExecuteStep(s, r))
  {
    ExecuteAgrees(c, s.dedupe, s.jobs, s.runners, ViewsOf(s), r);
    ExecutedViews(s, r);
  }

  function AttachedViews(c: Config, vs: Views, ids: set<JobId>, result: string): Views {
    map id | id in vs :: if id in ids then vs[id].(job := AttachResult(c.rule, vs[id].job, result)) else vs[id]
  }

  lemma AttachedOk(c: Config, id: JobId, v: View, result: string)
    requires JobOk(c, id, v) && (c.rule == Postgres ==> v.job.rollbackActionId.Some?)
    ensures JobOk(c, id, v.(job := AttachResult(c.rule, v.job, result)))
  {
  }

  lemma AttachKeepsViews(c: Config, vs: Views, ids: set<JobId>, result: string)
    requires ViewsOk(c, vs)
    requires forall id <- ids :: id in vs && (c.rule == Postgres ==> vs[id].job.rollbackActionId.Some?)
    ensures ViewsOk(c, AttachedViews(c, vs, ids, result))
  {
    forall id <- vs ensures JobOk(c, id, AttachedViews(c, vs, ids, result)[id]) {
      assert JobOk(c, id, vs[id]);
      if id in ids { AttachedOk(c, id, vs[id], result); }
    }
  }

  lemma AttachKeepsRunner(c: Config, vs: Views, ids: set<JobId>, result: string, r: RunnerId, w: Runner)
    requires RunnerOk(c, r, w, vs)
    ensures RunnerOk(c, r, w, AttachedViews(c, vs, ids, result))
  {
  }

  lemma AttachKeepsRunners(c: Config, vs: Views, ids: set<JobId>, result: string, runners: Runners)
    requires RunnersOk(c, runners, vs)
    ensures RunnersOk(c, runners, AttachedViews(c, vs, ids, result))
  {
    forall r <- runners ensures RunnerOk(c, r, runners[r], AttachedViews(c, vs, ids, result)) {
      AttachKeepsRunner(c, vs, ids, result, r, runners[r]);
    }
  }

  lemma AttachedRows(c: Config, jobs: Rows, vs: Views, ids: set<JobId>, result: string)
    requires vs.Keys == jobs.Keys && forall id <- jobs :: vs[id].job == jobs[id]
    ensures var jobs', vs' := AttachTo(c.rule, jobs, ids, result), AttachedViews(c, vs, ids, result);
            && jobs'.Keys == vs'.Keys == jobs.Keys
            && forall id <- jobs :: vs'[id].job == jobs'[id] && jobs'[id].spec == jobs[id].spec
  {
  }

  /** A result changes nothing that the rest of the protocol looks at. */
  lemma AttachAgrees(c: Config, dedupe: Keys, jobs: Rows, runners: Runners, vs: Views, ids: set<JobId>, result: string)
    requires Agree(c, dedupe, jobs, runners, vs)
    requires forall id <- ids :: id in jobs && (c.rule == Postgres ==> jobs[id].rollbackActionId.Some?)
    ensures Agree(c, dedupe, AttachTo(c.rule, jobs, ids, result), runners, AttachedViews(c, vs, ids, result))
  {
    AttachedRows(c, jobs, vs, ids, result);
    AttachKeepsViews(c, vs, ids, result);
    AttachKeepsRunners(c, vs, ids, result, runners);
    DedupeFrame(dedupe, jobs, AttachTo(c.rule, jobs, ids, result));
  }

  lemma AttachViews(c: Config, s: State, s': State, ids: set<JobId>, result: string)
    requires s'.jobs == AttachTo(c.rule, s.jobs, ids, result)
    requires s'.history == s.history && s'.outcomes == s.outcomes
    ensures ViewsOf(s') == AttachedViews(c, ViewsOf(s), ids, result)
  {
  }

  lemma AttachKeepsInv(c: Config, s: State, tag: Option<string>, result: string, ids: set<JobId>)
    requires Inv(c, s) && Addressed(c.rule, s.jobs, tag, ids)
    ensures Inv(c, Next(c, s, Attach(tag, result, ids)))
  {
    forall id <- ids ensures id in s.jobs && Matches(c.rule, s.jobs[id], tag) {
      assert id in MatchingIds(c.rule, s.jobs, tag);
    }
    AttachAgrees(c, s.dedupe, s.jobs, s.runners, ViewsOf(s), ids, result);
    AttachViews(c, s, Next(c, s, Attach(tag, result, ids)), ids, result);
  }

  lemma StepKeepsInv(c: Config, s: State, step: Step)
    requires Inv(c, s) && Enabled(c, s, step)
    ensures Inv(c, Next(c, s, step))
  {
    match step
    case Tick(_) => SameViews(s, Next(c, s, step));
    case Enqueue(spec, id) => EnqueueKeepsInv(c, s, spec, id);
    case Claim(r, now, order) => ClaimKeepsInv(c, s, r, now, order);
    case DeadLetter(r) =>
      FinishKeepsInv(c, s, r, Deadlettered, "DEADLETTERED", Some("max_attempts_exceeded"), Ready);
    case Judge(r, passed, reason) =>
      FinishKeepsInv(c, s, r, VerdictStatus(passed), VerdictEvent(passed), reason,
                     Recording(RunnerOf(s, r).todo[0], passed));
    case Record(r) => RecordKeepsInv(c, s, r);
    case Mark(r, tag) => MarkKeepsInv(c, s, r, tag);
    case Execute(r) => ExecuteKeepsInv(c, s, r);
    case Crash(r) => YieldKeepsInv(c, s, r, Runner([], Ready));
    case Attach(tag, result, ids) => AttachKeepsInv(c, s, tag, result, ids);
  }

  lemma {:induction false} RunKeepsInv(c: Config, s: State, steps: seq<Step>)
    requires Inv(c, s) && IsRun(c, s, steps)
    ensures Inv(c, After(c, s, steps))
    decreases |steps|
  {
    if steps != [] {
      StepKeepsInv(c, s, steps[0]);
      RunKeepsInv(c, Next(c, s, steps[0]), steps[1..]);
    }
  }

  lemma ReachableInv(c: Config, steps: seq<Step>)
    requires IsRun(c, Init(), steps)
    ensures Inv(c, After(c, Init(), steps))
  {
    RunKeepsInv(c, Init(), steps);
  }
}
