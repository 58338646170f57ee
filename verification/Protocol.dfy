/**
 * The job protocol as a transition system: any number of runners interleave their
 * atomic store calls, may crash between any two of them and restart, and judge jobs
 * with either verdict. A run is any list of enabled steps.
 */
module Protocol {
  import opened Prelude
  import opened Jobs

  /** The copy of a job row that a claim hands to its runner. */
  datatype Snapshot = Snapshot(id: JobId, job: Job)

  /** Where a runner stands between two store calls for the job it is working on. */
  datatype Phase =
    | Ready
    | Recording(sn: Snapshot, passed: bool)
    | Marking(sn: Snapshot)
    | Executing(sn: Snapshot)

  datatype Runner = Runner(todo: seq<Snapshot>, phase: Phase)

  /** What an observer of the whole system sees happen, in order. */
  datatype Event =
    | Claimed(id: JobId, runner: RunnerId, at: int, lease: int)
    | Finalized(id: JobId, runner: RunnerId, status: Status)
    | Executed(id: JobId, runner: RunnerId)

  datatype Kind = ClaimKind | FinalKind | ExecKind

  /**
   * `markAwaited` says whether the runner really runs mark_rollback_triggered: true in memory;
   * the SQL runner calls the coroutine without awaiting it, so there the call does nothing and
   * its result, a coroutine object, counts as success.
   */
  datatype Config = Config(
    rule: ClaimRule,
    lease: RunnerId -> int,
    limit: RunnerId -> int,
    catalogue: set<string>,
    markAwaited: bool)

  datatype State = State(
    clock: int,
    jobs: map<JobId, Job>,
    dedupe: map<string, JobId>,
    runners: map<RunnerId, Runner>,
    outcomes: seq<Outcome>,
    history: seq<Event>)

  datatype Step =
    | Tick(to: int)
    | Enqueue(spec: JobSpec, id: JobId)
    | Claim(r: RunnerId, now: int, order: seq<JobId>)
    | DeadLetter(r: RunnerId)
    | Judge(r: RunnerId, passed: bool, reason: Option<string>)
    | Record(r: RunnerId)
    | Mark(r: RunnerId, tag: string)
    | Execute(r: RunnerId)
    | Crash(r: RunnerId)
    | Attach(actionId: Option<string>, result: string, ids: set<JobId>)

  function Init(): State {
    State(0, map[], map[], map[], [], [])
  }

  /** A runner nobody has heard of yet is at rest. */
  function RunnerIn(runners: map<RunnerId, Runner>, r: RunnerId): Runner {
    if r in runners then runners[r] else Runner([], Ready)
  }

  function RunnerOf(s: State, r: RunnerId): Runner {
    RunnerIn(s.runners, r)
  }

  /** In memory the job's own limit wins; the SQL runner compares with its own limit. */
  function LimitOf(c: Config, j: Job, r: RunnerId): int {
    match c.rule
    case InMemory => j.spec.maxAttempts.GetOr(c.limit(r))
    case Postgres => c.limit(r)
  }

  // ---- steps ----------------------------------------------------------------

  predicate AtHead(c: Config, s: State, r: RunnerId, overLimit: bool) {
    var w := RunnerOf(s, r);
    && w.phase == Ready && w.todo != []
    && (w.todo[0].job.attempts > LimitOf(c, w.todo[0].job, r) <==> overLimit)
  }

  predicate Enabled(c: Config, s: State, step: Step) {
    match step
    case Tick(to) => s.clock <= to
    case Enqueue(_, id) => id !in s.jobs
    case Claim(r, now, order) =>
      && r != "" && now <= s.clock
      && RunnerOf(s, r) == Runner([], Ready)
      && Distinct(order)
      && ToSet(order) <= ClaimableIds(c.rule, s.jobs, now)
         // SQL skips rows another transaction has locked
      && (c.rule == InMemory ==> ToSet(order) == ClaimableIds(c.rule, s.jobs, now))
    case DeadLetter(r) => AtHead(c, s, r, true)
    case Judge(r, _, _) => AtHead(c, s, r, false)
    case Record(r) => RunnerOf(s, r).phase.Recording?
    case Mark(r, _) => RunnerOf(s, r).phase.Marking?
    case Execute(r) => RunnerOf(s, r).phase.Executing?
    case Crash(_) => true
    case Attach(tag, _, ids) => Addressed(c.rule, s.jobs, tag, ids)
  }

  function Snapshots(order: seq<JobId>, jobs: map<JobId, Job>): seq<Snapshot>
    requires forall id <- order :: id in jobs
  {
    seq(|order|, i requires 0 <= i < |order| => Snapshot(order[i], jobs[order[i]]))
  }

  function ClaimEvents(order: seq<JobId>, r: RunnerId, now: int, lease: int): seq<Event> {
    seq(|order|, i requires 0 <= i < |order| => Claimed(order[i], r, now, lease))
  }

  function Finish(s: State, r: RunnerId, status: Status, event: string, error: Option<string>, next: Phase): State
    requires RunnerOf(s, r).todo != []
  {
    var w := RunnerOf(s, r);
    var id := w.todo[0].id;
    if MayFinalize(s.jobs, id, r) then
      s.(jobs := s.jobs[id := FinalizeJob(s.jobs[id], status, event, error, s.clock)],
         runners := s.runners[r := Runner(w.todo[1..], next)],
         history := s.history + [Finalized(id, r, status)])
    else
      s.(runners := s.runners[r := Runner(w.todo[1..], Ready)])
  }

  function EnqueueStep(s: State, spec: JobSpec, id: JobId): State {
    if spec.dedupeKey in s.dedupe then s
    else s.(jobs := s.jobs[id := NewJob(spec)], dedupe := s.dedupe[spec.dedupeKey := id])
  }

  function ClaimStep(s: State, r: RunnerId, lease: int, now: int, order: seq<JobId>): State
    requires ToSet(order) <= s.jobs.Keys
  {
    var jobs := ClaimAll(s.jobs, ToSet(order), r, lease, now);
    assert forall id <- order :: id in ToSet(order);
    s.(jobs := jobs,
       runners := s.runners[r := Runner(Snapshots(order, jobs), Ready)],
       history := s.history + ClaimEvents(order, r, now, lease))
  }

  function RecordStep(c: Config, s: State, r: RunnerId): State
    requires RunnerOf(s, r).phase.Recording?
  {
    var w := RunnerOf(s, r);
    var sn := w.phase.sn;
    var next := if !w.phase.passed && RollsBack(sn.job, c.catalogue) then Marking(sn) else Ready;
    s.(outcomes := s.outcomes + [Outcome(sn.id, VerdictStatus(w.phase.passed))],
       runners := s.runners[r := w.(phase := next)])
  }

  function MarkStep(c: Config, s: State, r: RunnerId, tag: string): State
    requires RunnerOf(s, r).phase.Marking?
  {
    var w := RunnerOf(s, r);
    var sn := w.phase.sn;
    if !c.markAwaited then
      s.(runners := s.runners[r := w.(phase := Executing(sn))])
    else if MayMark(s.jobs, sn.id, r) then
      s.(jobs := s.jobs[sn.id := MarkJob(s.jobs[sn.id], tag, s.clock)],
         runners := s.runners[r := w.(phase := Executing(sn))])
    else
      s.(runners := s.runners[r := w.(phase := Ready)])
  }

  function ExecuteStep(s: State, r: RunnerId): State
    requires RunnerOf(s, r).phase.Executing?
  {
    var w := RunnerOf(s, r);
    s.(runners := s.runners[r := w.(phase := Ready)],
       history := s.history + [Executed(w.phase.sn.id, r)])
  }

  function Next(c: Config, s: State, step: Step): State
    requires Enabled(c, s, step)
  {
    match step
    case Tick(to) => s.(clock := to)
    case Enqueue(spec, id) => EnqueueStep(s, spec, id)
    case Claim(r, now, order) => ClaimStep(s, r, c.lease(r), now, order)
    case DeadLetter(r) => Finish(s, r, Deadlettered, "DEADLETTERED", Some("max_attempts_exceeded"), Ready)
    case Judge(r, passed, reason) =>
      Finish(s, r, VerdictStatus(passed), VerdictEvent(passed), reason, Recording(RunnerOf(s, r).todo[0], passed))
    case Record(r) => RecordStep(c, s, r)
    case Mark(r, tag) => MarkStep(c, s, r, tag)
    case Execute(r) => ExecuteStep(s, r)
    case Crash(r) => s.(runners := s.runners[r := Runner([], Ready)])
    case Attach(_, result, ids) => s.(jobs := AttachTo(c.rule, s.jobs, ids, result))
  }

  predicate IsRun(c: Config, s: State, steps: seq<Step>)
    decreases |steps|
  {
    steps == [] || (Enabled(c, s, steps[0]) && IsRun(c, Next(c, s, steps[0]), steps[1..]))
  }

  function After(c: Config, s: State, steps: seq<Step>): State
    requires IsRun(c, s, steps)
    decreases |steps|
  {
    if steps == [] then s else After(c, Next(c, s, steps[0]), steps[1..])
  }

  /** The step writes this job's row. */
  predicate Writes(s: State, step: Step, id: JobId) {
    match step
    case Claim(_, _, order) => id in ToSet(order)
    case DeadLetter(r) => RunnerOf(s, r).todo != [] && RunnerOf(s, r).todo[0].id == id && MayFinalize(s.jobs, id, r)
    case Judge(r, _, _) => RunnerOf(s, r).todo != [] && RunnerOf(s, r).todo[0].id == id && MayFinalize(s.jobs, id, r)
    case Mark(r, _) => RunnerOf(s, r).phase.Marking? && RunnerOf(s, r).phase.sn.id == id && MayMark(s.jobs, id, r)
    case Attach(_, _, ids) => id in ids
    case _ => false
  }

  lemma UnwrittenJob(c: Config, s: State, step: Step, id: JobId)
    requires Enabled(c, s, step) && id in s.jobs
    ensures id in Next(c, s, step).jobs
    ensures !Writes(s, step, id) ==> Next(c, s, step).jobs[id] == s.jobs[id]
  {
  }

  lemma TodoComesFromClaims(c: Config, s: State, step: Step, r: RunnerId)
    requires Enabled(c, s, step)
    ensures var todo, todo' := RunnerOf(s, r).todo, RunnerOf(Next(c, s, step), r).todo;
            if step.Claim? && step.r == r
            then |todo'| == |step.order| && forall i :: 0 <= i < |todo'| ==> todo'[i].id == step.order[i]
            else todo' == [] || todo' == todo || (todo != [] && todo' == todo[1..])
  {
  }

  // ---- what the history says about one job -----------------------------------

  function KindOf(e: Event): Kind {
    match e
    case Claimed(_, _, _, _) => ClaimKind
    case Finalized(_, _, _) => FinalKind
    case Executed(_, _) => ExecKind
  }

  /** The events of one kind about one job, oldest first. */
  function Of(h: seq<Event>, k: Kind, id: JobId): seq<Event> {
    if h == [] then []
    else
      var e := h[|h| - 1];
      Of(h[..|h| - 1], k, id) + if KindOf(e) == k && e.id == id then [e] else []
  }

  /** The ledger entries about one job. */
  function Ledger(o: seq<Outcome>, id: JobId): seq<Outcome> {
    if o == [] then []
    else Ledger(o[..|o| - 1], id) + if o[|o| - 1].id == id then [o[|o| - 1]] else []
  }

  lemma OfPush(h: seq<Event>, e: Event, k: Kind, id: JobId)
    ensures Of(h + [e], k, id) == Of(h, k, id) + if KindOf(e) == k && e.id == id then [e] else []
  {
    assert (h + [e])[..|h|] == h;
  }

  lemma LedgerPush(o: seq<Outcome>, x: Outcome, id: JobId)
    ensures Ledger(o + [x], id) == Ledger(o, id) + if x.id == id then [x] else []
  {
    assert (o + [x])[..|o|] == o;
  }

  lemma {:induction false} OfNothing(h: seq<Event>, k: Kind, id: JobId)
    requires forall e <- h :: e.id != id
    ensures Of(h, k, id) == []
  {
    if h != [] { OfNothing(h[..|h| - 1], k, id); }
  }

  lemma {:induction false} LedgerNothing(o: seq<Outcome>, id: JobId)
    requires forall x <- o :: x.id != id
    ensures Ledger(o, id) == []
  {
    if o != [] { LedgerNothing(o[..|o| - 1], id); }
  }

  /** A claim adds exactly one event for each claimed job. */
  lemma {:induction false} OfClaimEvents(h: seq<Event>, order: seq<JobId>, r: RunnerId, now: int, lease: int,
                                         k: Kind, id: JobId)
    requires Distinct(order)
    ensures Of(h + ClaimEvents(order, r, now, lease), k, id)
         == Of(h, k, id) + if k == ClaimKind && id in order then [Claimed(id, r, now, lease)] else []
  {
    var g := ClaimEvents(order, r, now, lease);
    if order == [] {
      assert h + g == h;
    } else {
      var front := order[..|order| - 1];
      var g' := ClaimEvents(front, r, now, lease);
      assert g == g' + [g[|g| - 1]];
      assert h + g == (h + g') + [g[|g| - 1]];
      OfClaimEvents(h, front, r, now, lease, k, id);
      OfPush(h + g', g[|g| - 1], k, id);
      assert order == front + [order[|order| - 1]];
    }
  }
}
