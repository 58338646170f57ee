/**
 * Verification jobs and the guarded updates both job stores make to them.
 * Times are whole microseconds, as in the source's datetimes.
 */
module Jobs {
  import opened Prelude

  type JobId = string
  type RunnerId = string

  const DEFAULT_MAX_ATTEMPTS: int := 3

  datatype Status = Queued | Waiting | Passed | Failed | Expired | Cancelled | Deadlettered

  datatype VerifySpec = VerifySpec(metric: string, operator: string, threshold: real)

  /** What a job is enqueued with; nothing changes it afterwards. */
  datatype JobSpec = JobSpec(
    dedupeKey: string,
    actionId: string,
    deadline: int,
    baselineOffset: nat,
    baseline: Option<real>,
    verify: VerifySpec,
    rollbackType: Option<string>,
    maxAttempts: Option<int>)

  datatype Job = Job(
    spec: JobSpec,
    status: Status,
    attempts: nat,
    leaseOwner: Option<RunnerId>,
    leaseExpires: Option<int>,
    finalAt: Option<int>,
    finalEvent: Option<string>,
    lastError: Option<string>,
    rollbackAt: Option<int>,
    rollbackActionId: Option<string>,
    rollbackResult: Option<string>)

  datatype Outcome = Outcome(id: JobId, status: Status)

  /** Which store's claim rule is in force. */
  datatype ClaimRule = InMemory | Postgres

  function NewJob(spec: JobSpec): Job {
    Job(spec, Queued, 0, None, None, None, None, None, None, None, None)
  }

  predicate Pending(j: Job) {
    j.status == Queued || j.status == Waiting
  }

  predicate Terminal(status: Status) {
    status != Queued && status != Waiting
  }

  /** The attempt limit stored with a job. */
  function StoredLimit(j: Job): int {
    j.spec.maxAttempts.GetOr(DEFAULT_MAX_ATTEMPTS)
  }

  /** The lease shields the job at `now`: up to and not including its expiry in memory, inclusive in SQL. */
  predicate LiveLease(rule: ClaimRule, j: Job, now: int) {
    match rule
    case InMemory =>
      && j.leaseOwner.Some? && j.leaseOwner.value != ""
      && j.leaseExpires.Some? && j.leaseExpires.value > now
    case Postgres =>
      j.leaseExpires.Some? && j.leaseExpires.value >= now
  }

  predicate Claimable(rule: ClaimRule, j: Job, now: int) {
    && Pending(j)
    && j.spec.deadline <= now
    && !LiveLease(rule, j, now)
    && (rule == Postgres ==> j.attempts < StoredLimit(j))
  }

  function ClaimJob(j: Job, runner: RunnerId, lease: int, now: int): Job {
    j.(leaseOwner := Some(runner), leaseExpires := Some(now + lease),
       status := Waiting, attempts := j.attempts + 1)
  }

  function ClaimAll(jobs: map<JobId, Job>, ids: set<JobId>, runner: RunnerId, lease: int, now: int): map<JobId, Job> {
    map id | id in jobs :: if id in ids then ClaimJob(jobs[id], runner, lease, now) else jobs[id]
  }

  function ClaimableIds(rule: ClaimRule, jobs: map<JobId, Job>, now: int): set<JobId> {
    set id | id in jobs && Claimable(rule, jobs[id], now)
  }

  /** The exactly-once guard of finalize. */
  predicate MayFinalize(jobs: map<JobId, Job>, id: JobId, runner: RunnerId) {
    id in jobs && jobs[id].finalAt.None? && jobs[id].leaseOwner == Some(runner)
  }

  function FinalizeJob(j: Job, status: Status, event: string, error: Option<string>, now: int): Job {
    j.(status := status, finalAt := Some(now), finalEvent := Some(event),
       lastError := if error.Some? && error.value != "" then error else j.lastError)
  }

  /** The guard of mark_rollback_triggered. */
  predicate MayMark(jobs: map<JobId, Job>, id: JobId, runner: RunnerId) {
    id in jobs && jobs[id].rollbackAt.None? && jobs[id].leaseOwner == Some(runner)
  }

  function MarkJob(j: Job, tag: string, now: int): Job {
    j.(rollbackAt := Some(now), rollbackActionId := Some(tag))
  }

  /** A missing, empty or unknown rollback type means that there is nothing to roll back. */
  predicate RollsBack(j: Job, catalogue: set<string>) {
    j.spec.rollbackType.Some? && j.spec.rollbackType.value != "" && j.spec.rollbackType.value in catalogue
  }

  /** Rows an act result belongs to; a null id is that of every row without a rollback, except in SQL. */
  predicate Matches(rule: ClaimRule, j: Job, tag: Option<string>) {
    j.rollbackActionId == tag && (rule == Postgres ==> tag.Some?)
  }

  /** In memory the first result stays, SQL merges the newest one in. */
  function AttachResult(rule: ClaimRule, j: Job, result: string): Job {
    j.(rollbackResult := Some(if rule == InMemory then j.rollbackResult.GetOr(result) else result))
  }

  function AttachTo(rule: ClaimRule, jobs: map<JobId, Job>, ids: set<JobId>, result: string): map<JobId, Job> {
    map id | id in jobs :: if id in ids then AttachResult(rule, jobs[id], result) else jobs[id]
  }

  function MatchingIds(rule: ClaimRule, jobs: map<JobId, Job>, tag: Option<string>): set<JobId> {
    set id | id in jobs && Matches(rule, jobs[id], tag)
  }

  /** SQL updates every matching row, the in-memory store one of them. */
  predicate Addressed(rule: ClaimRule, jobs: map<JobId, Job>, tag: Option<string>, ids: set<JobId>) {
    var all := MatchingIds(rule, jobs, tag);
    if rule == Postgres then ids == all else ids <= all && |ids| <= 1 && (all != {} ==> ids != {})
  }

  /** Dedupe keys and jobs correspond one to one. */
  predicate DedupeOk(dedupe: map<string, JobId>, jobs: map<JobId, Job>) {
    && (forall k <- dedupe :: dedupe[k] in jobs && jobs[dedupe[k]].spec.dedupeKey == k)
    && (forall id <- jobs :: jobs[id].spec.dedupeKey in dedupe && dedupe[jobs[id].spec.dedupeKey] == id)
  }

  function VerdictStatus(passed: bool): Status {
    if passed then Passed else Failed
  }

  function VerdictEvent(passed: bool): string {
    if passed then "VERIFY_PASSED" else "VERIFY_FAILED"
  }

  /**
   * The claim rules differ in whether a pending job can be lost: in memory every pending
   * job can be claimed at some later time, in SQL only while attempts are left.
   */
  lemma ClaimableSometimeExactly(rule: ClaimRule, j: Job, from: int)
    ensures (exists now :: from <= now && Claimable(rule, j, now))
            <==> Pending(j) && (rule == InMemory || j.attempts < StoredLimit(j))
  {
    if Pending(j) && (rule == InMemory || j.attempts < StoredLimit(j)) {
      var now := Max(Max(from, j.spec.deadline), j.leaseExpires.GetOr(from) + 1);
      assert from <= now && Claimable(rule, j, now);
    }
  }

  lemma {:induction false} OneJobPerKey(dedupe: map<string, JobId>, jobs: map<JobId, Job>)
    requires DedupeOk(dedupe, jobs)
    ensures |dedupe| == |jobs|
    decreases |jobs|
  {
    if jobs != map[] {
      var id :| id in jobs;
      var k := jobs[id].spec.dedupeKey;
      OneJobPerKey(dedupe - {k}, jobs - {id});
      assert dedupe.Keys == (dedupe - {k}).Keys + {k};
      assert jobs.Keys == (jobs - {id}).Keys + {id};
    } else {
      assert dedupe == map[];
    }
  }
}
