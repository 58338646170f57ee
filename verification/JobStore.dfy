/** _InMemoryJobStore of control_plane/verification_runner.py. */
module JobStore {
  import opened Prelude
  import opened Jobs

  /** The jobs a claim returns, in insertion order, as they stand after the claim. */
  function ClaimedList(order: seq<JobId>, jobs: map<JobId, Job>, runner: RunnerId, lease: int,
                       now: int): seq<(JobId, Job)>
    requires forall id <- order :: id in jobs
  {
    if order == [] then []
    else
      var id := order[|order| - 1];
      ClaimedList(order[..|order| - 1], jobs, runner, lease, now)
      + if Claimable(InMemory, jobs[id], now) then [(id, ClaimJob(jobs[id], runner, lease, now))] else []
  }

  function ClaimableAmong(ids: seq<JobId>, jobs: map<JobId, Job>, now: int): set<JobId> {
    set id | id in ids && id in jobs && Claimable(InMemory, jobs[id], now)
  }

  lemma AllAmong(order: seq<JobId>, jobs: map<JobId, Job>, now: int)
    requires ToSet(order) == jobs.Keys
    ensures ClaimableAmong(order, jobs, now) == ClaimableIds(InMemory, jobs, now)
  {
    assert forall id <- jobs :: id in ToSet(order);
  }

  lemma ClaimOneMore(ids: seq<JobId>, id: JobId, jobs: map<JobId, Job>, runner: RunnerId, lease: int, now: int)
    requires id in jobs && id !in ids
    ensures var before, after := ClaimableAmong(ids, jobs, now), ClaimableAmong(ids + [id], jobs, now);
            && ClaimAll(jobs, before, runner, lease, now)[id] == jobs[id]
            && ClaimAll(jobs, after, runner, lease, now)
               == if Claimable(InMemory, jobs[id], now)
                  then ClaimAll(jobs, before, runner, lease, now)[id := ClaimJob(jobs[id], runner, lease, now)]
                  else ClaimAll(jobs, before, runner, lease, now)
  {
  }

  /** Every job before position k fails the test, and the job there gets the result. */
  predicate AttachedAt(order: seq<JobId>, was: map<JobId, Job>, jobs: map<JobId, Job>, actionId: Option<string>,
                       result: string, k: int) {
    && 0 <= k < |order|
    && (forall m :: 0 <= m <= k ==> order[m] in was)
    && (forall m :: 0 <= m < k ==> was[order[m]].rollbackActionId != actionId)
    && was[order[k]].rollbackActionId == actionId
    && jobs == was[order[k] := was[order[k]].(rollbackResult := Some(was[order[k]].rollbackResult.GetOr(result)))]
  }

  /** The first job with this rollback action, if any. */
  function FirstOf(order: seq<JobId>, jobs: map<JobId, Job>, actionId: Option<string>): set<JobId> {
    if order == [] then {}
    else if order[0] in jobs && Matches(InMemory, jobs[order[0]], actionId) then {order[0]}
    else FirstOf(order[1..], jobs, actionId)
  }

  lemma {:induction false} FirstIsAddressed(order: seq<JobId>, jobs: map<JobId, Job>, actionId: Option<string>)
    ensures var first := FirstOf(order, jobs, actionId);
            && first <= MatchingIds(InMemory, jobs, actionId) && |first| <= 1
            && forall id <- order :: id in MatchingIds(InMemory, jobs, actionId) ==> first != {}
  {
    if order != [] && !(order[0] in jobs && Matches(InMemory, jobs[order[0]], actionId)) {
      FirstIsAddressed(order[1..], jobs, actionId);
    }
  }

  lemma FirstFrom(order: seq<JobId>, i: nat, jobs: map<JobId, Job>, actionId: Option<string>)
    requires i < |order| && order[i] in jobs
    ensures FirstOf(order[i..], jobs, actionId)
         == if jobs[order[i]].rollbackActionId == actionId then {order[i]} else FirstOf(order[i + 1..], jobs, actionId)
  {
    assert order[i..][0] == order[i] && order[i..][1..] == order[i + 1..];
  }

  lemma AttachToOne(jobs: map<JobId, Job>, id: JobId, result: string)
    requires id in jobs
    ensures AttachTo(InMemory, jobs, {id}, result) == jobs[id := AttachResult(InMemory, jobs[id], result)]
  {
  }

  lemma AttachToNone(jobs: map<JobId, Job>, result: string)
    ensures AttachTo(InMemory, jobs, {}, result) == jobs
  {
  }

  lemma FurtherBack(order: seq<JobId>, was: map<JobId, Job>, jobs: map<JobId, Job>, actionId: Option<string>,
                    result: string, k: int)
    requires order != [] && order[0] in was && was[order[0]].rollbackActionId != actionId
    requires AttachedAt(order[1..], was, jobs, actionId, result, k)
    ensures AttachedAt(order, was, jobs, actionId, result, k + 1)
  {
    forall m | 0 < m <= k + 1 ensures order[m] == order[1..][m - 1] {}
  }

  /** The result goes to the first job with that rollback action, which keeps an earlier result. */
  lemma {:induction false} ResultGoesToTheFirst(order: seq<JobId>, jobs: map<JobId, Job>, actionId: Option<string>,
                                                result: string) returns (k: nat)
    requires forall id <- order :: id in jobs
    ensures var jobs' := AttachTo(InMemory, jobs, FirstOf(order, jobs, actionId), result);
            if exists id <- order :: jobs[id].rollbackActionId == actionId
            then AttachedAt(order, jobs, jobs', actionId, result, k)
            else jobs' == jobs
  {
    k := 0;
    if order == [] {
      AttachToNone(jobs, result);
    } else if jobs[order[0]].rollbackActionId == actionId {
      AttachToOne(jobs, order[0], result);
    } else {
      var rest, jobs' := order[1..], AttachTo(InMemory, jobs, FirstOf(order, jobs, actionId), result);
      k := ResultGoesToTheFirst(rest, jobs, actionId, result);
      if id :| id in order && jobs[id].rollbackActionId == actionId {
        assert id in rest;
        FurtherBack(order, jobs, jobs', actionId, result, k);
        k := k + 1;
      }
    }
  }

  function WithStatus(jobs: map<JobId, Job>, status: Status): set<JobId> {
    set id | id in jobs && jobs[id].status == status
  }

  function PendingIds(jobs: map<JobId, Job>): set<JobId> {
    set id | id in jobs && Pending(jobs[id])
  }

  class InMemoryJobStore {
    var jobs: map<JobId, Job>
    var order: seq<JobId>
    var dedupe: map<string, JobId>
    var outcomes: seq<Outcome>

    /** `order` lists the jobs as a Python dict iterates them; keys and jobs correspond one to one. */
    ghost predicate Valid()
      reads this
    {
      Distinct(order) && ToSet(order) == jobs.Keys && DedupeOk(dedupe, jobs)
    }

    constructor ()
      ensures Valid() && jobs == map[] && order == [] && dedupe == map[] && outcomes == []
    {
      jobs, order, dedupe, outcomes := map[], [], map[], [];
    }

    /** Inserts a job under a fresh id, or returns the one already stored for its dedupe key. */
    method Enqueue(spec: JobSpec, freshId: JobId) returns (id: JobId, job: Job)
      requires Valid() && freshId !in jobs
      modifies this`jobs, this`order, this`dedupe
      ensures Valid()
      ensures id in jobs && jobs[id] == job && job.spec.dedupeKey == spec.dedupeKey
      ensures spec.dedupeKey !in old(dedupe) ==>
                && job.spec == spec && job.status == Queued && job.attempts == 0 && job.leaseOwner.None?
                && job.finalAt.None? && job.lastError.None? && job.rollbackAt.None? && job.rollbackResult.None?
      ensures if spec.dedupeKey in old(dedupe)
              then id == old(dedupe)[spec.dedupeKey] && jobs == old(jobs) && order == old(order)
                && dedupe == old(dedupe)
              else id == freshId && jobs == old(jobs)[freshId := NewJob(spec)] && order == old(order) + [freshId]
                   && dedupe == old(dedupe)[spec.dedupeKey := freshId]
    {
      if spec.dedupeKey in dedupe {
        id := dedupe[spec.dedupeKey];
      } else {
        id := freshId;
        jobs := jobs[id := NewJob(spec)];
        order := order + [id];
        dedupe := dedupe[spec.dedupeKey := id];
        assert ToSet(order) == ToSet(old(order)) + {id};
        assert forall x <- old(order) :: x in ToSet(old(order));
      }
      job := jobs[id];
    }

    /** The earliest deadline among pending jobs. */
    method NextDeadline() returns (d: Option<int>)
      requires Valid()
      ensures d.None? <==> PendingIds(jobs) == {}
      ensures d.Some? ==> exists id <- PendingIds(jobs) :: jobs[id].spec.deadline == d.value
      ensures d.Some? ==> forall id <- PendingIds(jobs) :: d.value <= jobs[id].spec.deadline
    {
      d := None;
      var i := 0;
      while i < |order|
        invariant 0 <= i <= |order|
        invariant d.None? ==> forall k :: 0 <= k < i && order[k] in jobs ==> !Pending(jobs[order[k]])
        invariant d.Some? ==> exists id <- PendingIds(jobs) :: jobs[id].spec.deadline == d.value
        invariant d.Some? ==> forall k :: 0 <= k < i && order[k] in jobs && Pending(jobs[order[k]]) ==>
                    d.value <= jobs[order[k]].spec.deadline
      {
        assert order[i] in ToSet(order);
        var j := jobs[order[i]];
        if Pending(j) && (d.None? || j.spec.deadline < d.value) {
          assert order[i] in PendingIds(jobs);
          d := Some(j.spec.deadline);
        }
        i := i + 1;
      }
      forall id <- PendingIds(jobs) ensures exists k :: 0 <= k < |order| && order[k] == id {
        assert id in ToSet(order);
      }
    }

    /** Leases every claimable job to the runner and returns copies of them. */
    method ClaimDue(runner: RunnerId, lease: int, now: int) returns (claimed: seq<(JobId, Job)>)
      requires Valid()
      modifies this`jobs
      ensures Valid()
      ensures jobs == ClaimAll(old(jobs), ClaimableIds(InMemory, old(jobs), now), runner, lease, now)
      ensures claimed == ClaimedList(order, old(jobs), runner, lease, now)
    {
      claimed := [];
      var i := 0;
      ghost var was, seen := jobs, order[..0];
      assert ClaimAll(was, {}, runner, lease, now) == was;
      while i < |order|
        invariant 0 <= i <= |order| && seen == order[..i]
        invariant jobs == ClaimAll(was, ClaimableAmong(seen, was, now), runner, lease, now)
        invariant claimed == ClaimedList(seen, was, runner, lease, now)
      {
        var id := order[i];
        assert id in ToSet(order) && id !in seen;
        ClaimOneMore(seen, id, was, runner, lease, now);
        var j := jobs[id];
        if Claimable(InMemory, j, now) {
          j := ClaimJob(j, runner, lease, now);
          jobs := jobs[id := j];
          claimed := claimed + [(id, j)];
        }
        seen := seen + [id];
        i := i + 1;
      }
      assert seen == order;
      AllAmong(order, was, now);
    }

    /** Sets the final outcome unless it is already set or the lease is another runner's. */
    method Finalize(id: JobId, runner: RunnerId, status: Status, event: string, error: Option<string>, now: int)
      returns (done: bool)
      requires Valid()
      modifies this`jobs
      ensures Valid()
      ensures done == MayFinalize(old(jobs), id, runner)
      ensures jobs == if done then old(jobs)[id := FinalizeJob(old(jobs)[id], status, event, error, now)] else old(jobs)
      ensures done <==> id in old(jobs) && old(jobs)[id].finalAt.None? && old(jobs)[id].leaseOwner == Some(runner)
      ensures done ==> jobs[id] == old(jobs)[id].(status := status, finalAt := Some(now), finalEvent := Some(event),
                                                  lastError := jobs[id].lastError)
      ensures done ==> jobs[id].lastError == if error in {None, Some("")} then old(jobs)[id].lastError else error
    {
      if id !in jobs {
        return false;
      }
      var j := jobs[id];
      if j.finalAt.Some? {
        return false;
      }
      if j.leaseOwner != Some(runner) {
        return false;
      }
      j := j.(status := status, finalAt := Some(now), finalEvent := Some(event));
      if error.Some? && error.value != "" {
        j := j.(lastError := error);
      }
      jobs := jobs[id := j];
      done := true;
    }

    method DeadLetter(id: JobId, runner: RunnerId, error: string, now: int) returns (done: bool)
      requires Valid()
      modifies this`jobs
      ensures Valid()
      ensures done == MayFinalize(old(jobs), id, runner)
      ensures jobs == if done
                      then old(jobs)[id := FinalizeJob(old(jobs)[id], Deadlettered, "DEADLETTERED", Some(error), now)]
                      else old(jobs)
    {
      done := Finalize(id, runner, Deadlettered, "DEADLETTERED", Some(error), now);
    }

    /** Marks a rollback unless one is marked or the lease is another runner's; the status is not looked at. */
    method MarkRollbackTriggered(id: JobId, runner: RunnerId, tag: string, now: int) returns (done: bool)
      requires Valid()
      modifies this`jobs
      ensures Valid()
      ensures done == MayMark(old(jobs), id, runner)
      ensures done <==> id in old(jobs) && old(jobs)[id].rollbackAt.None? && old(jobs)[id].leaseOwner == Some(runner)
      ensures jobs == if done then old(jobs)[id := MarkJob(old(jobs)[id], tag, now)] else old(jobs)
    {
      done := id in jobs && jobs[id].rollbackAt.None? && jobs[id].leaseOwner == Some(runner);
      if done {
        jobs := jobs[id := jobs[id].(rollbackAt := Some(now), rollbackActionId := Some(tag))];
      }
    }

    /** Attaches a result to the oldest job with this rollback action, keeping an earlier result. */
    method RecordRollbackResult(actionId: Option<string>, result: string) returns (done: bool)
      requires Valid()
      modifies this`jobs
      ensures Valid()
      ensures done == (FirstOf(order, old(jobs), actionId) != {})
      ensures jobs == AttachTo(InMemory, old(jobs), FirstOf(order, old(jobs), actionId), result)
    {
      ghost var was, first := jobs, FirstOf(order, jobs, actionId);
      assert forall id <- order :: id in ToSet(order);
      assert order[0..] == order;
      var i := 0;
      while i < |order|
        invariant 0 <= i <= |order|
        invariant jobs == was
        invariant first == FirstOf(order[i..], was, actionId)
      {
        var id := order[i];
        FirstFrom(order, i, was, actionId);
        if jobs[id].rollbackActionId == actionId {
          jobs := jobs[id := AttachResult(InMemory, jobs[id], result)];
          AttachToOne(was, id, result);
          return true;
        }
        i := i + 1;
      }
      AttachToNone(was, result);
      done := false;
    }

    method AppendOutcome(o: Outcome)
      modifies this`outcomes
      ensures outcomes == old(outcomes) + [o]
    {
      outcomes := outcomes + [o];
    }

    /** How many jobs are pending. */
    method PendingCount() returns (n: nat)
      requires Valid()
      ensures n == |PendingIds(jobs)|
    {
      n := 0;
      var i := 0;
      while i < |order|
        invariant 0 <= i <= |order| && n == |PendingAmong(order[..i], jobs)|
      {
        var id := order[i];
        assert id in ToSet(order);
        PendingOneMore(order[..i], id, jobs);
        assert order[..i + 1] == order[..i] + [id];
        if Pending(jobs[id]) {
          n := n + 1;
        }
        i := i + 1;
      }
      assert order[..|order|] == order;
      assert PendingAmong(order, jobs) == PendingIds(jobs) by {
        assert forall id <- jobs :: id in ToSet(order);
      }
    }
  }

  function PendingAmong(ids: seq<JobId>, jobs: map<JobId, Job>): set<JobId> {
    set id | id in ids && id in jobs && Pending(jobs[id])
  }

  lemma PendingOneMore(ids: seq<JobId>, id: JobId, jobs: map<JobId, Job>)
    requires id in jobs && id !in ids
    ensures |PendingAmong(ids + [id], jobs)| == |PendingAmong(ids, jobs)| + if Pending(jobs[id]) then 1 else 0
  {
    assert PendingAmong(ids + [id], jobs) == PendingAmong(ids, jobs) + if Pending(jobs[id]) then {id} else {};
  }

  // ---- the claim, the deadline and the counts agree --------------------------------------------

  /** A claim returns exactly the pending jobs that are due and not under a live lease, each once. */
  lemma {:induction false} ClaimReturnsTheClaimable(order: seq<JobId>, jobs: map<JobId, Job>, runner: RunnerId,
                                                    lease: int, now: int)
    requires Distinct(order) && forall id <- order :: id in jobs
    ensures var out := ClaimedList(order, jobs, runner, lease, now);
            && (forall i, k :: 0 <= i < k < |out| ==> out[i].0 != out[k].0)
            && (forall x <- out :: x.0 in order && Claimable(InMemory, jobs[x.0], now) &&
                                   x.1 == ClaimJob(jobs[x.0], runner, lease, now))
            && (forall id <- order :: Claimable(InMemory, jobs[id], now) ==>
                  (id, ClaimJob(jobs[id], runner, lease, now)) in out)
  {
    if order != [] {
      var front, last := order[..|order| - 1], order[|order| - 1];
      ClaimReturnsTheClaimable(front, jobs, runner, lease, now);
      assert order == front + [last];
      assert last !in front;
    }
  }

  /** Nothing is claimable before the earliest pending deadline. */
  lemma NothingBeforeNextDeadline(jobs: map<JobId, Job>, deadline: int, rule: ClaimRule, now: int)
    requires forall id <- PendingIds(jobs) :: deadline <= jobs[id].spec.deadline
    requires now < deadline
    ensures ClaimableIds(rule, jobs, now) == {}
  {
    assert ClaimableIds(rule, jobs, now) <= PendingIds(jobs);
  }
}
