/** Which pending jobs can still be finished: all of them in memory, and in SQL exactly those that are not lost. */
module ProtocolFate {
  import opened Prelude
  import opened Jobs
  import JobStore
  import opened Protocol
  import opened ProtocolSafety
  import opened ProtocolTheorems

  predicate Holds(todo: seq<Snapshot>, id: JobId) {
    exists i :: 0 <= i < |todo| && todo[i].id == id
  }

  /** The runner that leased the job still has its copy on its list. */
  predicate HeldByOwner(s: State, id: JobId)
    requires id in s.jobs
  {
    s.jobs[id].leaseOwner.Some? && Holds(RunnerOf(s, s.jobs[id].leaseOwner.value).todo, id)
  }

  /** Attempts used up, and nobody left who may finish the job; copies at other runners do not count. */
  predicate Lost(c: Config, s: State, id: JobId) {
    && c.rule == Postgres && id in s.jobs && Pending(s.jobs[id])
    && s.jobs[id].attempts >= StoredLimit(s.jobs[id]) && !HeldByOwner(s, id)
  }

  // ---- a lost job stays lost ------------------------------------------------------------------

  /** A runner about to mark works on a finalised job. */
  lemma MarkingIsFinal(c: Config, s: State, r: RunnerId)
    requires Inv(c, s) && RunnerOf(s, r).phase.Marking?
    ensures var id := RunnerOf(s, r).phase.sn.id; id in s.jobs && s.jobs[id].finalAt.Some?
  {
    RunnerIsOk(c, s, r);
  }

  lemma PendingIsOpen(c: Config, s: State, id: JobId)
    requires Inv(c, s) && id in s.jobs && Pending(s.jobs[id])
    ensures s.jobs[id].finalAt.None? && s.jobs[id].rollbackActionId.None?
  {
    assert JobOk(c, id, ViewsOf(s)[id]);
  }

  lemma LostIsUnwritten(c: Config, s: State, step: Step, id: JobId)
    requires Enabled(c, s, step) && Lost(c, s, id) && s.jobs[id].finalAt.None? && s.jobs[id].rollbackActionId.None?
    requires step.Mark? ==> var done := RunnerOf(s, step.r).phase.sn.id; done in s.jobs && s.jobs[done].finalAt.Some?
    ensures !Writes(s, step, id)
  {
    if step.Claim? { assert id !in ClaimableIds(c.rule, s.jobs, step.now); }
    if step.Attach? { assert id !in MatchingIds(c.rule, s.jobs, step.actionId); }
  }

  lemma StaysUnheld(c: Config, s: State, step: Step, id: JobId, r: RunnerId)
    requires Enabled(c, s, step) && !Holds(RunnerOf(s, r).todo, id) && (step.Claim? ==> id !in ToSet(step.order))
    ensures !Holds(RunnerOf(Next(c, s, step), r).todo, id)
  {
    TodoComesFromClaims(c, s, step, r);
    var todo, todo' := RunnerOf(s, r).todo, RunnerOf(Next(c, s, step), r).todo;
    forall i | 0 <= i < |todo'| ensures todo'[i].id != id {
      if step.Claim? && step.r == r {
        assert step.order[i] in ToSet(step.order);
      } else if todo' != todo {
        assert todo'[i] == todo[i + 1];
      }
    }
  }

  lemma LostStep(c: Config, s: State, step: Step, id: JobId)
    requires Inv(c, s) && Enabled(c, s, step) && Lost(c, s, id)
    ensures Lost(c, Next(c, s, step), id) && Next(c, s, step).jobs[id] == s.jobs[id]
  {
    PendingIsOpen(c, s, id);
    if step.Mark? { MarkingIsFinal(c, s, step.r); }
    LostIsUnwritten(c, s, step, id);
    UnwrittenJob(c, s, step, id);
    if s.jobs[id].leaseOwner.Some? { StaysUnheld(c, s, step, id, s.jobs[id].leaseOwner.value); }
  }

  /** A lost job keeps its row in every continuation: it is never claimed, finalised or dead-lettered. */
  lemma {:induction false} LostForever(c: Config, s: State, more: seq<Step>, id: JobId)
    requires Inv(c, s) && IsRun(c, s, more) && Lost(c, s, id)
    ensures Lost(c, After(c, s, more), id) && After(c, s, more).jobs[id] == s.jobs[id]
    decreases |more|
  {
    if more != [] {
      LostStep(c, s, more[0], id);
      StepKeepsInv(c, s, more[0]);
      LostForever(c, Next(c, s, more[0]), more[1..], id);
    }
  }

  /**
   * So a lost job keeps the next deadline at or before its own for ever, although no claim will
   * ever return it.
   */
  lemma LostHoldsTheDeadline(c: Config, s: State, more: seq<Step>, id: JobId, deadline: int, now: int)
    requires Inv(c, s) && IsRun(c, s, more) && Lost(c, s, id)
    requires var jobs := After(c, s, more).jobs;
             forall x <- JobStore.PendingIds(jobs) :: deadline <= jobs[x].spec.deadline
    ensures deadline <= s.jobs[id].spec.deadline
    ensures id !in ClaimableIds(c.rule, After(c, s, more).jobs, now)
  {
    LostForever(c, s, more, id);
    assert id in JobStore.PendingIds(After(c, s, more).jobs);
  }

  // ---- any other pending job can be finished -----------------------------------------------------

  /** What a runner does next, passing every job it can. */
  function NextMove(c: Config, s: State, r: RunnerId): Step {
    match RunnerOf(s, r).phase
    case Recording(_, _) => Record(r)
    case Marking(_) => Mark(r, "rollback")
    case Executing(_) => Execute(r)
    case Ready =>
      var todo := RunnerOf(s, r).todo;
      if todo != [] && todo[0].job.attempts > LimitOf(c, todo[0].job, r) then DeadLetter(r) else Judge(r, true, None)
  }

  function Rank(phase: Phase): nat {
    match phase
    case Recording(_, _) => 3
    case Marking(_) => 2
    case Executing(_) => 1
    case Ready => 0
  }

  /** The runner comes one step closer to the job at position i of its list, or finishes it. */
  lemma MoveEffect(c: Config, s: State, r: RunnerId, id: JobId, i: nat)
    requires r in s.runners && Listed(s, r, id, i)
    requires forall k :: 0 <= k < i ==> s.runners[r].todo[k].id != id
    requires s.runners[r].phase.Marking? ==> s.runners[r].phase.sn.id != id
    ensures var w := s.runners[r];
            && Enabled(c, s, NextMove(c, s, r))
            && var s' := Next(c, s, NextMove(c, s, r));
            && id in s'.jobs && r in s'.runners
            && if w.phase == Ready && i == 0 then Terminal(s'.jobs[id].status)
               else && s'.jobs[id] == s.jobs[id]
                    && if w.phase == Ready then s'.runners[r].todo == w.todo[1..]
                       else s'.runners[r].todo == w.todo && Rank(s'.runners[r].phase) < Rank(w.phase)
  {
  }

  lemma NothingBefore(c: Config, s: State, r: RunnerId, id: JobId, i: nat)
    requires Inv(c, s) && Listed(s, r, id, i)
    ensures r in s.runners
    ensures forall k :: 0 <= k < i ==> s.runners[r].todo[k].id != id
    ensures s.runners[r].phase.Marking? ==> s.runners[r].phase.sn.id != id
  {
    RunnerIsOk(c, s, r);
  }

  /** The job is at position i of the list of the runner that leased it. */
  predicate Listed(s: State, r: RunnerId, id: JobId, i: nat) {
    && id in s.jobs && s.jobs[id].finalAt.None? && s.jobs[id].leaseOwner == Some(r)
    && i < |RunnerOf(s, r).todo| && RunnerOf(s, r).todo[i].id == id
  }

  lemma Advance(c: Config, s: State, r: RunnerId, id: JobId, i: nat) returns (step: Step, i': nat, done: bool)
    requires Inv(c, s) && Listed(s, r, id, i)
    ensures Enabled(c, s, step) && Inv(c, Next(c, s, step))
    ensures done ==> Ends(c, Next(c, s, step), [], id)
    ensures !done ==> Listed(Next(c, s, step), r, id, i')
    ensures !done ==> i' < i || (i' == i && Rank(RunnerOf(Next(c, s, step), r).phase) < Rank(RunnerOf(s, r).phase))
  {
    NothingBefore(c, s, r, id, i);
    MoveEffect(c, s, r, id, i);
    step := NextMove(c, s, r);
    StepKeepsInv(c, s, step);
    var ready := s.runners[r].phase == Ready;
    done := ready && i == 0;
    i' := if ready && i > 0 then i - 1 else i;
  }

  /** A runner with the job on its list, leased to it, can work its way through to it. */
  lemma {:induction false} WorkThrough(c: Config, s: State, r: RunnerId, id: JobId, i: nat) returns (steps: seq<Step>)
    requires Inv(c, s) && Listed(s, r, id, i)
    ensures IsRun(c, s, steps) && Ends(c, s, steps, id)
    decreases i, Rank(RunnerOf(s, r).phase)
  {
    var step, i', done := Advance(c, s, r, id, i);
    var rest: seq<Step> := [];
    if !done { rest := WorkThrough(c, Next(c, s, step), r, id, i'); }
    steps := [step] + rest;
    Prefixed(c, s, step, rest, id);
  }

  predicate Ends(c: Config, s: State, steps: seq<Step>, id: JobId)
    requires IsRun(c, s, steps)
  {
    id in After(c, s, steps).jobs && Terminal(After(c, s, steps).jobs[id].status)
  }

  lemma Prefixed(c: Config, s: State, step: Step, rest: seq<Step>, id: JobId)
    requires Enabled(c, s, step) && IsRun(c, Next(c, s, step), rest)
    ensures IsRun(c, s, [step] + rest)
    ensures After(c, s, [step] + rest) == After(c, Next(c, s, step), rest)
    ensures Ends(c, s, [step] + rest, id) <==> Ends(c, Next(c, s, step), rest, id)
  {
    assert ([step] + rest)[1..] == rest;
  }

  lemma {:induction false} Enumerate<T>(xs: set<T>) returns (order: seq<T>)
    ensures Distinct(order) && ToSet(order) == xs
  {
    if xs == {} {
      order := [];
    } else {
      var x :| x in xs;
      var rest := Enumerate(xs - {x});
      order := rest + [x];
      assert x !in ToSet(rest);
      assert ToSet(order) == ToSet(rest) + {x};
    }
  }

  /** A restarted runner can claim it, once it is due and the lease is over. */
  lemma ClaimAndWork(c: Config, s: State, id: JobId, r: RunnerId) returns (steps: seq<Step>)
    requires Inv(c, s) && id in s.jobs && Pending(s.jobs[id]) && r != ""
    requires c.rule == InMemory || s.jobs[id].attempts < StoredLimit(s.jobs[id])
    ensures IsRun(c, s, steps) && Ends(c, s, steps, id)
  {
    ClaimableSometimeExactly(c.rule, s.jobs[id], s.clock);
    var now :| s.clock <= now && Claimable(c.rule, s.jobs[id], now);
    var s1 := Next(c, s, Crash(r));
    var s2 := Next(c, s1, Tick(now));
    StepKeepsInv(c, s, Crash(r));
    StepKeepsInv(c, s1, Tick(now));
    var order := Enumerate(ClaimableIds(c.rule, s2.jobs, now));
    var s3 := Next(c, s2, Claim(r, now, order));
    StepKeepsInv(c, s2, Claim(r, now, order));
    PendingIsOpen(c, s3, id);
    assert id in ToSet(order);
    var i :| 0 <= i < |order| && order[i] == id;
    var rest := WorkThrough(c, s3, r, id, i);
    Prefixed(c, s2, Claim(r, now, order), rest, id);
    Prefixed(c, s1, Tick(now), [Claim(r, now, order)] + rest, id);
    Prefixed(c, s, Crash(r), [Tick(now)] + ([Claim(r, now, order)] + rest), id);
    steps := [Crash(r)] + ([Tick(now)] + ([Claim(r, now, order)] + rest));
  }

  ghost predicate CanEnd(c: Config, s: State, id: JobId) {
    exists more :: IsRun(c, s, more) && Ends(c, s, more, id)
  }

  /** A pending job can still reach a terminal state if and only if it is not lost. */
  lemma FinishableExactly(c: Config, steps: seq<Step>, id: JobId)
    requires IsRun(c, Init(), steps) && id in Reached(c, steps).jobs && Pending(Reached(c, steps).jobs[id])
    ensures CanEnd(c, Reached(c, steps), id) <==> !Lost(c, Reached(c, steps), id)
  {
    var s := Reached(c, steps);
    ReachableInv(c, steps);
    PendingIsOpen(c, s, id);
    if Lost(c, s, id) {
      forall more | IsRun(c, s, more) ensures !Ends(c, s, more, id) {
        LostForever(c, s, more, id);
      }
    } else if HeldByOwner(s, id) {
      var r := s.jobs[id].leaseOwner.value;
      var i :| 0 <= i < |RunnerOf(s, r).todo| && RunnerOf(s, r).todo[i].id == id;
      var more := WorkThrough(c, s, r, id, i);
    } else {
      var more := ClaimAndWork(c, s, id, "any");
    }
  }

  // ---- losing a job ------------------------------------------------------------------------------------

  /** Two claims of a job with two attempts, the second by a runner that crashes. */
  function LosingRun(spec: JobSpec, first: RunnerId, second: RunnerId, id: JobId, later: int): seq<Step> {
    [Enqueue(spec, id)] + ([Claim(first, 0, [id])] + ([Tick(later)] + ([Claim(second, later, [id])] + [Crash(second)])))
  }

  /** A claim of the only job. */
  lemma ClaimOnly(c: Config, s: State, r: RunnerId, id: JobId, j: Job)
    requires s.jobs == map[id := j] && Claimable(c.rule, j, s.clock) && r != "" && RunnerOf(s, r) == Runner([], Ready)
    ensures Enabled(c, s, Claim(r, s.clock, [id]))
    ensures var s' := Next(c, s, Claim(r, s.clock, [id])); var j' := ClaimJob(j, r, c.lease(r), s.clock);
            && s'.jobs == map[id := j'] && s'.clock == s.clock
            && s'.runners == s.runners[r := Runner([Snapshot(id, j')], Ready)]
  {
    assert ToSet([id]) == {id} == ClaimableIds(c.rule, s.jobs, s.clock);
    var j' := ClaimJob(j, r, c.lease(r), s.clock);
    assert ClaimAll(s.jobs, {id}, r, c.lease(r), s.clock) == map[id := j'];
    assert Snapshots([id], map[id := j']) == [Snapshot(id, j')];
  }

  /** A job is lost although another runner still holds a copy of it. */
  lemma LostIsReachable(c: Config, spec: JobSpec, first: RunnerId, second: RunnerId, id: JobId)
    requires c.rule == Postgres && first != "" && second != "" && first != second && c.lease(first) >= 0
    requires spec.maxAttempts == Some(2) && spec.deadline <= 0
    ensures var steps := LosingRun(spec, first, second, id, c.lease(first) + 1);
            && IsRun(c, Init(), steps)
            && Lost(c, Reached(c, steps), id) && Holds(RunnerOf(Reached(c, steps), first).todo, id)
  {
    var later := c.lease(first) + 1;
    var s1 := Next(c, Init(), Enqueue(spec, id));
    ClaimOnly(c, s1, first, id, NewJob(spec));
    var s2 := Next(c, s1, Claim(first, 0, [id]));
    var j := ClaimJob(NewJob(spec), first, c.lease(first), 0);
    SecondClaimLoses(c, s2, spec, first, second, id, j, later);
    var rest := [Tick(later)] + ([Claim(second, later, [id])] + [Crash(second)]);
    Prefixed(c, s1, Claim(first, 0, [id]), rest, id);
    Prefixed(c, Init(), Enqueue(spec, id), [Claim(first, 0, [id])] + rest, id);
  }

  lemma SecondClaimLoses(c: Config, s: State, spec: JobSpec, first: RunnerId, second: RunnerId, id: JobId, j: Job,
                         later: int)
    requires c.rule == Postgres && second != "" && first != second && s.clock <= later
    requires s.jobs == map[id := j] && s.runners == map[first := Runner([Snapshot(id, j)], Ready)]
    requires Claimable(c.rule, j, later) && j.attempts + 1 == StoredLimit(j)
    ensures var steps := [Tick(later)] + ([Claim(second, later, [id])] + [Crash(second)]);
            && IsRun(c, s, steps)
            && Lost(c, After(c, s, steps), id) && Holds(RunnerOf(After(c, s, steps), first).todo, id)
  {
    var s3 := Next(c, s, Tick(later));
    ClaimOnly(c, s3, second, id, j);
    var s4 := Next(c, s3, Claim(second, later, [id]));
    var s5 := Next(c, s4, Crash(second));
    assert RunnerOf(s5, first).todo[0].id == id;
    assert [Crash(second)] == [Crash(second)] + [];
    Prefixed(c, s4, Crash(second), [], id);
    Prefixed(c, s3, Claim(second, later, [id]), [Crash(second)], id);
    Prefixed(c, s, Tick(later), [Claim(second, later, [id])] + [Crash(second)], id);
  }
}
