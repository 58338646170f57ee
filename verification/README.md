# Verification of the NEXUSMON control plane

This project models the parts of NEXUSMON whose correctness rests on state, time and order, and
proves what their code and documentation promise. The model follows the code, branch by branch;
where the code and its documentation differ, the model follows the code and this file says so.

| files | part of the system |
|---|---|
| `Jobs`, `JobStore` | verification jobs, the in-memory job store, and the two claim rules (in memory and SQL) |
| `Protocol`, `ProtocolSafety`, `ProtocolTheorems`, `ProtocolProgress`, `ProtocolFate` | any number of runners interleaving atomic store calls, with crashes and restarts between any two of them, and a clock |
| `StateLog`, `StateStore`, `Evaluator`, `Adapter` | the append-only state file, the last-writer-wins index over it, the verdict computed from its suffix, and what executing an action and its rollback does to it |
| `Runner`, `RunnerTheorems`, `RunnerRuns`, `RunnerVerdicts`, `RunnerRollbacks` | the runner in process mode, what its counters conserve, that everything it does is a run of the protocol, what each of its verdicts is computed from, and what its rollbacks come to |
| `Debouncer`, `RateLimiter`, `Regime`, `ErrorWindow` | timed state machines: debounced events, token bucket, regime hysteresis, sliding error window |
| `LawfulCodec` | a pair of functions with all that is assumed of JSON |
| `SelectionBus` | the runner behind the debounced bus: which selected actions are verified, and from when on |
| `Dag`, `Scoring`, `Router`, `Ordering` | Kahn's algorithm, action scoring and selection, agent routing, singleton conflicts and fallbacks |
| `Migrations`, `MigrationTheorems`, `MigrationAudit` | schema migrations that may be stopped after any step, and exactly what their audit log then lacks |
| `EncryptedStorage` | the encrypted blob and the JSON lines inside it |

`dafny verify dfyconfig.toml` checks the whole project.

## How the source is read

* The source's objects with mutable fields are classes here (`InMemoryJobStore`, `Store`, `Runner`,
  `EventDebouncer`, `TokenBucket`, `RegimeManager`, `ErrorWindows`, `DataDirectory`). Each method is
  proved against a function of the old state; the theorems are then about runs of those functions.
* `Protocol` is the multi-runner reading of the job stores: each store call, in memory under its lock
  or one SQL statement, is one atomic step; verdicts are arbitrary; a crash may fall between any two
  steps. `RunnerRuns.LifeIsARun` proves that the in-process runner refines it: a life of that runner is
  any sequence of records written by other layers, executed actions, selections, passes and correlated
  results.
* Assumptions of the protocol: runner ids are not empty and differ between runners, job ids are fresh,
  `finalize` is called with PASSED, FAILED or DEADLETTERED only, and (where spacing or counting is
  claimed) leases are positive. In SQL mode the verification specification is taken as decoded, although
  the pool sets no JSON codec, so that asyncpg hands it back as text and reading its metric would raise.
* JSON, SHA-256, HMAC and the hash of the dedupe key are function-valued parameters. Of JSON it is
  assumed that it prints one ASCII line in braces and reads it back; `LawfulCodecExists` proves that
  functions with these laws exist. Of the digests only their length is assumed.
* Numbers in state records and effects are fractions (`StateLog.Number`): the type has to have no more
  values than there are texts. Times are integers (microseconds) for jobs and exact reals elsewhere; means
  and scores are exact reals.
* Exceptions are `Result`/`Option` values or a returned `false`, with the state as the exception leaves it.

## Where the code does not do what it says

* **SQL mode loses exhausted jobs.** The SQL claim demands `attempts < max_attempts`, so the branch that
  dead-letters a job on a claim past the limit is never reached when a runner's limit is not below the
  job's (`PostgresNeverDeadLetters`). In every reachable state a pending job can still end if and only if it
  is not lost (`FinishableExactly`): in SQL, attempts used up and no copy left with its lease owner. A lost
  job stays pending for ever (`LostForever`), whatever copies other runners hold (`LostIsReachable`), with
  the next deadline stuck at or before its own (`LostHoldsTheDeadline`). In memory no job is lost; one past
  its limit is dead-lettered on its next claim (`DeadLetteredExactlyPastTheLimit`).
* **SQL mode never marks a rollback.** `_do_rollback` calls the coroutine `mark_rollback_triggered` without
  awaiting it: the update never runs and the truthy coroutine counts as success. The protocol has this as
  `markAwaited == false`; then no row ever carries a mark, and a rollback still runs at most once, because
  finalising guards it (`RollbackAtMostOnce`).
* **Results of rollbacks go astray.** A result is attached to the job whose rollback it names; in memory one
  with a null id goes to the first job that has no rollback at all (`ResultReachesExactly`), and only
  then does an unmarked job carry a result (`ResultNeedsMark`). Where marking is not awaited, as in SQL mode, no
  row ever names a rollback and no result is ever correlated (`UnawaitedNeverCorrelates`).
* **At most once is not exactly once.** A judged job has its one ledger entry and its rollback, if due, if and
  only if no crash hit a runner at work on it; what such a crash drops is never made up for
  (`ExactlyOnceUnlessHit`). A life of the in-process runner, as modelled, has no such crash; there a rollback that
  raises partway is the one attempt its job gets (`ExactlyOnceInEveryLife`).
* **The lease boundary differs.** At its expiry instant a lease no longer blocks a claim in memory, and still
  blocks it in SQL; `ClaimRulesDiffer` states exactly when the two claim rules disagree.
* **A re-selected action is not verified again.** `decision_id` defaults to the action id, so selecting the
  same catalogue action twice gives the same dedupe key and the second enqueue adds nothing, although it is
  counted as enqueued. The two numbers agree if and only if no dedupe key was selected twice (`EnqueuedExactly`).
* **The evaluator and the store disagree on damaged files.** The store raises on a malformed line where the
  evaluator silently stops; they agree if and only if every line is blank or a record (`ReadersAgree`). After a
  write torn before its newline the next record is merged into the torn line: if that line does not parse,
  the evaluator reads only what stands before it (`TornWriteHidesLaterRecords`) and the store does not load
  (`TornWriteStopsTheStore`); if it parses, both go on behind it.
* **Execution is not atomic.** Adding to a variable whose record holds null raises (`SucceedsExactly`), and the
  records of exactly the effects before it stay in the log (`AppendsWhatItApplied`).
* **A selected action may go unverified.** It is enqueued if and only if the bus dispatches it
  (`VerifiedExactlyIfDispatched`). Within the window it waits, and it is dispatched if and only if its timer
  runs before another selection replaces it for good (`DispatchedExactlyUnlessReplaced`); then only what is
  recorded from then on is judged (`DeferredIsJudgedFromDispatch`).
* **Debouncing needs effective cancellation.** A timer already waiting for the lock when `publish` cancels it
  runs all the same. Dispatches stay a window apart if and only if that publish did not dispatch or the
  timer is a window late (`LateTimerExactly`); in the former case the newer timer escapes cancellation and
  breaks the spacing in turn unless it is a window late (`StrayTimerExactly`).
* **Regimes read an exit stamped 0.0 as no exit.** A regime is switched on before its cooldown is over if and only
  if its last exit was stamped 0.0 and the time is below the cooldown (`SkipsCooldownExactly`), so gaps last
  as they should if and only if that never happens (`FlapsExactly`), as on any clock that does not read 0.0.
* **A migration's audit entry can be lost.** The version is written before the audit line. A stopped run
  leaves the audit complete if and only if it did not stop between the two (`StopLosesExactly`), which can
  happen to any pending migration (`MigrationAudit.StopBeforeAuditLosesTheEntry`); no later run makes up for
  it (`LostEntryStaysLost`), so the versions missing are exactly those of such stops (`MissingExactly`).
* **Fallback chains are not walked.** `resolve_fallback` recurses only on an unregistered fallback, where the
  next call returns None (`FallbackIsOneHop`).

## Model

| member | source | states |
|---|---|---|
| `ProtocolTheorems.FinalOutcomeAtMostOnce` | control_plane/verification_runner.py:229-253 | In every interleaving with crashes and stale runners a job's final outcome is set at most once, by its lease owner, and the job is terminal exactly when it is set |
| `ProtocolTheorems.FinalizedForever` | control_plane/verification_runner.py:229-289 | In every continuation a finalised job keeps status, event, outcome time, lease owner and attempts; only one rollback mark and a result can still be added, in memory one result that stays |
| `ProtocolTheorems.ClaimsAreLeasesApart` | control_plane/verification_runner.py:200-225 | Any two claims of one job, by any runners, are at least the earlier claim's lease apart, and `attempts` is the number of claims |
| `ProtocolTheorems.SpacedApart` | control_plane/verification_runner.py:200-225 | With leases of at least m, the k-th claim after a claim comes at least k leases later |
| `ProtocolTheorems.AttemptsBound` | control_plane/verification_runner.py:200-225 | (attempts - 1) times the smallest lease is at most the time from the first to the last claim |
| `ProtocolTheorems.LedgerAtMostOnce` | control_plane/verification_runner.py:757-792 | The outcome ledger has at most one entry per job, it is the job's own outcome, and dead-lettered jobs have none |
| `ProtocolTheorems.RollbackAtMostOnce` | control_plane/verification_runner.py:808-839 | A rollback runs at most once per job, only after the same runner finalised the job FAILED, and only for a known rollback action; the row of a rolled-back job is marked if and only if marking is awaited, and no row ever is where it is not |
| `ProtocolTheorems.MarkingAlwaysSucceeds` | control_plane/verification_runner.py:257-271 | A runner that finalised a job FAILED can always mark its rollback: finalising froze the lease owner |
| `ProtocolTheorems.RollbackCompletes` | control_plane/verification_runner.py:808-839 | However long other runners run in between, a runner about to mark can mark and execute, leaving exactly one execution |
| `ProtocolTheorems.ResultReachesExactly` | control_plane/verification_runner.py:275-282 | In every reachable state a result can be attached to a job if and only if it names the job's rollback or, in memory, has a null id and the job has no rollback |
| `ProtocolTheorems.ResultNeedsMark` | control_plane/verification_runner.py:721-729 | In every run without null ids only jobs marked for rollback carry a result |
| `ProtocolTheorems.UnawaitedNeverCorrelates` | control_plane/verification_runner.py:476-492 | In SQL mode without awaited marking no job ever names a rollback or carries a result |
| `ProtocolTheorems.DeadLetteredExactlyPastTheLimit` | control_plane/verification_runner.py:751-757 | A terminal job is dead-lettered if and only if it was finished on a claim past its limit, which is the job's own in memory if it has one, and else its owner's; PASSED and FAILED only within it |
| `ProtocolTheorems.PostgresAttemptsWithinLimit` | control_plane/verification_runner.py:391-420 | Under the SQL claim rule attempts never exceed the job's stored limit, 3 where none is given |
| `ProtocolTheorems.PostgresNeverDeadLetters` | control_plane/verification_runner.py:974-978 | With runner limits not below job limits no SQL runner ever dead-letters a job |
| `ProtocolTheorems.ClaimRulesDiffer` | control_plane/verification_runner.py:391-420 | SQL claims nothing that memory would not; on a due pending job of a reachable state the rules differ if and only if its lease expires this instant or its attempts are used up and no lease runs |
| `ProtocolFate.FinishableExactly` | control_plane/verification_runner.py:391-420 | After every run, under either claim rule, a pending job has a continuation in which it ends if and only if it is not lost: SQL, attempts used up, and no copy with its lease owner |
| `ProtocolFate.LostForever` | control_plane/verification_runner.py:391-420 | A lost job keeps its row in every continuation |
| `ProtocolFate.LostHoldsTheDeadline` | control_plane/verification_runner.py:381-420 | In every continuation a lost job holds the earliest pending deadline at or below its own while no claim returns it |
| `ProtocolFate.LostIsReachable` | control_plane/verification_runner.py:974-978 | A run after which a job is lost although another runner still holds a copy of it |
| `ProtocolTheorems.JobsCountDistinctKeys` | control_plane/verification_runner.py:165-185 | Enqueueing is idempotent: there are as many jobs as distinct dedupe keys ever enqueued |
| `ProtocolSafety.StepKeepsInv` | control_plane/verification_runner.py:155-295 | Every step, by any runner, publisher or result, keeps the invariant tying job rows, leases, marks, runners' copies, history and ledger together |
| `ProtocolSafety.ReachableInv` | control_plane/verification_runner.py:155-295 | The invariant holds in every state any run reaches |
| `ProtocolProgress.ExactlyOnceUnlessHit` | control_plane/verification_runner.py:743-839 | In every run a judged job whose owner is at rest has exactly one ledger entry and, if FAILED with a known rollback, exactly one rollback, if and only if no crash hit a runner at work on it |
| `Jobs.ClaimableSometimeExactly` | control_plane/verification_runner.py:391-420 | A job can be claimed at some later time if and only if it is pending and, in SQL, has attempts left |
| `Jobs.OneJobPerKey` | control_plane/verification_runner.py:165-185 | Jobs and dedupe keys correspond one to one |
| `JobStore.InMemoryJobStore.Enqueue` | control_plane/verification_runner.py:165-185 | A known dedupe key returns the stored job and changes nothing; a new one adds a queued job behind the others |
| `JobStore.InMemoryJobStore.NextDeadline` | control_plane/verification_runner.py:189-196 | The minimum deadline of the pending jobs, None exactly when nothing is pending |
| `JobStore.InMemoryJobStore.ClaimDue` | control_plane/verification_runner.py:200-225 | Every claimable job, and no other, is leased to the runner, becomes WAITING and counts an attempt |
| `JobStore.ClaimReturnsTheClaimable` | control_plane/verification_runner.py:200-225 | The returned copies are exactly the pending, due jobs not under a live lease, each once, in their new state |
| `JobStore.NothingBeforeNextDeadline` | control_plane/verification_runner.py:189-225 | Before the earliest pending deadline nothing is claimable, under either rule |
| `JobStore.InMemoryJobStore.Finalize` | control_plane/verification_runner.py:229-253 | Succeeds exactly when the job exists, has no final outcome and is leased to this runner; otherwise nothing changes |
| `JobStore.InMemoryJobStore.DeadLetter` | control_plane/verification_runner.py:286-289 | The same guard, with status DEADLETTERED and the error kept |
| `JobStore.InMemoryJobStore.MarkRollbackTriggered` | control_plane/verification_runner.py:257-271 | Succeeds exactly when no rollback is marked and the job is leased to this runner; otherwise nothing changes |
| `JobStore.InMemoryJobStore.RecordRollbackResult` | control_plane/verification_runner.py:275-282 | Attaches the result to the first job with that rollback action, or changes nothing and fails exactly when there is none |
| `JobStore.ResultGoesToTheFirst` | control_plane/verification_runner.py:275-282 | The job that gets it is the first in store order whose rollback action is the given one, and it keeps an earlier result |
| `JobStore.InMemoryJobStore.AppendOutcome` | control_plane/verification_runner.py:293-295 | Appends to the ledger |
| `JobStore.InMemoryJobStore.PendingCount` | control_plane/verification_runner.py:302-308 | The number of pending jobs |
| `StateLog.ReadFromOffset` | control_plane/verification_runner.py:126-140 | Reads line by line from a byte offset, skipping blank lines and stopping at the first malformed one |
| `StateLog.ReadFromBoundary` | control_plane/verification_runner.py:118-140 | From an offset taken at a record boundary exactly the records appended since are read |
| `StateLog.TornWriteHidesLaterRecords` | control_plane/verification_runner.py:126-140 | After a write torn before its newline the reader gets what precedes it if the line merged with the next record does not parse, and else the merged record and all later ones |
| `StateLog.BlankLinesAreSkipped` | control_plane/verification_runner.py:126-140 | A blank line anywhere between records changes nothing of what is read |
| `Evaluator.Evaluate` | control_plane/verification_runner.py:548-597 | The verdict is the comparison of the mean of the post-baseline metric values with the threshold, with the source's failure reasons |
| `Evaluator.VerdictSeesOnlyTheSuffix` | control_plane/verification_runner.py:548-597 | Neither earlier history nor the action's own effects enter the verdict |
| `Evaluator.VerdictIgnoresOrder` | control_plane/verification_runner.py:548-597 | The verdict does not depend on the order of the post-baseline values |
| `Evaluator.MeanBounds` | control_plane/verification_runner.py:548-597 | The judged value lies between the smallest and the largest post-baseline value |
| `Evaluator.LowerBoundVerdict` | control_plane/verification_runner.py:548-597 | A lower bound passes when all post-baseline values meet it and fails when none does |
| `Evaluator.VerdictExactly` | control_plane/verification_runner.py:548-597 | There is an actual value if and only if some record of the metric holds one; PASSED if and only if it meets the threshold under one of the six operators; the reason says which of three things went wrong |
| `Evaluator.OthersHaveNoSay` | control_plane/verification_runner.py:558-562 | A record of another variable, or with a null value, put anywhere among the others leaves the verdict as it was |
| `Evaluator.ActualIsTheAverage` | control_plane/verification_runner.py:567-578 | One value of the metric alone is the actual value; each further one shifts it as it shifts an average |
| `StateStore.Store.Put` | control_plane/state_store.py:45-51 | An invalid record changes nothing; a valid one is appended to the file and becomes its variable's latest |
| `StateStore.Store.Load` | control_plane/state_store.py:70-79 | The index becomes the replay of the file's records; a malformed line raises |
| `StateStore.IndexIsLastWriter` | control_plane/state_store.py:45-83 | The index holds each variable's latest record |
| `StateStore.IndexHasOnlyWritten` | control_plane/state_store.py:45-83 | The index holds no variable that was never written |
| `StateStore.ValueExactly` | control_plane/state_store.py:45-83 | A variable reads as the value of its latest record, and as the default if it was never written |
| `StateStore.LoadInvertsPuts` | control_plane/state_store.py:70-83 | Loading any file the store wrote gives back exactly the records put |
| `StateStore.Reopen` | control_plane/state_store.py:29-83 | A second store opened on the file has the same index |
| `StateStore.ReadersAgree` | control_plane/state_store.py:70-79 | The store loads what the evaluator reads if and only if every line is blank or a record; else it raises |
| `StateStore.TornWriteStopsTheStore` | control_plane/state_store.py:70-79 | After a torn write the store raises if the merged line does not parse, and else loads the merged record and all later ones |
| `Adapter.Execute` | control_plane/swarmz_adapter.py:29-55 | Runs the effects in order, each reading and writing the store, up to the first that raises |
| `Adapter.SucceedsExactly` | control_plane/swarmz_adapter.py:29-55 | Execution succeeds if and only if no affected variable currently holds null |
| `Adapter.RaisesExactly` | control_plane/swarmz_adapter.py:29-55 | It raises if and only if the latest record of some affected variable holds null |
| `Adapter.AddsTheDeltas` | control_plane/swarmz_adapter.py:29-55 | Each variable changes by exactly the sum of its deltas |
| `Adapter.LeavesOthersAlone` | control_plane/swarmz_adapter.py:29-55 | A variable that no effect names keeps its record or its absence |
| `Adapter.AppendsOnePerEffect` | control_plane/swarmz_adapter.py:29-55 | One legal record per effect, in order, with the effect's variable, its layer and its direction, confidence 0.9, the action's source tag and the time |
| `Adapter.AppendsWhatItApplied` | control_plane/swarmz_adapter.py:29-55 | Succeeding or raising, execution appends one legal record for each effect before the first on a null variable, and nothing else |
| `Adapter.RollbackRestores` | control_plane/verification_runner.py:808-839 | Executing the delta-negated action next succeeds and restores every value read with default 0 |
| `VerificationRunner.Runner.OnActionSelected` | control_plane/verification_runner.py:668-715 | Enqueues one job with the file length as baseline offset, the current metric value as baseline and the deadline, or only counts a duplicate |
| `RunnerVerdicts.JobCarriesItsSelection` | control_plane/verification_runner.py:668-715 | In every life each job has the verification and the rollback of the action that was selected, is due the seconds given, or 30, after the selection, has the configured attempt limit, and its key hashes decision id, action id and specification |
| `VerificationRunner.Runner.OnActResult` | control_plane/verification_runner.py:721-729 | Attaches the result to the first job its action id names, a missing id standing for the empty one; no payload changes nothing |
| `VerificationRunner.Runner.CheckPending` | control_plane/verification_runner.py:743-792 | Claims what is due and finishes the copies in order: dead letter, verdict, ledger, rollback, counters; an exception leaves the state as it was then |
| `VerificationRunner.Runner.ProcessOne` | control_plane/verification_runner.py:750-792 | One claimed job: dead-lettered past its limit, else judged; the rollback follows only a FAILED that passed the guard |
| `VerificationRunner.Runner.Conclude` | control_plane/verification_runner.py:759-792 | Ledger and counters change only when the exactly-once guard let the outcome through |
| `VerificationRunner.Runner.DoDeadLetter` | control_plane/verification_runner.py:794-806 | Dead-letters under the guard and counts it only then |
| `VerificationRunner.Runner.DoRollback` | control_plane/verification_runner.py:808-839 | Marks, then executes the catalogue action, counting it only when both succeed |
| `RunnerTheorems.PassConserves` | control_plane/verification_runner.py:743-839 | Every pass, even one cut short, keeps the counters equal to the numbers of PASSED, FAILED and DEADLETTERED jobs |
| `RunnerTheorems.SelectConserves` | control_plane/verification_runner.py:668-715 | So does selecting an action, new or duplicate |
| `RunnerTheorems.ConservationLaw` | control_plane/verification_runner.py:302-315 | Where counters and store agree, pending and terminal jobs add up to all jobs |
| `RunnerTheorems.PassFinishesAllDue` | control_plane/verification_runner.py:743-792 | A pass that raises nothing leaves every job that was claimable in a terminal state |
| `RunnerTheorems.ResultExactly` | control_plane/verification_runner.py:721-729 | A result goes to the first job whose rollback is the action id given, a missing id standing for the empty one; no payload is for no job |
| `RunnerTheorems.PassIsARun` | control_plane/verification_runner.py:743-839 | A whole pass is a run of the protocol ending in the same store |
| `RunnerRuns.ConservationInEveryLife` | control_plane/verification_runner.py:302-315 | After any writes, executions, selections, passes and results: pending + passed + failed + deadlettered = jobs = dedupe keys, at most the enqueued count, and rollbacks at most failed |
| `RunnerRuns.EnqueuedExactly` | control_plane/verification_runner.py:165-185 | The enqueued count is the number of selections with a verification, the jobs are the distinct dedupe keys among them, and the two agree if and only if no key was selected twice |
| `RunnerRuns.LifeIsARun` | control_plane/verification_runner.py:668-839 | Whatever is written, executed, selected and correlated and however often check_pending runs, the store is in a state the protocol reaches by a run whose crashes hit no runner at work, and the runner is at rest |
| `RunnerRuns.LedgerInEveryLife` | control_plane/verification_runner.py:743-792 | So the runner's own ledger has at most one entry per job, agreeing with the job |
| `RunnerRollbacks.RollbacksInEveryLife` | control_plane/verification_runner.py:808-839 | In every life the marked jobs are exactly the FAILED ones with a known rollback, and the rollback counter is their number less the passes a raising rollback cut short |
| `RunnerRollbacks.MarkedExactlyAsSelected` | control_plane/verification_runner.py:808-839 | In every life a job is marked if and only if it FAILED and the action whose selection made it names a nonempty rollback of the catalogue |
| `RunnerRollbacks.PassRollsBack` | control_plane/verification_runner.py:743-839 | A pass that raises nothing changes each state variable by exactly what the rollbacks due for the jobs it finished add to it |
| `RunnerRollbacks.ExactlyOnceInEveryLife` | control_plane/verification_runner.py:743-839 | In every life each judged job has exactly one ledger entry, and exactly one attempted rollback, complete or cut short by its own exception, if FAILED with a known rollback, else none |
| `RunnerVerdicts.JudgedByWhatFollows` | control_plane/verification_runner.py:668-715 | An action handed to the runner is judged by exactly the records appended from then on, against the value its metric has then |
| `RunnerVerdicts.EveryJobWasSelected` | control_plane/verification_runner.py:668-715 | Every job of a life stems from one selection: its specification, offset and baseline are those of the file at that moment |
| `RunnerVerdicts.VerdictsInEveryLife` | control_plane/verification_runner.py:743-792 | In every life each copy a pass gets to is finalised by it: dead-lettered past its limit, else with the verdict and reason of comparing the records appended since its selection with the value its metric had then |
| `SelectionBus.VerifiedExactlyIfDispatched` | control_plane/weaver_service.py:97-99 | In every run of bus and runner the enqueued count is that of the dispatched actions with a verification, and there is a job for exactly their dedupe keys |
| `SelectionBus.PublishedNowOrWaits` | control_plane/weaver_service.py:97-99 | A published action is selected in the world as it stands if and only if a window has passed since the last dispatch; else it waits and the runner's world stays as it is |
| `SelectionBus.DeferredIsJudgedFromDispatch` | control_plane/event_debouncer.py:36-61 | A deferred action whose timer runs is judged by what follows the dispatch; its baseline offset is that of its publication if and only if nothing was recorded in between |
| `SelectionBus.DispatchedExactlyUnlessReplaced` | control_plane/event_debouncer.py:36-61 | In every continuation a deferred action is dispatched if and only if the next event on the bus is its timer's run and not another selection, and it waits exactly as long as neither happens |
| `SelectionBus.RunIsALife` | control_plane/verification_runner.py:660-715 | Behind the bus the runner lives a life, so all that is proved of lives holds |
| `Debouncer.EventDebouncer.Publish` | control_plane/event_debouncer.py:36-55 | Cancels the pending timer, then dispatches at once or starts a timer for the rest of the window |
| `Debouncer.EventDebouncer.Deferred` | control_plane/event_debouncer.py:57-61 | The timer dispatches its payload and clears its entry |
| `Debouncer.DispatchesAreAWindowApart` | control_plane/event_debouncer.py:36-61 | In every run dispatches of one event are at least a window apart |
| `Debouncer.OneTimerDueAfterTheWindow` | control_plane/event_debouncer.py:36-61 | At most one timer per event is alive, due exactly one window after the last dispatch |
| `Debouncer.RepublishingDoesNotPostpone` | control_plane/event_debouncer.py:36-55 | Republishing before the timer is due replaces its payload and keeps its due time |
| `Debouncer.DispatchesCarryTheNewest` | control_plane/event_debouncer.py:36-61 | Each dispatch carries the newest payload published for its event |
| `Debouncer.NewestIsDispatchedInTime` | control_plane/event_debouncer.py:36-61 | No starvation: the newest payload is dispatched within a window plus the timers' lateness of being published |
| `Debouncer.LateTimerExactly` | control_plane/event_debouncer.py:40-61 | After every run, if a cancelled timer runs all the same, dispatches stay a window apart if and only if the publish did not dispatch or the timer is a window late, and the last payload sent is the newest if and only if the two are equal |
| `Debouncer.StrayTimerExactly` | control_plane/event_debouncer.py:40-61 | If that publish did not dispatch, its timer leaves the table while alive, and its expiry keeps the spacing if and only if it comes a window later |
| `Debouncer.CancelRaceBreaksSpacing` | control_plane/event_debouncer.py:40-61 | For one, a publish after the window with the cancelled timer running at once breaks the spacing |
| `RateLimiter.TokenBucket.Consume` | addons/rate_limiter.py:30-38 | Refills by elapsed time up to the capacity and admits exactly when a whole token is there |
| `RateLimiter.TokensInRange` | addons/rate_limiter.py:24-38 | Tokens stay within 0 and the capacity |
| `RateLimiter.TokenBudget` | addons/rate_limiter.py:24-38 | Tokens left plus calls admitted since any point are covered by the capacity and the refill since |
| `RateLimiter.AdmissionBound` | addons/rate_limiter.py:24-38 | Calls admitted from any call to the last number at most capacity + rate times the time between them |
| `RateLimiter.RejectsExactly` | addons/rate_limiter.py:24-38 | From a full bucket a call is rejected if and only if admitting it would break the burst bound counted from some call on |
| `RateLimiter.PacedCallsAreAdmitted` | addons/rate_limiter.py:24-38 | From a full bucket of at least one token, calls 1/rate apart are all admitted |
| `Regime.RegimeManager.ActiveObjectives` | control_plane/regime.py:54-87 | One pass over the objectives with minimum duration and cooldown; an unknown operator raises with the earlier effects kept |
| `Regime.SwitchesExactly` | control_plane/regime.py:69-82 | After any looks a regime is switched on if and only if its condition holds and it never exited, its last exit is stamped 0, or the cooldown has passed since; off if and only if the condition fails and the minimum duration has passed since its activation |
| `Regime.MetExactly` | control_plane/regime.py:64-67 | An unreadable variable fails its condition, an unknown operator on a readable one raises, and each of the six operators compares value and target as it says |
| `Regime.RaisesExactly` | control_plane/regime.py:64-67 | A pass raises if and only if some objective has a readable variable and an unknown operator |
| `Regime.ListedExactly` | control_plane/regime.py:84-87 | An objective is listed if and only if its regime is active after its own turn |
| `Regime.PassReplaysLooks` | control_plane/regime.py:54-87 | A pass acts on each regime exactly as that regime's own objectives do, in order |
| `Regime.NoFlapping` | control_plane/regime.py:54-87 | On a clock that never reads 0 every active stretch lasts at least d and every gap at least c |
| `Regime.FlapsExactly` | control_plane/regime.py:66-87 | On any clock stretches last at least d; gaps last at least c if and only if no exit stamped 0 is followed by an activation before time c |
| `Regime.SkipsCooldownExactly` | control_plane/regime.py:66-74 | An inactive regime is switched on before its cooldown is over if and only if the condition holds, its last exit was stamped 0 and the time is below the cooldown |
| `Regime.RegimesNeverFlap` | control_plane/regime.py:54-87 | For any calls of the manager, raising ones included, stretches last at least d, gaps at least c if and only if no exit stamped 0 is followed by an activation before c, and on a clock that never reads 0 the n-th activation after the first comes at least n(d + c) later |
| `Regime.ZeroClockSkipsCooldown` | control_plane/regime.py:66-74 | For one, an exit at time 0.0 counts as none, and the next entry skips the cooldown |
| `ErrorWindow.ErrorWindows.RecordError` | addons/security.py:171-187 | Appends to the address's deque, evicts from the left, and reports a spike when enough errors remain |
| `ErrorWindow.EvictIsSince` | addons/security.py:175-178 | On nondecreasing times popping from the left removes exactly the entries before the cutoff |
| `ErrorWindow.SinceExactly` | addons/security.py:175-178 | The window keeps each time from the cutoff on as often as it was recorded, and no other |
| `ErrorWindow.DequeIsTheWindow` | addons/security.py:171-187 | With nondecreasing times the deque is the error history filtered to the last window |
| `ErrorWindow.DequeIsRecentHistory` | addons/security.py:171-187 | The same per address whatever other addresses do, so the spike test counts exactly the errors in the window |
| `Dag.IsDag` | core/dag_validation.py:12-65 | True if and only if ids are distinct, dependencies name listed nodes and no walk along the edges returns to its start |
| `Dag.EdgesExactly` | core/dag_validation.py:27-43 | There is an edge from u to v if and only if a listed node v names u as a dependency |
| `Dag.BuildGraph` | core/dag_validation.py:27-43 | Adjacency lists and in-degrees count every listed dependency, repetitions included; fails exactly on an unlisted dependency |
| `Dag.Release` | core/dag_validation.py:52-61 | Popping a node keeps every in-degree equal to the number of edges from unprocessed nodes and queues exactly those that reach zero |
| `Dag.Kahn` | core/dag_validation.py:46-65 | The pop order is topological, and each node never popped has an edge from another such node |
| `Dag.TopologicalIsAcyclic` | core/dag_validation.py:46-65 | A topological order of all nodes excludes cycles |
| `Dag.BlockedIsCyclic` | core/dag_validation.py:46-65 | A nonempty leftover in which each node waits for another contains a cycle |
| `Dag.CountDecides` | core/dag_validation.py:65-65 | All nodes were popped if and only if the plan is a directed acyclic graph |
| `Scoring.CouplingDamage` | control_plane/scoring.py:45-52 | Strength times confidence of the negative edges out of affected variables, at most 1 |
| `Scoring.Benefit` | control_plane/scoring.py:59-66 | The scaled and clamped positive deltas, at most 1 |
| `Scoring.EffectGains` | control_plane/scoring.py:59-66 | An effect anywhere among the others adds a hundredth of a positive delta, at most 1, and nothing for any other |
| `Scoring.EdgeAdds` | control_plane/scoring.py:45-52 | An edge anywhere among the others adds strength times confidence if it is negative and leaves an affected variable, and nothing otherwise |
| `Scoring.RiskExactly` | control_plane/scoring.py:69-75 | The risk times the number of effects is the number of indices with a negative delta; 0 if and only if there are none, 1 if and only if there are no others |
| `Scoring.DoubtExactly` | control_plane/scoring.py:87-96 | The uncertainty is one minus the average confidence of the effects, and one half without effects |
| `Scoring.EffectTrusts` | control_plane/scoring.py:87-96 | An effect anywhere among the others brings in the confidence of its variable, 0.5 if it has no record |
| `Scoring.ScoreAction` | control_plane/scoring.py:78-102 | Benefit minus the weighted risk, coupling damage, irreversibility and uncertainty |
| `Scoring.UnweighedIsGain` | control_plane/scoring.py:78-102 | At zero weights the score is the gain, at most 1 |
| `Scoring.RiskIsCharged` | control_plane/scoring.py:78-102 | More weight on risk charges the action that much more of its risk, whatever the other terms |
| `Scoring.DamageIsCharged` | control_plane/scoring.py:78-102 | The same for the coupling damage, at most 1 |
| `Scoring.IrreversibilityIsCharged` | control_plane/scoring.py:78-102 | The same for the irreversibility |
| `Scoring.DoubtIsCharged` | control_plane/scoring.py:78-102 | The same for the uncertainty |
| `Scoring.SelectBest` | control_plane/scoring.py:105-119 | The head of the stable ranking, or None when it does not score above 0 |
| `Scoring.NoActionExactly` | control_plane/scoring.py:105-119 | None if and only if no action scores above 0 |
| `Scoring.SelectedIsBest` | control_plane/scoring.py:105-119 | The selected action is listed, scores above 0, and no action scores higher or ties with a smaller id |
| `Scoring.SelectionIgnoresOrder` | control_plane/scoring.py:105-119 | With distinct ids the order of the list does not matter |
| `Scoring.ScoreRange` | control_plane/scoring.py:78-102 | With inputs in schema range the score lies between minus the sum of the weights and 1 |
| `Scoring.InnerClampIsRedundant` | control_plane/scoring.py:59-66 | Clamping each effect in _benefit changes nothing |
| `Scoring.ConfidenceNeverHurts` | control_plane/scoring.py:78-102 | Raising confidences never lowers a score when the uncertainty weight is nonnegative |
| `Ordering.SortIgnoresOrder` | control_plane/scoring.py:115-115 | Sorting by a key that tells entries apart gives the same list for every input order |
| `Ordering.StringLeExactly` | control_plane/scoring.py:115-115 | Of two ids the one that the other continues comes first; otherwise the first difference decides |
| `Router.Route` | core/capability_router.py:49-78 | Scores the admitted manifests and sorts those that match |
| `Router.RouteIsExact` | core/capability_router.py:49-78 | The result is sorted and holds each admitted, positively matching manifest once and nothing else |
| `Router.RoutedExactly` | core/capability_router.py:49-78 | An id is in the ranking if and only if the manifest registered under it shares a capability with the task and, where there is a grant, has none outside it |
| `Router.UngrantedChangesNothing` | core/capability_router.py:60-63 | Registering a manifest with a capability outside the grant leaves the ranking as it was |
| `Router.RouteIgnoresOrder` | core/capability_router.py:49-78 | The ranking does not depend on the registration order |
| `Router.MatchExactly` | core/capability_router.py:148-150 | The match score is positive if and only if the agent has one of the task's capabilities, and at most 1 |
| `Router.CostExactly` | core/capability_router.py:153-155 | The cost is the mean of memory over 4096 MB and processor share, at most 1, where a missing or zero constraint reads as its default |
| `Router.WeightsAreCharged` | core/capability_router.py:157-162 | At zero weights the composite is 0; more of a weight adds that much more of the match or the trust, and takes off that much more of the cost |
| `Router.BetterMatchRanksFirst` | core/capability_router.py:148-163 | With a positive match weight, of two agents equal in trust and cost the one covering more of the task ranks strictly first |
| `Router.MoreTrustRanksFirst` | core/capability_router.py:157-162 | Of two agents equal in match and cost the more trusted one ranks strictly first |
| `Router.CheaperRanksFirst` | core/capability_router.py:157-162 | Of two agents equal in match and trust the cheaper one ranks strictly first |
| `Router.EqualsRankById` | core/capability_router.py:69-78 | Agents equal in match, trust and cost rank by id |
| `Router.TiesAreBroken` | core/capability_router.py:69-78 | Of two agents with the same composite the better match ranks strictly first, then the more trusted, then the cheaper |
| `Router.FullMatchBeatsWeakMatch` | core/capability_router.py:31-36 | With the default weights a full match ranks before any agent that covers less than a third of the task and is not more than 1 ahead in trust or cost, whatever the values |
| `Router.DetectConflicts` | core/capability_router.py:110-132 | Reports, for each registered singleton of the chain and each of its capabilities claimed before, the first claimant and the agent |
| `Router.ConflictExactly` | core/capability_router.py:118-132 | A conflict is reported if and only if a later manifest has a capability of an earlier one, and it names the first manifest that has it |
| `Router.ConflictCount` | core/capability_router.py:110-132 | There are as many conflicts as claims minus distinct claimed capabilities |
| `Router.NoConflictExactly` | core/capability_router.py:110-132 | There are none if and only if the singletons of the chain are pairwise disjoint |
| `Router.FallbackIsOneHop` | core/capability_router.py:80-108 | The result is the fallback that the agent itself declares, the empty name being none, if registered, else None |
| `Migrations.DataDirectory.RunMigrations` | addons/schema_version.py:72-97 | Performs the pending migrations step by step and returns their labels, or stops where an existing backup makes it raise |
| `Migrations.DataDirectory.ReadVersion` | addons/schema_version.py:30-37 | The recorded number; 0 for a missing or unreadable file, a missing field or one that is no integer |
| `Migrations.DataDirectory.WriteVersion` | addons/schema_version.py:40-48 | Writes the version; a readable document keeps all its other fields, a new one has none |
| `Migrations.DataDirectory.BackupData` | addons/schema_version.py:51-58 | Copies state document, files and audit log under the label and the second; raises, changing nothing, if and only if that backup exists |
| `Migrations.DataDirectory.Migrate` | addons/schema_version.py:109-226 | Creates the migration's files in order, each only if it does not exist |
| `Migrations.DataDirectory.AppendAudit` | addons/schema_version.py:61-69 | Appends the entry of the label and the time to the audit log |
| `MigrationTheorems.InterruptionsDoNotShow` | addons/schema_version.py:72-97 | After any number of runs stopped at any step, a complete run leaves the state document and, up to timestamps, the files of one uninterrupted run |
| `MigrationTheorems.StopKeepsOutlook` | addons/schema_version.py:72-97 | A run stopped at any step never lowers the version nor changes what the directory is going to be |
| `MigrationTheorems.CompleteRunFulfils` | addons/schema_version.py:72-97 | A run that completes leaves exactly the files and the version that were in prospect |
| `MigrationTheorems.CompleteRunReaches` | addons/schema_version.py:72-97 | It reaches the largest of the old version, the registered ones and 6, and audits each label it applied |
| `MigrationTheorems.SecondRunAppliesNothing` | addons/schema_version.py:72-97 | A second complete run applies nothing and changes nothing at all |
| `MigrationTheorems.LabelsChain` | addons/schema_version.py:81-91 | Applied labels lead from version to version without a gap to the last registered one |
| `MigrationTheorems.FilesAreKept` | addons/schema_version.py:109-226 | No step overwrites or removes an existing file |
| `MigrationTheorems.OtherFieldsSurvive` | addons/schema_version.py:40-48 | Wherever its steps stop, a readable state document stays readable with the same other fields, and one that was absent or unreadable has none if it is written |
| `MigrationTheorems.OtherFieldsSurviveAttempts` | addons/schema_version.py:40-48 | The same over any number of stopped runs |
| `MigrationTheorems.FinalKeys` | addons/schema_version.py:109-226 | In the end there are the files there were and those of the pending migrations |
| `MigrationTheorems.AuditedAtMostOnce` | addons/schema_version.py:81-91 | Over any number of stopped runs each version is audited at most once, in ascending order |
| `MigrationTheorems.AuditSaysWhen` | addons/schema_version.py:61-69 | An audit step adds the one entry for its label, stamped with the time of the step, and changes nothing else |
| `MigrationAudit.StopLosesExactly` | addons/schema_version.py:81-91 | A run stopped at any step has audited every version it reached if and only if it did not stop between writing a version and auditing it; then exactly that last entry is missing |
| `MigrationAudit.MissingExactly` | addons/schema_version.py:81-91 | After any number of stopped runs a registered version reached meanwhile is missing from the audit if and only if one of them stopped right before auditing it |
| `MigrationAudit.StopBeforeAuditLosesTheEntry` | addons/schema_version.py:86-89 | Every pending migration of a run has a step at which a stop leaves its version reached and unaudited |
| `MigrationTheorems.LostEntryStaysLost` | addons/schema_version.py:81-91 | Such an entry is never made up for |
| `MigrationTheorems.BackupsAreKept` | addons/schema_version.py:51-58 | A backup is never replaced or removed |
| `MigrationTheorems.BackupHoldsTheDirectory` | addons/schema_version.py:51-58 | A backup is taken if and only if there is none of that label and second, and holds state document, files and audit log as they are then |
| `MigrationTheorems.BackupsNameTheirVersion` | addons/schema_version.py:51-58 | Each backup holds the directory at the version its label starts from, whatever was stopped when |
| `MigrationTheorems.CompletesExactly` | addons/schema_version.py:51-58 | A run raises if and only if a pending migration was already backed up in the same second |
| `MigrationTheorems.FreshDirectory` | addons/schema_version.py:101-226 | From an empty directory six consecutive migrations lead to version 6 with all their files, each version audited |
| `MigrationTheorems.ShippedMigrations` | addons/schema_version.py:101-226 | The six shipped migrations lead an empty directory to version 6 with their six files, each version audited |
| `EncryptedStorage.DecryptInvertsEncrypt` | addons/encrypted_storage.py:40-60 | Decrypting an encryption gives the plaintext, for every plaintext, key and nonce; a blob is 48 bytes longer |
| `EncryptedStorage.BlobExactly` | addons/encrypted_storage.py:30-46 | A blob is the nonce, each byte combined by exclusive or with its byte of the digest of key and nonce, and the tag of both under the key, which is the digest of the passphrase |
| `EncryptedStorage.DecryptsExactly` | addons/encrypted_storage.py:49-60 | A blob decrypts to a plaintext if and only if it is its encryption under the blob's own nonce; "Blob too short" exactly below 48 bytes |
| `EncryptedStorage.RejectsExactly` | addons/encrypted_storage.py:49-60 | A blob is rejected if and only if it is shorter than 48 bytes or its tag is not that of the rest under the key |
| `EncryptedStorage.KeystreamRepeats` | addons/encrypted_storage.py:30-46 | Two ciphertext bytes 32 apart differ exactly as their plaintext bytes do |
| `EncryptedStorage.SplitInvertsJoin` | addons/encrypted_storage.py:72-85 | Splitting joined printouts at line boundaries gives them back |
| `EncryptedStorage.BlankLinesAreSkipped` | addons/encrypted_storage.py:81-85 | A line of whitespace anywhere among the decrypted lines changes nothing |
| `EncryptedStorage.ParseRaisesExactly` | addons/encrypted_storage.py:81-85 | Loading the decrypted lines raises if and only if some line with text on it is no record |
| `EncryptedStorage.LoadInvertsSave` | addons/encrypted_storage.py:72-85 | Loading a saved list of records returns that list, the empty list included |

## Left out

- Job dictionaries enqueued with preset fields or an id of their own, `created_at`/`updated_at`, `final_status` copies and `stats()`: bookkeeping copies of what the model has.
- SQL text, asyncpg, LISTEN/NOTIFY and asyncio scheduling: each statement is one atomic step with its WHERE clause as guard; `emit_heartbeat` raising in SQL mode is covered by the crash step.
- Event payloads, decision log and calibration events of the runner: output only.
- VerificationRunner.Runner.CheckPending: between its calls no other thread touches the store or the log; interleavings are in `Protocol`, where verdicts are arbitrary. A pass has one clock reading; the source reads the clock again for each stamp.
- RunnerRollbacks.ExactlyOnceInEveryLife: an exception of the verification store or the decision log between the ledger entry and the rollback (verification_runner.py:777-792) is not modelled; it would act as a crash in the middle of the job.
- Adapter.Execute: the read and the write of one effect are not interleaved with other writers.
- StateLog.ReadFromOffset: ASCII whitespace and newlines only; non-ASCII text, universal newlines and records whose value is neither a number nor null are not modelled.
- Evaluator.Evaluate: means are exact, so floating-point rounding of sums and thresholds is not modelled; the same holds for Scoring.ScoreAction and Router.Route.
- Debouncer.EventDebouncer.Publish: subscriber callbacks run under the lock in the source, so a callback that publishes would block for ever; callbacks and locks are not modelled.
- Debouncer.EventDebouncer.Deferred: the source dispatches after releasing the lock, here stamping and dispatching are one step.
- Regime.RegimesNeverFlap: bounds activations in time; that every listed objective's regime is still active on return does not hold when a later objective of the same pass switches it off.
- RateLimiter: the per-client table and the HTTP middleware around the bucket.
- ErrorWindow.ErrorWindows.RecordError: the other detectors of the middleware.
- Router.Route: the reason text, the check that weights sum to 1 and `allowed_capabilities`.
- Migrations.DataDirectory.RunMigrations: each file is written, and each backup copied, in one step; a stop inside the copy leaves a partial backup, of which MigrationTheorems.BackupsNameTheirVersion says nothing; a state file torn by a crash in the middle of a write is covered only as an unreadable state file at the start of a run, and versions that `int()` rejects with a TypeError are not modelled.
- EncryptedStorage.LoadInvertsSave: key derivation failures, non-ASCII plaintext and the plaintext fallback when no key is configured (a caller's concern in the source) are not modelled; nothing is claimed about secrecy.
- FastAPI routes, websockets, service workers, UI and narrative modules, and small lifecycles such as budget, approval queue and quarantine: plumbing or easy members.
