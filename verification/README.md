# A verified model of ez-gh-actions

ez-gh-actions supervises self-hosted GitHub Actions runners on one host. `ezgha serve` keeps a fixed
number of ephemeral runners alive; around it sit failure circuits, a zombie reaper, a retry loop for
the `gh` CLI, a post-job cleanup hook and an outcome monitor. This project models the parts of it that
decide something under failure, and proves what they promise over every input, every reply of the
outside world and every run.

`dafny verify dfyconfig.toml` checks everything. Automatic induction is off in every lemma that Dafny
would otherwise apply it to, so each proof shows its own recursion.

## How the source is modelled

Objects that the source updates in place are classes, and loops are loops. Each method is proved
against a function of its inputs and the old state (`AfterFailure`, `Step`, `Asked`, `Sight`,
`OutcomeOf`, ...) or against a predicate on the log of what it did (`Conversation`, `IsRetryTrace`,
`IsRegistration`, `IsRestart`, `IsEmptying`, `IsHook`, `Coverage`), and the promises are then proved about those. The outside world (GitHub,
`gh`, Docker, restart commands, the file system, clocks) is a class that answers arbitrarily and logs
what it was asked. Where time matters it also advances a clock, and its timing contract is its only promise.
An exception or an error return is a `Result`, an `Option` or a case of a datatype.

| file | what it models |
|---|---|
| `failure_ladder.dfy`, `failure_ladder_runs.dfy`, `failure_window.dfy`, `decimal.dfy` | the per-slot failure circuits, the fleet pause, and decimal slot keys |
| `serve_loop.dfy`, `serve_loop_runs.dfy`, `serve_loop_decisions.dfy` | the state `ezgha serve` carries between iterations, and its sleeps |
| `backend_recovery.dfy`, `backend_restart.dfy` | the restart budget and the deadline-clamped restart |
| `reaper.dfy`, `reaper_plan.dfy` | the zombie reaper's executor and planner |
| `gh_backoff.dfy`, `jit_registration.dfy` | the `gh` retry loop, complete listings and the registration self-heal |
| `outcome_monitor.dfy`, `stable_sort.dfy` | bounded outcome sampling and its verdict |
| `file_system.dfy`, `workspace_prune.dfy`, `pruned_tables.dfy`, `prune_survivors.dfy` | the post-job prune on a file system under interference, and what it leaves of a quiet one |
| `prune_targets.dfy`, `hook_mounts.dfy`, `prune_layout.dfy`, `mountinfo.dfy` | the hook: what it may empty, through which mounts, and the mount table reader |

## What the proofs found

- **A zero-sleep decision.** `IncompleteReadiness` plans no sleep and nothing limits how often it may
  recur (`IncompleteReadinessIsUnpaced`). It is the only such decision: any n iterations with k of them
  plan at least 5 * floor((n - 2k) / 3) seconds (`Pacing`), and for k = 0 the bound is met (`PacingIsTight`).
- **The restart budget is a fixed window.** Six restarts fit in 300 seconds (`SixInFiveMinutes`) and
  in no less (`SixTakeFiveMinutes`); seven never fit in 600 (`AtMostSixPerSlidingWindow`).
- **The restart deadline rests on the probe.** Production restarts keep every deadline iff kill latency and
  one health probe together take at most 5 seconds and the probe alone at most 4 seconds and a nanosecond
  (`ProductionInTimeIff`); `LateProbe` and `LatePoll` are late ones. The production probe
  `docker_reachable` (src/main.rs:197-203) has no timeout, so that bound is the environment's to keep.
- **Loaded ledgers may disagree with themselves.** `validate_persisted` accepts the key `007`, which
  `excluded_slots` reads as slot 7 and `slot_is_open` never finds (`NonCanonicalKeyDisagrees`). The views
  agree iff every open key is canonical (`ViewsAgreeIffCanonical`), as in every recorded ledger.
- **True from the prune may leave entries behind.** An entry whose system call reports
  `FileNotFoundError` while it is still there, say because `fdinfo` could not be found, is passed over
  and not held against the result (`TrueWithASurvivor`). True is the same as nothing else surviving iff,
  when the listing ends and some entry is passed over, some other is held against the result
  (`TrueIffNothingElseSurvives`).
- **A finished job frees its runner only by its first id.** The executor looks at the first job with the
  planned id. A planned job that finishes leads to deletion iff no earlier job of the list carries the
  same id (`FinishingIsTerminalIff`); `RepeatedIdKeepsTheRunner` is such a list.
- **A mount's root stays escaped.** `mount_points` unescapes the mount point and not the root. The root
  is only compared with `/`, for which this makes no difference (`EscapedRootIsRoot`).

## Model

| member | source | states |
|---|---|---|
| FailureLadderModel.FailureLadder.ExpireSlots | src/failure_ladder.rs:283-291 | clears exactly the elapsed slot deadlines, touches nothing else, and reports whether any was elapsed |
| FailureLadderModel.FailureLadder.Expire | src/failure_ladder.rs:281-300 | the whole ledger and transition after clearing every elapsed slot and fleet deadline |
| FailureLadderModel.FailureLadder.RecordFailure | src/failure_ladder.rs:191-229 | an invalid policy changes nothing and is the error; otherwise ledger and transition are those of the value model |
| FailureLadderModel.FailureLadder.RecordSuccess | src/failure_ladder.rs:234-241 | the slot's history is gone, the fleet pause kept, and the transition says whether a slot closed |
| FailureLadderModel.FailureLadder.ExcludedSlots | src/failure_ladder.rs:258-268 | the parsed keys of the open slots, keys that do not parse left out |
| FailureLadderModel.FailureLadder.OpenSlotCount | src/failure_ladder.rs:272-277 | the number of open keys |
| FailureLadderRuns.LedgerRefinesHistory | src/failure_ladder.rs:191-241 | for every ordered run the pruned list is the window of the full history since the last opening or success, and the slot is open iff the history's last deadline is ahead |
| FailureLadderRuns.RecentTwice | src/failure_ladder.rs:202-204 | pruning now and again later equals pruning once later, which is why pruned state can stand for the history |
| FailureLadderRuns.OpensIffHistoryReachesThreshold | src/failure_ladder.rs:201-218 | a failure opens its slot iff the slot is closed and the history's recent failures reach the threshold; the reported count is theirs |
| FailureLadderRuns.FailuresAreConserved | src/failure_ladder.rs:201-218 | threshold times openings plus stored failures never exceeds the failures recorded, for any run and clock |
| FailureLadderRuns.OpeningsAreSpaced | src/failure_ladder.rs:208-218 | two openings of one slot with no success between are a cooldown apart, up to saturation of the deadline |
| FailureLadderRuns.SlotsAreIndependent | src/failure_ladder.rs:187-190 | an event on one slot never changes whether another is open |
| FailureLadderRuns.ExpiryIsInvisible | src/failure_ladder.rs:279-300 | clearing elapsed deadlines changes no query at that time or later |
| FailureLadderRuns.FleetPausedIff | src/failure_ladder.rs:220-227 | the fleet is paused iff some event opened a pause whose own cooldown has not run out: never extended, never shortened |
| FailureLadderRuns.PauseStartsAtAnOpening | src/failure_ladder.rs:220-227 | a pause starts only at a failure that opens a slot, unpaused, with enough distinct slots open |
| FailureLadderRuns.PausesBalance | src/failure_ladder.rs:292-298 | every pause reported opened is reported closed exactly once or still held |
| FailureLadderRuns.RunsAgree | src/failure_ladder.rs:244-277 | in every recorded ledger excluded set, per-slot query and count agree |
| FailureLadderRuns.ViewsAgreeIffCanonical | src/failure_ladder.rs:302-308 | in a loadable ledger they agree iff every open key is canonical decimal |
| FailureLadderRuns.NonCanonicalKeyDisagrees | src/failure_ladder.rs:302-308 | the key `007` passes validation, excludes slot 7 and leaves slot 7 reported closed |
| FailureWindows.StoredFailuresAre | src/failure_ladder.rs:191-241 | for any run and clock, the stored list is the times, in order, of exactly the failures of the slot that no success or opening cleared and no later failure came more than the window after |
| FailureWindows.OpensIffCountReachesThreshold | src/failure_ladder.rs:201-218 | a failure opens its slot iff the slot is closed and the number of its uncleared failures at most the window old, itself included, reaches the threshold; that number is reported |
| FailureWindows.SlotIsOpenIff | src/failure_ladder.rs:244-248 | a slot is open iff an opening with no later success was less than the cooldown ago |
| FailureWindows.PausesFleetIff | src/failure_ladder.rs:220-227 | a failure pauses the fleet iff it opens its slot, the fleet is not paused, and enough distinct slots are then open |
| FailureWindows.FleetIsPausedIff | src/failure_ladder.rs:252-255 | the fleet is paused iff some event paused it less than the fleet cooldown ago |
| FailureWindows.ClosingsAreReported | src/failure_ladder.rs:234-300 | a slot is reported closed iff some deadline has passed or an open slot succeeds, the fleet iff its deadline has passed |
| FailureWindows.PolicyErrors | src/failure_ladder.rs:66-83 | a policy is accepted iff none of its numbers is zero; the error names the first that is |
| Decimal.ParsePrint | src/failure_ladder.rs:201 | parsing a printed u32 gives it back |
| Decimal.PrintInjective | src/failure_ladder.rs:237 | different slots have different keys |
| Decimal.ParseIff | src/failure_ladder.rs:302-308 | a key is a slot iff it is decimal digits of a u32, perhaps after a plus sign |
| ServeLoop.SettlingEpisode.Observe | src/main.rs:822-852 | episode and decision after one poll |
| ServeLoopRuns.PollOutcomes | src/main.rs:822-852 | a poll recovers iff the target is met, and continues iff there is no regression, a poll left and time left |
| ServeLoop.SettlingCeilingState.RecordCeiling | src/main.rs:1070-1105 | ceiling streak and escalation after one ceiling |
| ServeLoopRuns.EscalatesIff | src/main.rs:1070-1105 | over any history a ceiling escalates iff it comes ten minutes after the streak's first and enough such ceilings were counted |
| ServeLoopRuns.RunEscalatesIff | src/main.rs:1485-1772 | in every run of the loop an iteration escalates iff it records a ceiling and the ceilings its history recorded since the last recovery say so |
| ServeLoop.Supervisor.PollSettling | src/main.rs:1492-1583 | next state, sleep and escalation of an iteration that polls |
| ServeLoop.Supervisor.Reconcile | src/main.rs:1584-1735 | next state, sleep and escalation of an iteration that reconciles |
| ServeLoop.Supervisor.ApplyLocalSettlingDecision | src/main.rs:881-899 | what each poll decision does to the episode and the readiness flag |
| ServeLoop.Supervisor.ApplyEnsureSuccessDecision | src/main.rs:1000-1027 | what each reconcile decision does to them; a new episode only for `StartSettling` |
| ServeLoop.Supervisor.Serve | src/main.rs:1485-1772 | state, sleeps and escalations of any number of iterations are those of the step function |
| ServeLoopDecisions.StartsClear | src/main.rs:1474-1477 | the loop starts with nothing to settle, nothing unproven and no ceilings |
| ServeLoopDecisions.WhenPaused | src/main.rs:940-974 | paused admission, before anything else: settling ends, readiness and ceilings stay, the tick of at least five seconds is slept |
| ServeLoopDecisions.WhenCapacityIsLost | src/main.rs:940-974 | lost capacity, for the first time in a row: readiness unproven, a ceiling recorded, no sleep |
| ServeLoopDecisions.WhenSlotsAreReleased | src/main.rs:940-974 | released slots, for the first time in a row: readiness unproven, no ceiling, no sleep |
| ServeLoopDecisions.WhenLostAgain | src/main.rs:985-998 | either of these right after either: a settling episode from the executing count, five seconds |
| ServeLoopDecisions.WhenReadinessFails | src/main.rs:940-974 | a readiness error: readiness unproven, a ceiling recorded, no sleep |
| ServeLoopDecisions.WhenShort | src/main.rs:940-974 | a shortage: a settling episode from count less shortage, five seconds |
| ServeLoopDecisions.WhenFull | src/main.rs:985-1027 | nothing wrong: all cleared and the tick slept, but with readiness unproven a settling episode from zero |
| ServeLoopDecisions.WhenEnsureFails | src/main.rs:1700-1735 | a failed reconcile: state kept but for the repeat flag; eight seconds after a backend restart, else the tick |
| ServeLoopDecisions.WhenSettled | src/main.rs:1492-1583 | a poll that counts every runner ends the episode, proves readiness and clears the ceilings |
| ServeLoopDecisions.WhenStillSettling | src/main.rs:822-852 | a poll short of the target, without regression, before the fifth and within 25 seconds counts itself and sleeps five seconds |
| ServeLoopDecisions.WhenSettlingGivesUp | src/main.rs:1492-1583 | any other poll: readiness unproven, a ceiling recorded, no sleep |
| ServeLoopDecisions.RecordedCeilingIs | src/main.rs:1070-1105 | a ceiling counts only ten minutes or more after the first of its streak, saturating; it escalates iff it counts and the count reaches the threshold, at least one |
| ServeLoopDecisions.CeilingIsRecordedIff | src/main.rs:1485-1735 | exactly which iterations record a ceiling |
| ServeLoopDecisions.RecoveryIsRecordedIff | src/main.rs:1485-1735 | exactly which iterations record a recovery |
| ServeLoopRuns.ReachableStates | src/main.rs:807-1027 | settling implies unproven readiness and a live episode with polls left; so does a shortage streak or a repeated reconcile imply unproven readiness |
| ServeLoopRuns.Pacing | src/main.rs:855-974 | any n iterations, k of them `IncompleteReadiness`, sleep at least 5 * floor((n - 2k) / 3) seconds |
| ServeLoopRuns.NoThreeZeroSleeps | src/main.rs:985-998 | three zero sleeps in a row contain an `IncompleteReadiness` |
| ServeLoopRuns.PacingIsTight | src/main.rs:985-998 | for every n there is a run of 3n iterations that sleeps exactly 5n |
| ServeLoopRuns.IncompleteReadinessIsUnpaced | src/main.rs:961-974 | any number of `IncompleteReadiness` in a row sleeps zero |
| ServeLoopRuns.ReadinessClearedIff | src/main.rs:985-1027 | unproven readiness, and the shortage streak, are cleared exactly by a settling poll that counts the full complement |
| ServeLoopRuns.ReconcilesWithinSixIterations | src/main.rs:790-853 | any six consecutive iterations contain a full reconciliation |
| BackendRecovery.BackendRecoveryState.AllowRestart | src/main.rs:356-413 | budget and answer after one request |
| BackendRecovery.AllowedIff | src/main.rs:356-413 | allowed iff none within 60 seconds and fewer than three in a window of 600 seconds that is not over; what is counted and dated then |
| BackendRecovery.RestartsCoolDown | src/main.rs:312-337 | allowed restarts are at least 60 seconds apart |
| BackendRecovery.AtMostSixPerSlidingWindow | src/main.rs:313-314 | the seventh allowed restart is more than 600 seconds after the first, for any request times |
| BackendRecovery.RestartsSinceCreation | src/main.rs:346-413 | at most 3 * (1 + floor(T / 600 s)) restarts within T of creation |
| BackendRecovery.SixInFiveMinutes | src/main.rs:312-314 | six restarts can be allowed within exactly 300 seconds |
| BackendRecovery.SixTakeFiveMinutes | src/main.rs:312-314 | six allowed restarts never span less than 300 seconds |
| BackendRestart.PollBackendHealthy | src/main.rs:519-533 | unhealthy probes one interval apart and over before the timeout, then one that is healthy or over only once the timeout has run |
| BackendRestart.PollEnds | src/main.rs:519-533 | a poll ends within one interval and one probe of its timeout |
| BackendRestart.AttemptBackendRestartWith | src/main.rs:551-605 | commands in order, each clamped to what is left, until one succeeds, then one poll, clamped to what is left then; ends by max(start, deadline) when the margin suffices, and within the sum of the ceilings without a deadline |
| BackendRestart.RestartIs | src/main.rs:551-605 | command by command: stopping exactly at the first success, when the minimal budget is gone, or when there are no more; restarted iff the poll after a success found the backend healthy |
| BackendRestart.PollIs | src/main.rs:519-533 | probe by probe: over exactly at the first healthy one or the first that outlasts the timeout |
| BackendRestart.RestartTimeoutIs | src/main.rs:480-500 | a command is issued iff the minimal budget is left, with the longest timeout under its ceiling that leaves the margin |
| BackendRestart.HealthPollTimeoutIs | src/main.rs:502-513 | the poll gets the longest timeout under its ceiling that leaves the margin |
| BackendRestart.ProductionTimingIs | src/main.rs:312-337 | the production constants |
| BackendRestart.KeepsDeadline | src/main.rs:480-533 | every restart whose latencies the margin and the minimal budget absorb ends by max(start, deadline) |
| BackendRestart.ProductionInTimeIff | src/main.rs:322-337 | production restarts are always in time iff overrun plus probe take at most 5 s and the probe at most 4 s and 1 ns |
| BackendRestart.LateProbe | src/main.rs:322-337 | a restart that misses its deadline when overrun plus probe take longer |
| BackendRestart.LatePoll | src/main.rs:519-533 | a restart that misses its deadline when the probe takes longer |
| Reaper.PollUntilJobTerminal | src/reaper.rs:243-301 | lookups of the planned run, all in progress but the last, whose sighting is the result |
| Reaper.PollWithEscalation | src/reaper.rs:141-194 | one polling phase, and a second one after an accepted force-cancel exactly if the first only saw the job in progress |
| Reaper.ExecuteReaperPlan | src/reaper.rs:106-207 | the call log is one of the allowed conversations for the reported status, and the reported steps say what was done to the registration |
| Reaper.DeletesOnlyAfterTerminalSighting | src/reaper.rs:243-309 | a delete is last and straight after a lookup whose first job with the planned id is the planned runner's and no longer in progress |
| Reaper.CompletedIffRemoved | src/reaper.rs:195-207 | completed iff the planned registration was removed |
| Reaper.CancelsOnceFirst | src/reaper.rs:106-207 | one cancel, first; nothing after a refused one; at most 2n + 3 requests |
| Reaper.ForceCancelsOnlyAfterFullPoll | src/reaper.rs:141-162 | a force-cancel follows exactly n sightings in progress |
| Reaper.SightingsAre | src/reaper.rs:255-301 | what each lookup means, by the first job with the planned id: running, finished, another runner's, none, or no list |
| Reaper.ForceCancelsOnlyRunningJobs | src/reaper.rs:141-162 | before a force-cancel each of n lookups returned a list whose first job with the planned id is the planned runner's and in progress |
| Reaper.RemovesOnlyFinishedJobs | src/reaper.rs:195-207 | a registration is removed only straight after that job was seen, still the planned runner's, and not in progress |
| Reaper.StatusIsLastCall | src/reaper.rs:106-301 | each status iff the last call says so: refused, failed, missing, another's, still running after both phases, removed or not |
| Reaper.ExecuteReaperPlans | src/reaper.rs:210-232 | a plan for a runner seen before is silent, every other is one conversation |
| Reaper.DuplicatesAre | src/reaper.rs:210-232 | a plan is refused as a duplicate, without a call, iff an earlier one has its runner; every other is one conversation |
| Reaper.ReportIs | src/reaper.rs:106-232 | the last reported step is the deletion as it went, its omission, or the check that failed |
| Reaper.EachRunnerRemovedAtMostOnce | src/reaper.rs:210-232 | over a whole batch each runner is removed at most once, and only if some plan names it |
| Reaper.EachRunnerCancelledAtMostOnce | src/reaper.rs:210-232 | over a whole batch at most one cancel and at most one force-cancel is sent on behalf of each runner |
| ReaperPlanner.PlanOne | src/reaper.rs:404-436 | a plan for one run iff its first job of the runner makes it a zombie |
| ReaperPlanner.PlanReaperActions | src/reaper.rs:383-440 | exactly one plan per zombie triple, in runner, repository, run order |
| ReaperPlanner.ZombieIff | src/reaper.rs:383-466 | who counts as a zombie, written out: busy, prefix and dash, first job of the runner, in progress, labels, age |
| ReaperPlanner.PlansAreOldJobs | src/reaper.rs:383-440 | the plans are exactly the old jobs of the batch, in order, each with the fields of its runner, run and job |
| ReaperPlanner.FinishingIsTerminalIff | src/reaper.rs:304-309 | the planned job finishing is a terminal sighting iff no earlier job carries its id |
| ReaperPlanner.RepeatedIdKeepsTheRunner | src/reaper.rs:304-309 | a planned job that finishes behind another with its id leaves the runner in place |
| ReaperPlanner.FreshPlansCorrelate | src/reaper.rs:455-460 | a fresh plan passes the executor's correlation check while its job runs |
| ReaperPlanner.FinishedJobIsReaped | src/reaper.rs:106-207 | if requests are accepted and the job is seen finished, the runner is removed in three requests |
| GhBackoff.RunGhWithBackoffCapped | src/github.rs:449-496 | one to five calls woven with their sleeps; why it stopped; only the last child overruns the deadline, in capped mode by its overhead alone |
| GhBackoff.AttemptsAre | src/github.rs:449-496 | every trace in numbers: at most five calls, the longest timeouts allowed, only retryable failures slept on, for 2, 4, 8 and 16 seconds or what was asked |
| GhBackoff.StopsOnlyBecause | src/github.rs:464-490 | it stops for an answer that is final, the fifth attempt, or a sleep that would reach the deadline |
| GhBackoff.NextDelay | src/github.rs:454-490 | doubling with the 32 second ceiling gives 2^i seconds before every attempt there is |
| GhBackoff.BackoffPaysForAttempts | src/github.rs:449-496 | reaching attempt a costs at least 2^a - 2 seconds of sleep |
| GhBackoff.WorstCaseSleep | src/github.rs:20-23 | with waits up to 32 seconds all sleeping is at most 128 seconds |
| JitRegistration.VerifySnapshotComplete | src/github.rs:1209-1219 | partial exactly when page 0 promises another total than the pages hold |
| JitRegistration.ListRunners | src/github.rs:1299-1347 | runners only from a listing that was fetched, parsed and complete |
| JitRegistration.GenerateJitconfig | src/github.rs:1074-1148 | the requests sent are one of the allowed conversations for the result |
| JitRegistration.DeletesOnlyReclaimable | src/github.rs:1277-1287 | at most one delete, of a runner with exactly the name, from a complete listing, owned or offline and idle |
| JitRegistration.HolderIsDeletedIff | src/github.rs:1087-1140 | the first holder of the name in a whole listing is deleted iff it is owned, or says offline in any case and is not busy; otherwise it is named in the error |
| JitRegistration.NothingIsDeletedUnseen | src/github.rs:1087-1140 | a listing that is not whole, or without the name, ends the conversation |
| JitRegistration.ListsIffNameExists | src/github.rs:1087-1095 | the holder is looked up iff the refusal says that the name exists |
| JitRegistration.RetriesOnlyAfterDelete | src/github.rs:1087-1148 | at most one second registration, straight after a successful delete |
| JitRegistration.SucceedsIffLastAccepted | src/github.rs:1074-1148 | a registration is returned iff the last request was a registration that was accepted and parsed |
| JitRegistration.ErrorsAre | src/github.rs:1074-1148 | every registration is for the requested name, and each error is what the last call says |
| JitRegistration.LiveSiblingIsSpared | src/github.rs:1087-1110 | the name of a live runner of another host is never taken; the error names its holder |
| OutcomeMonitor.GithubApi.BlockReason | scripts/job_outcome_monitor.py:42-48 | the budget blocks exactly when spent, the deadline exactly when budget is left and the clock has reached it |
| OutcomeMonitor.GithubApi.Get | scripts/job_outcome_monitor.py:50-83 | requests never exceed the budget; a blocked request is not sent; otherwise the result is the meaning of the reply; the deadline flag always has a cause |
| OutcomeMonitor.TakeJob | scripts/job_outcome_monitor.py:200-230 | one job is passed over, appended, or refused with a reason found in it or in an earlier job with its id |
| OutcomeMonitor.ScanJobs | scripts/job_outcome_monitor.py:200-230 | samples stay distinct, in the window and on our runners; an error has its cause; without one every matching job was added |
| OutcomeMonitor.CollectRuns | scripts/job_outcome_monitor.py:134-177 | every candidate is a good run of a received list and every reason has its cause; without a reason, the run list of every repository was received whole or capped and all its runs are candidates |
| OutcomeMonitor.CollectJobs | scripts/job_outcome_monitor.py:179-234 | in every case the job lists of the first candidates were received whole and their jobs taken; without a reason that went on to the target, the budget or the end |
| OutcomeMonitor.CollectOutcomes | scripts/job_outcome_monitor.py:116-252 | every repository is asked unless a request is blocked; bounded, distinct, sorted sample; the completeness flag is exactly no reason, no cap and every candidate scanned; every reason has its cause in the replies, the budget or the deadline |
| OutcomeMonitor.SamplesAreEligible | scripts/job_outcome_monitor.py:200-230 | every sample is a completed job with a conclusion, of a runner named by the prefix alone or the prefix and a dash, that ended in the window; ids are distinct |
| OutcomeMonitor.CandidatesAreCompleted | scripts/job_outcome_monitor.py:155-173 | every candidate is a completed run created in the window |
| OutcomeMonitor.GoodJobIff | scripts/job_outcome_monitor.py:112-113 | which jobs are ours, and which of these are usable |
| OutcomeMonitor.NewestIs | scripts/job_outcome_monitor.py:235-236 | the sample is taken from what was seen, as much as was asked for, latest first |
| OutcomeMonitor.LeftOutIsNoNewer | scripts/job_outcome_monitor.py:235-236 | nothing left out of the sample is newer than anything in it |
| OutcomeMonitor.CleanLogGivesNoReason | scripts/job_outcome_monitor.py:116-252 | with clean replies, no job listed twice, and budget and time left there is no reason |
| OutcomeMonitor.FlawsAre | scripts/job_outcome_monitor.py:155-228 | which flaw of a run or a job gives which reason, the first one found |
| OutcomeMonitor.FaultsAre | scripts/job_outcome_monitor.py:50-199 | which reply gives which reason |
| OutcomeMonitor.CompleteFlagIff | scripts/job_outcome_monitor.py:237-252 | the completeness flag, written out; without it but without a reason the scan stopped at the target or the budget |
| OutcomeMonitor.CompleteMeansEveryRun | scripts/job_outcome_monitor.py:237-252 | a complete collection received the whole job list of every run of every repository |
| OutcomeMonitor.CompleteSampleIsPopulation | scripts/job_outcome_monitor.py:237-252 | a sample short of its target is exactly the jobs on our runners in the scanned runs |
| OutcomeMonitor.CompleteFlagMeansPopulation | scripts/job_outcome_monitor.py:237-252 | when the completeness flag is set, every run of every whole list was scanned, and a sample short of its target is exactly their jobs on our runners |
| OutcomeMonitor.NewestRunsFirst | scripts/job_outcome_monitor.py:178-187 | no run left out is newer than one scanned |
| OutcomeMonitor.RunsAreScannedLatestFirst | scripts/job_outcome_monitor.py:178-180 | no run left out was created later than one scanned; ties go by repository and then id, downwards |
| OutcomeMonitor.VerdictFor | scripts/job_outcome_monitor.py:286-299 | a verdict iff no reason; healthy iff the successes reach the rate, with no division by zero |
| OutcomeMonitor.SuccessesCount | scripts/job_outcome_monitor.py:286-299 | the successes are the sampled jobs concluded "success" |
| OutcomeMonitor.VerdictIsSuccessShare | scripts/job_outcome_monitor.py:286-299 | healthy iff no reason and the number of jobs concluded "success" reaches the minimal share of the sample, unhealthy iff it does not |
| OutcomeMonitor.BuildReport | scripts/job_outcome_monitor.py:255-299 | a verdict iff no reason, and every reason has its cause; a verdict rests on enough jobs and on a collection without a fault, which may have stopped at a run cap or at the request budget |
| StableSort.SortSorted | scripts/job_outcome_monitor.py:235-236 | sorting keeps the elements and orders them, for any strict weak order |
| WorkspacePrune.EmptyDirectory | docker/runner-post-job-workspace-prune.py:120-160 | its system calls are those of a prune for every answer they get; deletions only in reached directories and through the expected mount; on a quiet tree the outcome, every directory left and the frame are exact |
| FileSystems.OpenFollowsNothing | docker/runner-post-job-workspace-prune.py:17 | opening an entry succeeds only for a directory, never through a symbolic link |
| FileSystems.RemovalIsExact | docker/runner-post-job-workspace-prune.py:151-155 | removal takes exactly the named entry, no directory by unlink and none that holds something by rmdir |
| WorkspacePrune.RemoveEntries | docker/runner-post-job-workspace-prune.py:129-160 | the listed names in order, kept ones passed over, up to the recursion limit |
| WorkspacePrune.DeletionsAreReached | docker/runner-post-job-workspace-prune.py:134-150 | whatever the environment does, what is deleted from was reached from the target through directories that were the ones seen, on the expected mount |
| WorkspacePrune.EmptyingIsSafe | docker/runner-post-job-workspace-prune.py:134-150 | and every such descriptor is on the expected mount |
| WorkspacePrune.EmptyingIsExact | docker/runner-post-job-workspace-prune.py:120-160 | for every tree on a quiet file system, the exact outcome, the exact table left behind and its frame |
| WorkspacePrune.RemoveEntry | docker/runner-post-job-workspace-prune.py:131-159 | the calls one entry leads to and its result, for every answer |
| WorkspacePrune.EntryIsExact | docker/runner-post-job-workspace-prune.py:131-159 | on a quiet directory, what happens to the entry, to its directory and to nothing else |
| WorkspacePrune.RemoveSubdirectory | docker/runner-post-job-workspace-prune.py:136-152 | for every answer, a directory is entered only if what was opened is what was seen, on this device and mount, and removed only after a descent that emptied it |
| PruneSurvivors.SurvivorsAre | docker/runner-post-job-workspace-prune.py:120-160 | exactly the kept, unlisted, untouchable, foreign and held-back entries survive |
| PruneSurvivors.FatesAre | docker/runner-post-job-workspace-prune.py:132-159 | an entry is passed over, or held against the result, exactly by the first of its system calls that fails and how |
| PruneSurvivors.TrueMeans | docker/runner-post-job-workspace-prune.py:156-160 | True iff the listing ended and every surviving non-kept entry was passed over as not found |
| PruneSurvivors.TrueIffNothingElseSurvives | docker/runner-post-job-workspace-prune.py:156-160 | exactly when True is the same as nothing but kept entries surviving: unless the listing ends, some entry is passed over and none is held against the result |
| PruneSurvivors.TrueWithASurvivor | docker/runner-post-job-workspace-prune.py:156-158 | with one, a full subdirectory survives and the result is True |
| PruneSurvivors.PruningAgainChangesNothing | docker/runner-post-job-workspace-prune.py:120-160 | a second prune changes no directory and has the same result |
| PruneTargets.OpenDirectory | docker/runner-post-job-workspace-prune.py:24-35 | every component was opened relative to the one before, up to the first that does not open, whatever happens in between |
| PruneTargets.CleanTarget | docker/runner-post-job-workspace-prune.py:163-180 | its calls for every answer; deletions only below a descriptor the path led to, through the work mount or, for a cache, a snapshot entry that is exactly this path's whole tmpfs; on a quiet tree, the exact result |
| PruneTargets.PinWorkMount | docker/runner-post-job-workspace-prune.py:183-197 | a pinned mount is the one the work root was opened through, read before the snapshot, and one the snapshot knows |
| PruneTargets.CleanTargets | docker/runner-post-job-workspace-prune.py:202-214 | every target in order by its own run of the cleaning, and the status from their results |
| PruneTargets.Hook | docker/runner-post-job-workspace-prune.py:183-218 | for every answer of every call, what was pinned, and every target cleaned by its own safe run through the pinned mount or its own tmpfs; on a quiet file system exactly what it does |
| PruneTargets.HookIsSafe | docker/runner-post-job-workspace-prune.py:163-217 | nothing is deleted before pinning is done, and then only by safe runs through the mount of the work root or a cache's own whole tmpfs |
| PruneTargets.HookIsExact | docker/runner-post-job-workspace-prune.py:183-218 | on a quiet file system: unverified, without any change, exactly when nothing can be pinned; else all targets laid out apart are pruned exactly, nothing else changes, and completed iff every one was clean |
| HookMounts.AcceptedIff | docker/runner-post-job-workspace-prune.py:172-175 | a target may be emptied through the work mount or, a cache, through a mount listed as a whole tmpfs at the cache's own path |
| HookMounts.HookDeletesOnlyThroughOwnMounts | docker/runner-post-job-workspace-prune.py:163-217 | whatever the environment does, every deletion is below the directory that /home/runner/_work and the target's name led to, through the pinned mount or such a tmpfs |
| HookMounts.PinningDeletesNothing | docker/runner-post-job-workspace-prune.py:183-197 | nothing is deleted before |
| HookMounts.QuietCleaningIsPruningIff | docker/runner-post-job-workspace-prune.py:163-180 | on a quiet file system a target is pruned through its own mount, and refused and untouched through any other |
| HookMounts.QuietHookPrunesIff | docker/runner-post-job-workspace-prune.py:183-218 | the same for the whole hook: its own mount and it is pruned, another and the hook reports that something was left |
| HookMounts.QuietlyPinnedIff | docker/runner-post-job-workspace-prune.py:183-197 | what is pinned on a quiet file system |
| HookMounts.TargetIsCleanIff | docker/runner-post-job-workspace-prune.py:176-180 | a target is clean iff it is not there, or is pruned through its own mount with True or itself not found |
| HookMounts.HookStatusIs | docker/runner-post-job-workspace-prune.py:200-217 | completed iff all four targets returned True, interrupted iff the last met the recursion limit |
| PruneLayout.StandardLayout | docker/runner-post-job-workspace-prune.py:16-22 | the directories the runner image sets up are laid out apart |
| PruneLayout.NestedIsTree | docker/runner-post-job-workspace-prune.py:120-160 | a directory with two subdirectories, one holding a symbolic link, is a tree in the sense of the exact theorems |
| Mountinfo.MountPoints | docker/runner-post-job-workspace-prune.py:38-55 | reads the table line by line; the first line that does not parse or repeats an id is the error, and a missing root is one |
| Mountinfo.ReadTableIsReading | docker/runner-post-job-workspace-prune.py:38-55 | for any text, a snapshot iff every line parses, no id repeats and a root is mounted, and then exactly one mount per line |
| Mountinfo.ParseLineIff | docker/runner-post-job-workspace-prune.py:42-51 | any line: which of separator, word counts, absolute path and positive id fails first is the error, and without one the entry |
| Mountinfo.SplitOnceIs | docker/runner-post-job-workspace-prune.py:42 | a line is cut around its first separator |
| Mountinfo.WordsAreWords | docker/runner-post-job-workspace-prune.py:43 | no word is empty or holds white space |
| Mountinfo.SpacesAre | docker/runner-post-job-workspace-prune.py:41-43 | the code points that cut lines and words |
| Mountinfo.SplitLinesIs | docker/runner-post-job-workspace-prune.py:41 | a text is cut at every line break, nothing following the last |
| Mountinfo.SplitLinesAtBoth | docker/runner-post-job-workspace-prune.py:41 | a carriage return and a line feed together are one break |
| Mountinfo.UnescapeIs | docker/runner-post-job-workspace-prune.py:46 | a backslash and three octal digits stand for one character, anything else for itself |
| Mountinfo.PythonDigitsIff | docker/runner-post-job-workspace-prune.py:49 | which texts are digits to `int`: single underscores only strictly inside |
| Mountinfo.ParseIntOfOther | docker/runner-post-job-workspace-prune.py:49 | no text but such digits, perhaps signed, is a number |
| Mountinfo.ReadPrinted | docker/runner-post-job-workspace-prune.py:38-55 | reading a printed table is accepted iff its ids are positive and distinct and a root is mounted, and gives the table back |
| Mountinfo.ParsePrintLine | docker/runner-post-job-workspace-prune.py:42-51 | one printed line reads back as its entry |
| Mountinfo.UnescapeEscape | docker/runner-post-job-workspace-prune.py:46 | unescaping undoes escaping, for every path |
| Mountinfo.WordsOfJoin | docker/runner-post-job-workspace-prune.py:43 | splitting joined words gives them back |
| Mountinfo.SplitOnceOfJoin | docker/runner-post-job-workspace-prune.py:42 | the separator found is the one written, whatever the fields before and after it |
| Mountinfo.EscapedRootIsRoot | docker/runner-post-job-workspace-prune.py:53 | leaving the root escaped never makes it look like `/` |

## Left out

- Process spawning, pipes, signals, sd_notify, locks, mail and HTTP: only the timing contract each call offers its caller is kept. Sleeps advance the clock exactly.
- Configuration parsing, JSON and TOML, persistence by atomic rename: the structures in memory are modelled, and malformed values are cases of a datatype.
- `src/docker_backend.rs` and `src/queue_monitor.rs` are not part of this model: probes, `ensure_count` outcomes and timestamp parsing are arbitrary input.
- The text matching of `classify_retry_delay` (src/github.rs:359-393): the delay it finds is arbitrary.
- Alerts, monitor dispatch, the failure streak and the dead-man credit of the serve loop: they do not feed back into its control state. Shutdown only ends the run.
- Error detail strings, printed lines and log messages; the reaper's step details; the outcome monitor's report fields other than sample, coverage and verdict.
- `job_workspace` (docker/runner-post-job-workspace-prune.py:73-117): whether it vouches for a repository directory is a parameter.
- Configuration validation, backend selection, service files, the watchdog, quarantine, canary and convergence code, dashboards and shell scripts: guards, rendering or small map updates that would only add easy members.
- PollBackendHealthy: a zero poll interval together with probes that take no time is excluded: the source would spin where the model's clock stands still.
- EmptyDirectory: Python's recursion limit is the parameter `depth`; the exact result is stated for trees that fit it, safety for all. Directory names are read in one listing at the start, where the source reads them lazily.
- EmptyDirectory: what each system call on an entry answers is fixed per entry on a quiet file system; interference is a replacement of the whole table between calls.
- OpenDirectory: the descriptor of `/` is a parameter; paths are sequences of components as the kernel normalizes them; `pathlib` normalization is not modelled.
- ReadPrinted: tables whose fields are empty or hold Unicode white space beyond space, tab and newline are outside its precondition; `int()` on non-ASCII digits and UTF-8 decoding are not modelled. ReadTableIsReading states acceptance for any text.
- VerdictFor: the success rate is a real, so rounding of the division is not modelled.
- FailureLadderModel.FailureLadder.Expire: the source walks a `BTreeMap` in key order, the model in any order; nothing proved depends on it.
