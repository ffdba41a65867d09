/**
 One iteration of the serve loop, branch by branch: the next settling episode, readiness flag, repeated
 reconcile flag, ceilings and sleep for every outcome, in the order of precedence.
 */
module ServeLoopDecisions {
  import opened Wrappers
  import opened ServeLoop

  const SECONDS: nat := 1_000_000_000

  /** The pause after a successful iteration: the configured tick, and never less than five seconds. */
  function Tick5(cfg: Config): nat {
    if cfg.serveTickSeconds < 5 then 5 else cfg.serveTickSeconds
  }

  function StillExecuting(cfg: Config, o: EnsureOutcome): int {
    cfg.count - o.remainingShortage
  }

  /** A ceiling was recorded: counted only ten minutes or more after the first of its streak, which is kept. */
  predicate CeilingIsRecorded(before: Ceilings, after: Ceilings, at: nat) {
    && after.shortfallSince.Some?
    && after.shortfallSince.value == (if before.shortfallSince.Some? then before.shortfallSince.value else at)
    && after.consecutive == (if at < after.shortfallSince.value + 600 * SECONDS then before.consecutive
                             else if before.consecutive < 0xFFFF_FFFF then before.consecutive + 1
                             else 0xFFFF_FFFF)
  }

  lemma RecordedCeilingIs(c: Ceilings, threshold: nat, at: nat)
    ensures CeilingIsRecorded(c, CeilingRecorded(c, threshold, at).0, at)
    ensures CeilingRecorded(c, threshold, at).1 <==>
            var after := CeilingRecorded(c, threshold, at).0;
            at >= after.shortfallSince.value + 600 * SECONDS && after.consecutive >= threshold && after.consecutive >= 1
  {
  }

  /** The loop starts with nothing to settle, nothing unproven and no ceilings. */
  lemma StartsClear()
    ensures Initial == State(None, false, false, Ceilings(0, None))
  {
  }

  /** The next iteration settles, from the given number of executing runners. */
  predicate StartsSettling(s: State, s': State, now: nat, executing: nat) {
    s' == State(Some(Episode(Some(now), 0, executing, 0)), true, false, s.ceilings)
  }

  /** Admission paused: settling ends, the readiness flag and the ceilings stay, and the tick is slept. */
  lemma WhenPaused(cfg: Config, s: State, t: Tick)
    requires s.settling.None? && t.reply.Ensured? && t.reply.outcome.admissionPausedReason.Some?
    ensures Step(cfg, s, t) == (State(None, s.pendingReadiness, false, s.ceilings), Tick5(cfg))
  {
  }

  /** Capacity lost, for the first time in a row: an unproven readiness, a recorded ceiling, and no sleep. */
  lemma WhenCapacityIsLost(cfg: Config, s: State, t: Tick)
    requires s.settling.None? && t.reply.Ensured? && !s.previousImmediate
    requires var o := t.reply.outcome;
             o.admissionPausedReason.None? && o.capacityLost != []
    ensures var (s', sleep) := Step(cfg, s, t);
            && sleep == 0 && s'.settling.None? && s'.pendingReadiness && s'.previousImmediate
            && CeilingIsRecorded(s.ceilings, s'.ceilings, t.recordedAt)
  {
  }

  /** Slots released, for the first time in a row: an unproven readiness, no ceiling, and no sleep. */
  lemma WhenSlotsAreReleased(cfg: Config, s: State, t: Tick)
    requires s.settling.None? && t.reply.Ensured? && !s.previousImmediate
    requires var o := t.reply.outcome;
             o.admissionPausedReason.None? && o.capacityLost == [] && o.slotsReleased != []
    ensures Step(cfg, s, t) == (State(None, true, true, s.ceilings), 0)
  {
  }

  /** Either of the two, right after either: a settling episode from what is executing, and five seconds. */
  lemma WhenLostAgain(cfg: Config, s: State, t: Tick)
    requires s.settling.None? && t.reply.Ensured? && s.previousImmediate
    requires var o := t.reply.outcome;
             o.admissionPausedReason.None? && (o.capacityLost != [] || o.slotsReleased != [])
    ensures var (s', sleep) := Step(cfg, s, t);
            var executing := StillExecuting(cfg, t.reply.outcome);
            sleep == 5 && StartsSettling(s, s', t.now, if executing < 0 then 0 else executing)
  {
  }

  /** Readiness could not be established: unproven, a recorded ceiling, and no sleep. */
  lemma WhenReadinessFails(cfg: Config, s: State, t: Tick)
    requires s.settling.None? && t.reply.Ensured?
    requires var o := t.reply.outcome;
             o.admissionPausedReason.None? && o.capacityLost == [] && o.slotsReleased == [] && o.readinessError.Some?
    ensures var (s', sleep) := Step(cfg, s, t);
            && sleep == 0 && s'.settling.None? && s'.pendingReadiness && !s'.previousImmediate
            && CeilingIsRecorded(s.ceilings, s'.ceilings, t.recordedAt)
  {
  }

  /** A shortage: a settling episode from the runners that are not missing, and five seconds. */
  lemma WhenShort(cfg: Config, s: State, t: Tick)
    requires s.settling.None? && t.reply.Ensured?
    requires var o := t.reply.outcome;
             && o.admissionPausedReason.None? && o.capacityLost == [] && o.slotsReleased == []
             && o.readinessError.None? && o.remainingShortage > 0
    ensures var (s', sleep) := Step(cfg, s, t);
            var executing := StillExecuting(cfg, t.reply.outcome);
            sleep == 5 && StartsSettling(s, s', t.now, if executing < 0 then 0 else executing)
  {
  }

  /** Nothing wrong: recovered, unless readiness is still unproven, which starts a settling episode at zero. */
  lemma WhenFull(cfg: Config, s: State, t: Tick)
    requires s.settling.None? && t.reply.Ensured?
    requires var o := t.reply.outcome;
             && o.admissionPausedReason.None? && o.capacityLost == [] && o.slotsReleased == []
             && o.readinessError.None? && o.remainingShortage == 0
    ensures var (s', sleep) := Step(cfg, s, t);
            if s.pendingReadiness then sleep == 5 && StartsSettling(s, s', t.now, 0)
            else sleep == Tick5(cfg) && s' == State(None, false, false, Ceilings(0, None))
  {
  }

  /** A failed reconcile: nothing changes but the repeated-reconcile flag; eight seconds after a backend restart. */
  lemma WhenEnsureFails(cfg: Config, s: State, t: Tick)
    requires s.settling.None? && t.reply.EnsureFailed?
    ensures Step(cfg, s, t) ==
            (s.(previousImmediate := false), if t.reply.backendRestarted then 8 else Tick5(cfg))
  {
  }

  /** A poll that sees every runner ready ends the episode, proves readiness and clears the ceilings. */
  lemma WhenSettled(cfg: Config, s: State, t: Tick)
    requires s.settling.Some? && s.settling.value.startedAt.Some? && t.probe.Counted? && t.probe.ready >= cfg.count
    ensures Step(cfg, s, t) == (State(None, false, s.previousImmediate, Ceilings(0, None)), Tick5(cfg))
  {
  }

  /** The poll keeps the episode: no container gone, no regression, fewer than five polls and 25 seconds. */
  predicate KeepsSettling(cfg: Config, e: Episode, t: Tick) {
    && t.probe.Counted? && t.probe.absent == [] && e.startedAt.Some?
    && e.bestExecuting <= t.probe.ready < cfg.count
    && e.attempts + 1 < 5 && t.now < e.startedAt.value + 25 * SECONDS
  }

  /** Such a poll counts itself, and what it saw, and sleeps five seconds. */
  lemma WhenStillSettling(cfg: Config, s: State, t: Tick)
    requires s.settling.Some? && KeepsSettling(cfg, s.settling.value, t)
    ensures var e := s.settling.value;
            var (s', sleep) := Step(cfg, s, t);
            && sleep == 5
            && s' == s.(settling := Some(Episode(
                          e.startedAt, e.attempts + 1, t.probe.ready,
                          if t.probe.ready > e.bestExecuting then 0 else e.stagnantPolls + 1)))
  {
  }

  /** Any other poll gives up: readiness unproven, a ceiling recorded, and no sleep. */
  lemma WhenSettlingGivesUp(cfg: Config, s: State, t: Tick)
    requires s.settling.Some? && !KeepsSettling(cfg, s.settling.value, t)
    requires !(t.probe.Counted? && t.probe.ready >= cfg.count && s.settling.value.startedAt.Some?)
    ensures var (s', sleep) := Step(cfg, s, t);
            && sleep == 0 && s'.settling.None? && s'.pendingReadiness && s'.previousImmediate == s.previousImmediate
            && CeilingIsRecorded(s.ceilings, s'.ceilings, t.recordedAt)
  {
  }

  /** An iteration escalates iff the ceiling it records counts and the count reaches the threshold, at least one. */
  lemma WhenEscalating(cfg: Config, s: State, t: Tick)
    ensures var s' := Step(cfg, s, t).0;
            Escalates(cfg, s, t) <==>
            && CeilingIsRecorded(s.ceilings, s'.ceilings, t.recordedAt)
            && t.recordedAt >= s'.ceilings.shortfallSince.value + 600 * SECONDS
            && s'.ceilings.consecutive >= cfg.failureAlertThreshold && s'.ceilings.consecutive >= 1
            && RecordsCeiling(cfg, s, t)
  {
  }

  /** A ceiling is recorded by a poll that gives up, a first loss of capacity, or a failed readiness; by nothing else. */
  lemma CeilingIsRecordedIff(cfg: Config, s: State, t: Tick)
    ensures RecordsCeiling(cfg, s, t) <==>
            if s.settling.Some? then
              && !KeepsSettling(cfg, s.settling.value, t)
              && !(t.probe.Counted? && t.probe.ready >= cfg.count && s.settling.value.startedAt.Some?)
            else
              && t.reply.Ensured? && t.reply.outcome.admissionPausedReason.None?
              && var o := t.reply.outcome;
              || (o.capacityLost != [] && !s.previousImmediate)
              || (o.capacityLost == [] && o.slotsReleased == [] && o.readinessError.Some?)
  {
  }

  /** A recovery is recorded by a settled poll or a full reconciliation with readiness proven; by nothing else. */
  lemma RecoveryIsRecordedIff(cfg: Config, s: State, t: Tick)
    ensures RecordsRecovery(cfg, s, t) <==>
            if s.settling.Some? then
              t.probe.Counted? && t.probe.ready >= cfg.count && s.settling.value.startedAt.Some?
            else
              && t.reply.Ensured? && !s.pendingReadiness
              && t.reply.outcome == EnsureOutcome(None, [], [], None, 0)
  {
  }
}
