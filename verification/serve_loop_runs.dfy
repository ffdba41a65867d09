/** What the serve loop promises over whole runs: pacing, readiness evidence, bounded settling, honest escalation. */
module ServeLoopRuns {
  import opened Wrappers
  import opened ServeLoop

  /** Holds in every reachable state. */
  predicate Inv(s: State) {
    && (s.settling.Some? ==>
          && s.pendingReadiness
          && !s.previousImmediate
          && s.settling.value.startedAt.Some?
          && s.settling.value.attempts < MAX_SETTLING_POLLS)
    && (s.previousImmediate ==> s.pendingReadiness)
    && (s.ceilings.shortfallSince.Some? ==> s.pendingReadiness)
  }

  lemma {:induction false} InvHolds(cfg: Config, s: State, ts: seq<Tick>)
    requires Inv(s)
    ensures Inv(After(cfg, s, ts))
    decreases |ts|
  {
    if ts != [] {
      InvHolds(cfg, Step(cfg, s, ts[0]).0, ts[1..]);
    }
  }

  /** Every reachable settling state has unproven readiness and a live episode with polls left. */
  lemma {:induction false} ReachableStates(cfg: Config, ts: seq<Tick>)
    ensures Inv(After(cfg, Initial, ts))
  {
    InvHolds(cfg, Initial, ts);
  }

  // ----- Pacing ------------------------------------------------------------------------------

  predicate IsIncomplete(cfg: Config, s: State, t: Tick) {
    s.settling.None? && t.reply.Ensured? && Decision(cfg, s, t.reply.outcome).IncompleteReadiness?
  }

  /** Effective `IncompleteReadiness` decisions in a run. */
  function Incompletes(cfg: Config, s: State, ts: seq<Tick>): nat
    decreases |ts|
  {
    if ts == [] then 0
    else (if IsIncomplete(cfg, s, ts[0]) then 1 else 0) + Incompletes(cfg, Step(cfg, s, ts[0]).0, ts[1..])
  }

  function Sum(ns: seq<nat>): nat {
    if ns == [] then 0 else ns[0] + Sum(ns[1..])
  }

  /** How many further zero sleeps the state allows before a paced iteration, `IncompleteReadiness` aside. */
  function Slack(s: State): nat {
    if s.settling.Some? then 2 else if s.previousImmediate then 0 else 1
  }

  lemma StepSlack(cfg: Config, s: State, t: Tick)
    requires Inv(s)
    ensures var (s', sleep) := Step(cfg, s, t);
            && Inv(s')
            && (sleep == 0 || sleep >= MIN_SERVE_TICK_SECONDS)
            && (IsIncomplete(cfg, s, t) ==> sleep == 0 && Slack(s') <= Slack(s) + 1)
            && (sleep == 0 && !IsIncomplete(cfg, s, t) ==> Slack(s') < Slack(s))
  {
  }

  lemma {:induction false} SlackPays(cfg: Config, s: State, ts: seq<Tick>) returns (paced: nat)
    requires Inv(s)
    ensures 3 * paced >= |ts| - 2 * Incompletes(cfg, s, ts) - Slack(s)
    ensures Sum(Sleeps(cfg, s, ts)) >= 5 * paced
    decreases |ts|
  {
    if ts == [] {
      return 0;
    }
    StepSlack(cfg, s, ts[0]);
    var (s', sleep) := Step(cfg, s, ts[0]);
    paced := SlackPays(cfg, s', ts[1..]);
    assert Sleeps(cfg, s, ts)[1..] == Sleeps(cfg, s', ts[1..]);
    if sleep > 0 {
      paced := paced + 1;
    }
  }

  lemma {:induction false} PacingFrom(cfg: Config, s: State, ts: seq<Tick>)
    requires Inv(s)
    ensures Sum(Sleeps(cfg, s, ts)) >= 5 * ((|ts| - 2 * Incompletes(cfg, s, ts)) / 3)
  {
    var paced := SlackPays(cfg, s, ts);
    var n := |ts| - 2 * Incompletes(cfg, s, ts);
    assert 3 * paced >= n - 2;
    assert paced >= n / 3;
  }

  /**
   Any `n` consecutive iterations of any run, `k` of them effective `IncompleteReadiness`
   decisions, plan at least 5 * floor((n - 2k) / 3) seconds of sleep.
   */
  lemma {:induction false} Pacing(cfg: Config, earlier: seq<Tick>, ts: seq<Tick>)
    ensures var s := After(cfg, Initial, earlier);
            Sum(Sleeps(cfg, s, ts)) >= 5 * ((|ts| - 2 * Incompletes(cfg, s, ts)) / 3)
  {
    ReachableStates(cfg, earlier);
    PacingFrom(cfg, After(cfg, Initial, earlier), ts);
  }

  /** Three consecutive zero sleeps always contain an effective `IncompleteReadiness` decision. */
  lemma {:induction false} NoThreeZeroSleeps(cfg: Config, earlier: seq<Tick>, ts: seq<Tick>)
    requires |ts| == 3 && Sleeps(cfg, After(cfg, Initial, earlier), ts) == [0, 0, 0]
    ensures Incompletes(cfg, After(cfg, Initial, earlier), ts) > 0
  {
    Pacing(cfg, earlier, ts);
    assert Sum([0, 0, 0]) == 0;
  }

  const Lost := EnsureOutcome(None, ["slot"], [], None, 0)
  const Unready := EnsureOutcome(None, [], [], Some("probe"), 0)

  function Poll(): Tick {
    Tick(0, 0, ProbeFailed, EnsureFailed(false))
  }

  function Refill(): Tick {
    Tick(0, 0, ProbeFailed, Ensured(Lost))
  }

  function Cycle(n: nat): seq<Tick> {
    if n == 0 then []
    else [Poll(), Refill(), Refill()] + Cycle(n - 1)
  }

  lemma {:induction false} CycleSleeps(cfg: Config, s: State, n: nat)
    requires s.settling.Some? && Inv(s)
    ensures |Cycle(n)| == 3 * n && Incompletes(cfg, s, Cycle(n)) == 0
    ensures Sum(Sleeps(cfg, s, Cycle(n))) == 5 * n
    decreases n
  {
    if n > 0 {
      var ts := Cycle(n);
      var s1, s2, s3 := CycleOnce(cfg, s, Cycle(n - 1));
      CycleSleeps(cfg, s3, n - 1);
    }
  }

  lemma {:induction false} SumCons(n: nat, ns: seq<nat>)
    ensures Sum([n] + ns) == n + Sum(ns)
  {
    assert ([n] + ns)[1..] == ns;
  }

  lemma {:induction false} OneStep(cfg: Config, s: State, t: Tick, ts: seq<Tick>)
    ensures var (s', sleep) := Step(cfg, s, t);
            && Sum(Sleeps(cfg, s, [t] + ts)) == sleep + Sum(Sleeps(cfg, s', ts))
            && Incompletes(cfg, s, [t] + ts) == (if IsIncomplete(cfg, s, t) then 1 else 0) + Incompletes(cfg, s', ts)
  {
    assert ([t] + ts)[1..] == ts;
    SumCons(Step(cfg, s, t).1, Sleeps(cfg, Step(cfg, s, t).0, ts));
  }

  lemma CycleOnce(cfg: Config, s: State, ts: seq<Tick>) returns (s1: State, s2: State, s3: State)
    requires s.settling.Some? && Inv(s)
    ensures s3.settling.Some? && Inv(s3)
    ensures var three := [Poll(), Refill(), Refill()] + ts;
            && Sum(Sleeps(cfg, s, three)) == 5 + Sum(Sleeps(cfg, s3, ts))
            && Incompletes(cfg, s, three) == Incompletes(cfg, s3, ts)
  {
    s1 := Step(cfg, s, Poll()).0;
    s2 := Step(cfg, s1, Refill()).0;
    s3 := Step(cfg, s2, Refill()).0;
    OneStep(cfg, s, Poll(), [Refill(), Refill()] + ts);
    OneStep(cfg, s1, Refill(), [Refill()] + ts);
    OneStep(cfg, s2, Refill(), ts);
    assert [Poll()] + ([Refill(), Refill()] + ts) == [Poll(), Refill(), Refill()] + ts;
    assert [Refill()] + ([Refill()] + ts) == [Refill(), Refill()] + ts;
  }

  /** The bound is met with equality: after one shortage, failed probes and repeated capacity losses sleep 5n over 3n. */
  lemma {:induction false} PacingIsTight(cfg: Config, n: nat)
    ensures var s := After(cfg, Initial, [Tick(0, 0, ProbeFailed, Ensured(EnsureOutcome(None, [], [], None, 1)))]);
            |Cycle(n)| == 3 * n && Incompletes(cfg, s, Cycle(n)) == 0 && Sum(Sleeps(cfg, s, Cycle(n))) == 5 * n
  {
    var first := Tick(0, 0, ProbeFailed, Ensured(EnsureOutcome(None, [], [], None, 1)));
    assert After(cfg, Initial, [first]) == Step(cfg, Initial, first).0;
    CycleSleeps(cfg, Step(cfg, Initial, first).0, n);
  }

  function Unreadies(n: nat): seq<Tick> {
    if n == 0 then [] else [Tick(0, 0, ProbeFailed, Ensured(Unready))] + Unreadies(n - 1)
  }

  /** `IncompleteReadiness` itself is not paced: any number of them in a row sleeps zero seconds. */
  lemma {:induction false} IncompleteReadinessIsUnpaced(cfg: Config, s: State, n: nat)
    requires s.settling.None?
    ensures Sum(Sleeps(cfg, s, Unreadies(n))) == 0 && Incompletes(cfg, s, Unreadies(n)) == n
    decreases n
  {
    if n > 0 {
      var t := Tick(0, 0, ProbeFailed, Ensured(Unready));
      OneStep(cfg, s, t, Unreadies(n - 1));
      IncompleteReadinessIsUnpaced(cfg, Step(cfg, s, t).0, n - 1);
    }
  }

  // ----- Readiness evidence --------------------------------------------------------------------

  /**
   Unproven readiness, and with it the shortage streak behind escalation, is cleared exactly by a
   settling poll that counts the full complement ready; a full-container reconciliation alone never
   clears either.
   */
  lemma {:induction false} ReadinessClearedIff(cfg: Config, earlier: seq<Tick>, t: Tick)
    ensures var s := After(cfg, Initial, earlier);
            var s' := Step(cfg, s, t).0;
            var proven := s.settling.Some? && t.probe.Counted? && t.probe.ready >= cfg.count;
            && (s.pendingReadiness && !s'.pendingReadiness <==> proven)
            && (s.ceilings.shortfallSince.Some? ==> (s'.ceilings == NoCeilings <==> proven))
  {
    ReachableStates(cfg, earlier);
  }

  // ----- Bounded settling ------------------------------------------------------------------------

  lemma {:induction false} EpisodeEnds(cfg: Config, s: State, ts: seq<Tick>) returns (i: nat)
    requires Inv(s)
    requires |ts| >= if s.settling.Some? then MAX_SETTLING_POLLS - s.settling.value.attempts else 0
    ensures i <= |ts| && i <= MAX_SETTLING_POLLS && After(cfg, s, ts[..i]).settling.None?
    ensures s.settling.Some? ==> i <= MAX_SETTLING_POLLS - s.settling.value.attempts
    decreases |ts|
  {
    if s.settling.None? {
      return 0;
    }
    var s' := Step(cfg, s, ts[0]).0;
    StepSlack(cfg, s, ts[0]);
    var j := EpisodeEnds(cfg, s', ts[1..]);
    assert ts[..j + 1][1..] == ts[1..][..j];
    if s'.settling.None? {
      assert ts[..1][1..] == [];
      assert After(cfg, s, ts[..1]) == s';
      return 1;
    }
    return j + 1;
  }

  /** Among any six consecutive iterations of any run at least one is a full reconciliation. */
  lemma {:induction false} ReconcilesWithinSixIterations(cfg: Config, earlier: seq<Tick>, ts: seq<Tick>)
    requires |ts| == 6
    ensures exists i :: 0 <= i < 6 && After(cfg, After(cfg, Initial, earlier), ts[..i]).settling.None?
  {
    ReachableStates(cfg, earlier);
    var i := EpisodeEnds(cfg, After(cfg, Initial, earlier), ts);
  }

  /** A poll keeps the episode alive iff it is short of the target without a regression, in budget and in time. */
  lemma PollOutcomes(e: Episode, now: nat, executing: nat, target: nat)
    ensures var (e', d) := Observed(e, now, executing, target);
            && (d.Recovered? <==> e.startedAt.Some? && executing >= target)
            && (d.Continue? <==>
                && e.startedAt.Some? && e.bestExecuting <= executing < target
                && e.attempts + 1 < MAX_SETTLING_POLLS && Since(now, e.startedAt.value) < MAX_SETTLING_DURATION)
            && (d.Continue? ==> e'.bestExecuting == executing && e'.startedAt == e.startedAt)
            && (!d.Continue? ==> e'.startedAt.None?)
  {
  }

  // ----- Escalation ------------------------------------------------------------------------------

  datatype CeilingEvent = Short(at: nat) | Whole

  function CeilingRun(es: seq<CeilingEvent>): Ceilings {
    if es == [] then NoCeilings
    else
      match es[|es| - 1]
      case Whole => NoCeilings
      case Short(at) => CeilingRecorded(CeilingRun(es[..|es| - 1]), 0, at).0
  }

  /** The instants of the ceilings since the last recovery. */
  function Streak(es: seq<CeilingEvent>): seq<nat> {
    if es == [] then []
    else
      match es[|es| - 1]
      case Whole => []
      case Short(at) => Streak(es[..|es| - 1]) + [at]
  }

  /** Ceilings of a streak at least ten minutes after its first one. */
  function Sustained(streak: seq<nat>): (n: nat)
    ensures n <= |streak|
  {
    if streak == [] then 0
    else Sustained(streak[..|streak| - 1]) +
         (if Since(streak[|streak| - 1], streak[0]) >= SETTLING_CEILING_MIN_SUSTAIN then 1 else 0)
  }

  function Capped(n: nat): nat {
    if n <= U32_MAX then n else U32_MAX
  }

  lemma {:induction false} CeilingsRefineStreak(es: seq<CeilingEvent>)
    ensures CeilingRun(es) ==
            Ceilings(Capped(Sustained(Streak(es))), if Streak(es) == [] then None else Some(Streak(es)[0]))
  {
    if es != [] && es[|es| - 1].Short? {
      var front := es[..|es| - 1];
      CeilingsRefineStreak(front);
      assert Streak(es)[..|Streak(es)| - 1] == Streak(front);
    }
  }

  /**
   For every event history, clock and u32 threshold: a ceiling escalates iff it falls ten minutes or
   more after the first ceiling since the last recovery and, counted with the earlier ones that did,
   reaches the threshold.
   */
  lemma {:induction false} EscalatesIff(es: seq<CeilingEvent>, at: nat, threshold: nat)
    requires threshold <= U32_MAX
    ensures var streak := Streak(es + [Short(at)]);
            CeilingRecorded(CeilingRun(es), threshold, at).1 <==>
            Since(at, streak[0]) >= SETTLING_CEILING_MIN_SUSTAIN && Sustained(streak) >= AtLeastOne(threshold)
  {
    CeilingsRefineStreak(es);
    assert (es + [Short(at)])[..|es|] == es;
    var streak := Streak(es + [Short(at)]);
    assert streak[..|streak| - 1] == Streak(es);
  }

  /** The ceilings and recoveries that a run of the loop records, in order. */
  function CeilingHistory(cfg: Config, ts: seq<Tick>): seq<CeilingEvent> {
    if ts == [] then []
    else
      var s, t := After(cfg, Initial, ts[..|ts| - 1]), ts[|ts| - 1];
      CeilingHistory(cfg, ts[..|ts| - 1])
      + (if RecordsCeiling(cfg, s, t) then [Short(t.recordedAt)] else if RecordsRecovery(cfg, s, t) then [Whole] else [])
  }

  lemma CeilingsOfStep(cfg: Config, s: State, t: Tick)
    ensures Step(cfg, s, t).0.ceilings ==
            if RecordsCeiling(cfg, s, t) then CeilingRecorded(s.ceilings, cfg.failureAlertThreshold, t.recordedAt).0
            else if RecordsRecovery(cfg, s, t) then NoCeilings
            else s.ceilings
  {
  }

  lemma {:induction false} CeilingRunAppend(es: seq<CeilingEvent>, e: CeilingEvent)
    ensures CeilingRun(es + [e]) == if e.Short? then CeilingRecorded(CeilingRun(es), 0, e.at).0 else NoCeilings
  {
    assert (es + [e])[..|es|] == es;
  }

  /** The loop's ceilings are those of its history. */
  lemma {:induction false} RunCeilings(cfg: Config, ts: seq<Tick>)
    ensures After(cfg, Initial, ts).ceilings == CeilingRun(CeilingHistory(cfg, ts))
  {
    if ts != [] {
      var front, t := ts[..|ts| - 1], ts[|ts| - 1];
      assert ts == front + [t];
      RunCeilings(cfg, front);
      SnocRun(cfg, Initial, front, t);
      CeilingsOfStep(cfg, After(cfg, Initial, front), t);
      CeilingRunAppend(CeilingHistory(cfg, front), Short(t.recordedAt));
      CeilingRunAppend(CeilingHistory(cfg, front), Whole);
      assert CeilingHistory(cfg, front) + [] == CeilingHistory(cfg, front);
    }
  }

  /**
   In every run of the loop an iteration escalates iff it records a ceiling ten minutes or more after
   the first one since the last recovery, and enough such ceilings, this one included, were recorded.
   */
  lemma {:induction false} RunEscalatesIff(cfg: Config, earlier: seq<Tick>, t: Tick)
    requires cfg.failureAlertThreshold <= U32_MAX
    ensures var streak := Streak(CeilingHistory(cfg, earlier + [t]));
            Escalates(cfg, After(cfg, Initial, earlier), t) <==>
            && RecordsCeiling(cfg, After(cfg, Initial, earlier), t)
            && Since(t.recordedAt, streak[0]) >= SETTLING_CEILING_MIN_SUSTAIN
            && Sustained(streak) >= AtLeastOne(cfg.failureAlertThreshold)
  {
    RunCeilings(cfg, earlier);
    assert (earlier + [t])[..|earlier|] == earlier;
    if RecordsCeiling(cfg, After(cfg, Initial, earlier), t) {
      EscalatesIff(CeilingHistory(cfg, earlier), t.recordedAt, cfg.failureAlertThreshold);
    }
  }
}
