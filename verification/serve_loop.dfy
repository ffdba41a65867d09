/**
 The control state that `ezgha serve` carries from one iteration to the next (src/main.rs):
 the settling episode, the unproven-readiness flag, the repeated-reconcile flag and the settling
 ceilings. What the local probe, `ensure_count` and the backend restart report is arbitrary input.

 Instants are nanoseconds; planned sleeps are whole seconds, as in the source.
 */
module ServeLoop {
  import opened Wrappers

  const SECOND: nat := 1_000_000_000
  const MIN_SERVE_TICK_SECONDS: nat := 5
  const RESTART_RETRY_SECONDS: nat := 8
  const MAX_SETTLING_POLLS: nat := 5
  const MAX_SETTLING_DURATION: nat := 25 * SECOND
  const SETTLING_CEILING_MIN_SUSTAIN: nat := 600 * SECOND
  const U32_MAX: nat := 0xFFFF_FFFF

  datatype Config = Config(count: nat, serveTickSeconds: nat, failureAlertThreshold: nat) {
    function ServeTick(): nat {
      if serveTickSeconds >= MIN_SERVE_TICK_SECONDS then serveTickSeconds else MIN_SERVE_TICK_SECONDS
    }
  }

  function Since(now: nat, then_: nat): nat {
    if now >= then_ then now - then_ else 0
  }

  // ----- Settling episodes -----------------------------------------------------------------

  datatype SettlingDecision = Continue | Recovered | Ceiling

  datatype Episode = Episode(startedAt: Option<nat>, attempts: nat, bestExecuting: nat, stagnantPolls: nat)

  function StartEpisode(now: nat, executing: nat): Episode {
    Episode(Some(now), 0, executing, 0)
  }

  function Observed(e: Episode, now: nat, executing: nat, target: nat): (Episode, SettlingDecision) {
    if e.startedAt.None? then (e, Ceiling)
    else
      var polled := e.(attempts := e.attempts + 1);
      if executing >= target then (polled.(startedAt := None), Recovered)
      else if executing < e.bestExecuting then (polled.(startedAt := None), Ceiling)
      else
        var seen := if executing > e.bestExecuting then polled.(bestExecuting := executing, stagnantPolls := 0)
                    else polled.(stagnantPolls := e.stagnantPolls + 1);
        if seen.attempts >= MAX_SETTLING_POLLS || Since(now, e.startedAt.value) >= MAX_SETTLING_DURATION
        then (seen.(startedAt := None), Ceiling)
        else (seen, Continue)
  }

  class SettlingEpisode {
    var startedAt: Option<nat>
    var attempts: nat
    var bestExecuting: nat
    var stagnantPolls: nat

    function View(): Episode
      reads this
    {
      Episode(startedAt, attempts, bestExecuting, stagnantPolls)
    }

    constructor Start(now: nat, executing: nat)
      ensures View() == StartEpisode(now, executing)
    {
      startedAt, attempts, bestExecuting, stagnantPolls := Some(now), 0, executing, 0;
    }

    method Observe(now: nat, executing: nat, target: nat) returns (decision: SettlingDecision)
      modifies this
      ensures (View(), decision) == Observed(old(View()), now, executing, target)
    {
      if startedAt.None? {
        return Ceiling;
      }
      var started := startedAt.value;
      attempts := attempts + 1;
      if executing >= target {
        startedAt := None;
        return Recovered;
      }
      if executing < bestExecuting {
        startedAt := None;
        return Ceiling;
      }
      if executing > bestExecuting {
        bestExecuting := executing;
        stagnantPolls := 0;
      } else {
        stagnantPolls := stagnantPolls + 1;
      }
      if attempts >= MAX_SETTLING_POLLS || Since(now, started) >= MAX_SETTLING_DURATION {
        startedAt := None;
        return Ceiling;
      }
      return Continue;
    }
  }

  // ----- Settling ceilings -----------------------------------------------------------------

  datatype Ceilings = Ceilings(consecutive: nat, shortfallSince: Option<nat>)

  const NoCeilings := Ceilings(0, None)

  /** The state after a recorded ceiling, and whether it escalates. */
  function CeilingRecorded(c: Ceilings, alertThreshold: nat, now: nat): (Ceilings, bool) {
    var since := if c.shortfallSince.Some? then c.shortfallSince.value else now;
    if Since(now, since) < SETTLING_CEILING_MIN_SUSTAIN then (c.(shortfallSince := Some(since)), false)
    else
      var consecutive := if c.consecutive < U32_MAX then c.consecutive + 1 else U32_MAX;
      (Ceilings(consecutive, Some(since)), consecutive >= AtLeastOne(alertThreshold))
  }

  function AtLeastOne(n: nat): nat {
    if n == 0 then 1 else n
  }

  class SettlingCeilingState {
    var consecutive: nat
    var shortfallSince: Option<nat>

    function View(): Ceilings
      reads this
    {
      Ceilings(consecutive, shortfallSince)
    }

    constructor ()
      ensures View() == NoCeilings
    {
      consecutive, shortfallSince := 0, None;
    }

    method RecordRecovery()
      modifies this
      ensures View() == NoCeilings
    {
      consecutive := 0;
      shortfallSince := None;
    }

    method RecordCeiling(alertThreshold: nat, now: nat) returns (escalated: bool)
      modifies this
      ensures (View(), escalated) == CeilingRecorded(old(View()), alertThreshold, now)
    {
      if shortfallSince.None? {
        shortfallSince := Some(now);
      }
      if Since(now, shortfallSince.value) < SETTLING_CEILING_MIN_SUSTAIN {
        return false;
      }
      if consecutive < U32_MAX {
        consecutive := consecutive + 1;
      } else {
        consecutive := U32_MAX;
      }
      return consecutive >= AtLeastOne(alertThreshold);
    }
  }

  // ----- Decisions -------------------------------------------------------------------------

  datatype EnsureOutcome = EnsureOutcome(
    admissionPausedReason: Option<string>,
    capacityLost: seq<string>,
    slotsReleased: seq<string>,
    readinessError: Option<string>,
    remainingShortage: nat)

  datatype EnsureSuccessDecision =
    | StartSettling(executing: nat)
    | FullyRecovered
    | PostRefillCapacityLost
    | PostRefillSlotsReleased
    | IncompleteReadiness
    | AdmissionPaused
  {
    predicate ImmediateCapacityReconcile() {
      PostRefillCapacityLost? || PostRefillSlotsReleased?
    }
  }

  function SettlingPlan(cfg: Config, d: SettlingDecision): nat {
    match d
    case Continue => MIN_SERVE_TICK_SECONDS
    case Recovered => cfg.ServeTick()
    case Ceiling => 0
  }

  function Executing(cfg: Config, o: EnsureOutcome): nat {
    if cfg.count >= o.remainingShortage then cfg.count - o.remainingShortage else 0
  }

  function RawDecision(cfg: Config, o: EnsureOutcome): EnsureSuccessDecision {
    if o.admissionPausedReason.Some? then AdmissionPaused
    else if o.capacityLost != [] then PostRefillCapacityLost
    else if o.slotsReleased != [] then PostRefillSlotsReleased
    else if o.readinessError.Some? then IncompleteReadiness
    else if o.remainingShortage > 0 then StartSettling(Executing(cfg, o))
    else FullyRecovered
  }

  function EffectiveDecision(d: EnsureSuccessDecision, pendingReadiness: bool, previousImmediate: bool, executing: nat)
    : EnsureSuccessDecision
  {
    if previousImmediate && d.ImmediateCapacityReconcile() then StartSettling(executing)
    else if pendingReadiness && d.FullyRecovered? then StartSettling(0)
    else d
  }

  function EnsureSuccessPlan(cfg: Config, d: EnsureSuccessDecision): nat {
    match d
    case StartSettling(_) => SettlingPlan(cfg, Continue)
    case FullyRecovered => SettlingPlan(cfg, Recovered)
    case PostRefillCapacityLost => SettlingPlan(cfg, Ceiling)
    case PostRefillSlotsReleased => SettlingPlan(cfg, Ceiling)
    case IncompleteReadiness => SettlingPlan(cfg, Ceiling)
    case AdmissionPaused => cfg.ServeTick()
  }

  // ----- One iteration as a value ----------------------------------------------------------

  datatype LocalProbe =
    | Counted(ready: nat, absent: seq<string>)
    | ProbeFailed

  datatype EnsureReply =
    | Ensured(outcome: EnsureOutcome)
    | EnsureFailed(backendRestarted: bool)

  /** Everything one iteration may read from outside: the probe is used while settling, the reply otherwise. */
  datatype Tick = Tick(now: nat, recordedAt: nat, probe: LocalProbe, reply: EnsureReply)

  datatype State = State(
    settling: Option<Episode>,
    pendingReadiness: bool,
    previousImmediate: bool,
    ceilings: Ceilings)

  const Initial := State(None, false, false, NoCeilings)

  function PollDecision(cfg: Config, e: Episode, t: Tick): (Episode, SettlingDecision) {
    match t.probe
    case ProbeFailed => (e, Ceiling)
    case Counted(ready, absent) =>
      if absent != [] && ready < cfg.count then (e, Ceiling) else Observed(e, t.now, ready, cfg.count)
  }

  /** The effective decision of an iteration that ran `ensure_count` successfully. */
  function Decision(cfg: Config, s: State, o: EnsureOutcome): EnsureSuccessDecision {
    EffectiveDecision(RawDecision(cfg, o), s.pendingReadiness, s.previousImmediate, Executing(cfg, o))
  }

  function SettleStep(cfg: Config, s: State, t: Tick): (State, nat)
    requires s.settling.Some?
  {
    var (episode, d) := PollDecision(cfg, s.settling.value, t);
    (match d
     case Continue => s.(settling := Some(episode))
     case Recovered => s.(settling := None, pendingReadiness := false, ceilings := NoCeilings)
     case Ceiling => s.(settling := None, pendingReadiness := true,
                        ceilings := CeilingRecorded(s.ceilings, cfg.failureAlertThreshold, t.recordedAt).0),
     SettlingPlan(cfg, d))
  }

  function EnsureStep(cfg: Config, s: State, t: Tick): (State, nat) {
    match t.reply
    case EnsureFailed(restarted) =>
      (s.(previousImmediate := false), if restarted then RESTART_RETRY_SECONDS else cfg.ServeTick())
    case Ensured(o) =>
      var d := Decision(cfg, s, o);
      var recorded := CeilingRecorded(s.ceilings, cfg.failureAlertThreshold, t.recordedAt).0;
      (match d
       case StartSettling(executing) =>
         State(Some(StartEpisode(t.now, executing)), true, false, s.ceilings)
       case FullyRecovered => State(None, false, false, NoCeilings)
       case PostRefillCapacityLost => State(None, true, true, recorded)
       case PostRefillSlotsReleased => State(None, true, true, s.ceilings)
       case IncompleteReadiness => State(None, true, false, recorded)
       case AdmissionPaused => State(None, s.pendingReadiness, false, s.ceilings),
       EnsureSuccessPlan(cfg, d))
  }

  /** The next state and the planned sleep in seconds. */
  function Step(cfg: Config, s: State, t: Tick): (State, nat) {
    if s.settling.Some? then SettleStep(cfg, s, t) else EnsureStep(cfg, s, t)
  }

  /** The iteration records a settling ceiling: a poll that gives up, a lost slot or an incomplete readiness. */
  predicate RecordsCeiling(cfg: Config, s: State, t: Tick) {
    if s.settling.Some? then PollDecision(cfg, s.settling.value, t).1.Ceiling?
    else
      && t.reply.Ensured?
      && var d := Decision(cfg, s, t.reply.outcome);
      d.PostRefillCapacityLost? || d.IncompleteReadiness?
  }

  /** The iteration records a recovery. */
  predicate RecordsRecovery(cfg: Config, s: State, t: Tick) {
    if s.settling.Some? then PollDecision(cfg, s.settling.value, t).1.Recovered?
    else t.reply.Ensured? && Decision(cfg, s, t.reply.outcome).FullyRecovered?
  }

  /** The ceiling it records, if any, is reported as critical. */
  predicate Escalates(cfg: Config, s: State, t: Tick) {
    RecordsCeiling(cfg, s, t) && CeilingRecorded(s.ceilings, cfg.failureAlertThreshold, t.recordedAt).1
  }

  function After(cfg: Config, s: State, ts: seq<Tick>): State
    decreases |ts|
  {
    if ts == [] then s else After(cfg, Step(cfg, s, ts[0]).0, ts[1..])
  }

  /** The sleeps planned by consecutive iterations from `s`. */
  function Sleeps(cfg: Config, s: State, ts: seq<Tick>): (sleeps: seq<nat>)
    ensures |sleeps| == |ts|
    decreases |ts|
  {
    if ts == [] then [] else [Step(cfg, s, ts[0]).1] + Sleeps(cfg, Step(cfg, s, ts[0]).0, ts[1..])
  }

  // ----- The loop itself -------------------------------------------------------------------

  class Supervisor {
    const cfg: Config
    var settling: SettlingEpisode?
    var pendingReadiness: bool
    var previousImmediate: bool
    const ceilings: SettlingCeilingState

    function View(): State
      reads this, settling, ceilings
    {
      State(if settling == null then None else Some(settling.View()), pendingReadiness, previousImmediate,
            ceilings.View())
    }

    constructor (cfg: Config)
      ensures this.cfg == cfg && View() == Initial
      ensures fresh(ceilings) && settling == null
    {
      this.cfg := cfg;
      settling, pendingReadiness, previousImmediate := null, false, false;
      ceilings := new SettlingCeilingState();
    }

    method ApplyLocalSettlingDecision(decision: SettlingDecision)
      modifies this`settling, this`pendingReadiness
      ensures settling == if decision.Continue? then old(settling) else null
      ensures pendingReadiness == match decision
                                  case Continue => old(pendingReadiness)
                                  case Recovered => false
                                  case Ceiling => true
    {
      match decision
      case Continue =>
      case Recovered =>
        settling, pendingReadiness := null, false;
      case Ceiling =>
        settling, pendingReadiness := null, true;
    }

    method ApplyEnsureSuccessDecision(now: nat, decision: EnsureSuccessDecision)
      modifies this`settling, this`pendingReadiness
      ensures decision.StartSettling? ==>
                settling != null && fresh(settling) && settling.View() == StartEpisode(now, decision.executing)
      ensures !decision.StartSettling? ==> settling == null
      ensures pendingReadiness == if decision.AdmissionPaused? then old(pendingReadiness) else !decision.FullyRecovered?
    {
      if decision.StartSettling? {
        settling := new SettlingEpisode.Start(now, decision.executing);
        pendingReadiness := true;
      } else if decision.ImmediateCapacityReconcile() || decision.IncompleteReadiness? {
        settling := null;
        pendingReadiness := true;
      } else if decision.AdmissionPaused? {
        settling := null;
      } else {
        settling := null;
        pendingReadiness := false;
      }
    }

    method PollSettling(t: Tick) returns (sleep: nat, escalated: bool)
      requires settling != null
      modifies this, settling, ceilings
      ensures (View(), sleep) == SettleStep(cfg, old(View()), t)
      ensures escalated == Escalates(cfg, old(View()), t)
      ensures settling == old(settling) || settling == null
    {
      escalated := false;
      var decision := Ceiling;
      if t.probe.Counted? && !(t.probe.absent != [] && t.probe.ready < cfg.count) {
        decision := settling.Observe(t.now, t.probe.ready, cfg.count);
      }
      match decision {
        case Continue =>
        case Recovered =>
          ceilings.RecordRecovery();
        case Ceiling =>
          escalated := ceilings.RecordCeiling(cfg.failureAlertThreshold, t.recordedAt);
      }
      ApplyLocalSettlingDecision(decision);
      sleep := SettlingPlan(cfg, decision);
    }

    method Reconcile(t: Tick) returns (sleep: nat, escalated: bool)
      requires settling == null
      modifies this, ceilings
      ensures (View(), sleep) == EnsureStep(cfg, old(View()), t)
      ensures escalated == Escalates(cfg, old(View()), t)
      ensures settling == null || fresh(settling)
    {
      escalated := false;
      if t.reply.EnsureFailed? {
        previousImmediate := false;
        return if t.reply.backendRestarted then RESTART_RETRY_SECONDS else cfg.ServeTick(), false;
      }
      var raw := RawDecision(cfg, t.reply.outcome);
      var decision := EffectiveDecision(raw, pendingReadiness, previousImmediate, Executing(cfg, t.reply.outcome));
      previousImmediate := decision.ImmediateCapacityReconcile();
      if decision.PostRefillCapacityLost? || decision.IncompleteReadiness? {
        escalated := ceilings.RecordCeiling(cfg.failureAlertThreshold, t.recordedAt);
      } else if decision.FullyRecovered? {
        ceilings.RecordRecovery();
      }
      ApplyEnsureSuccessDecision(t.now, decision);
      sleep := EnsureSuccessPlan(cfg, decision);
    }

    /** The loop, for as many iterations as happen before shutdown is requested. */
    method Serve(ts: seq<Tick>) returns (sleeps: seq<nat>, escalations: seq<bool>)
      requires settling == null
      modifies this, ceilings
      ensures View() == After(cfg, old(View()), ts)
      ensures sleeps == Sleeps(cfg, old(View()), ts)
      ensures |escalations| == |ts|
      ensures forall i :: 0 <= i < |ts| ==> escalations[i] == Escalates(cfg, After(cfg, old(View()), ts[..i]), ts[i])
    {
      sleeps, escalations := [], [];
      ghost var start := View();
      for i := 0 to |ts|
        invariant settling == null || fresh(settling)
        invariant View() == After(cfg, start, ts[..i])
        invariant sleeps == Sleeps(cfg, start, ts[..i])
        invariant |escalations| == i
        invariant forall k :: 0 <= k < i ==> escalations[k] == Escalates(cfg, After(cfg, start, ts[..k]), ts[k])
      {
        SnocRun(cfg, start, ts[..i], ts[i]);
        assert ts[..i + 1] == ts[..i] + [ts[i]];
        var sleep, escalated;
        if settling != null {
          sleep, escalated := PollSettling(ts[i]);
        } else {
          sleep, escalated := Reconcile(ts[i]);
        }
        sleeps, escalations := sleeps + [sleep], escalations + [escalated];
      }
      assert ts[..|ts|] == ts;
    }
  }

  lemma {:induction false} SnocRun(cfg: Config, s: State, ts: seq<Tick>, t: Tick)
    ensures After(cfg, s, ts + [t]) == Step(cfg, After(cfg, s, ts), t).0
    ensures Sleeps(cfg, s, ts + [t]) == Sleeps(cfg, s, ts) + [Step(cfg, After(cfg, s, ts), t).1]
    decreases |ts|
  {
    if ts == [] {
      assert ts + [t] == [t];
    } else {
      SnocRun(cfg, Step(cfg, s, ts[0]).0, ts[1..], t);
      assert (ts + [t])[1..] == ts[1..] + [t];
    }
  }
}
