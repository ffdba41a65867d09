/**
 The deadline-clamped backend restart of src/main.rs. `Host` is the outside world: a clock, and
 arbitrary replies to restart commands and health probes. Its only promises are the timing
 contract: a command overruns its timeout by at most `overrun`, a probe takes at most `probeBound`.
 What a restart does is a predicate on the timed log of its calls, and when it ends a theorem about
 every such log.
 */
module BackendRestart {
  import opened Wrappers

  datatype Timing = Timing(
    commandCeiling: nat,
    minBudget: nat,
    safetyMargin: nat,
    healthPollCeiling: nat,
    healthPollInterval: nat)
  {
    function ClampedRestartTimeout(deadline: Option<nat>, now: nat): Option<nat> {
      match deadline
      case None => Some(commandCeiling)
      case Some(dl) =>
        var remaining := Monus(dl, now);
        if remaining < minBudget then None else Some(Min(Monus(remaining, safetyMargin), commandCeiling))
    }

    function ClampedHealthPollTimeout(deadline: Option<nat>, now: nat): nat {
      match deadline
      case None => healthPollCeiling
      case Some(dl) => Min(Monus(Monus(dl, now), safetyMargin), healthPollCeiling)
    }
  }

  const MILLISECOND: nat := 1_000_000
  const SECOND: nat := 1000 * MILLISECOND
  const PRODUCTION := Timing(120 * SECOND, 10 * SECOND, 5 * SECOND, 15 * SECOND, 1 * SECOND)

  function Monus(a: nat, b: nat): nat {
    if a >= b then a - b else 0
  }

  function Min(a: nat, b: nat): nat {
    if a <= b then a else b
  }

  function Max(a: nat, b: nat): nat {
    if a >= b then a else b
  }

  datatype RunResult = Succeeded | NonZero | NotFound | Failed

  datatype Event =
    | Ran(command: string, at: nat, timeout: nat, result: RunResult, ended: nat)
    | Probed(at: nat, healthy: bool, ended: nat)
    | Slept(at: nat, ended: nat)

  datatype RunReply = RunReply(result: RunResult, took: nat)

  datatype ProbeReply = ProbeReply(healthy: bool, took: nat)

  class Host {
    const overrun: nat
    const probeBound: nat
    const runReply: nat -> RunReply
    const probeReply: nat -> ProbeReply
    var now: nat
    var log: seq<Event>

    constructor (overrun: nat, probeBound: nat, runReply: nat -> RunReply, probeReply: nat -> ProbeReply, now: nat)
      ensures this.overrun == overrun && this.probeBound == probeBound && this.now == now && log == []
      ensures this.runReply == runReply && this.probeReply == probeReply
    {
      this.overrun, this.probeBound, this.now, log := overrun, probeBound, now, [];
      this.runReply, this.probeReply := runReply, probeReply;
    }

    ghost predicate ProbesTakeTime() {
      probeBound > 0 && forall k: nat :: probeReply(k).took > 0
    }

    method Run(command: string, timeout: nat) returns (result: RunResult)
      modifies this
      ensures old(now) <= now <= old(now) + timeout + overrun
      ensures log == old(log) + [Ran(command, old(now), timeout, result, now)]
    {
      var reply := runReply(|log|);
      result := reply.result;
      var at := now;
      now := now + Min(reply.took, timeout + overrun);
      log := log + [Ran(command, at, timeout, result, now)];
    }

    method BackendHealthy() returns (healthy: bool)
      modifies this
      ensures old(now) <= now <= old(now) + probeBound
      ensures ProbesTakeTime() ==> old(now) < now
      ensures log == old(log) + [Probed(old(now), healthy, now)]
    {
      var reply := probeReply(|log|);
      healthy := reply.healthy;
      var at := now;
      now := now + Min(reply.took, probeBound);
      log := log + [Probed(at, healthy, now)];
    }

    method Sleep(duration: nat)
      modifies this
      ensures now == old(now) + duration && log == old(log) + [Slept(old(now), now)]
    {
      log := log + [Slept(now, now + duration)];
      now := now + duration;
    }
  }

  // ----- Timed logs ----------------------------------------------------------------------------

  function End(es: seq<Event>, start: nat): nat {
    if es == [] then start else es[|es| - 1].ended
  }

  predicate WithinBounds(e: Event, overrun: nat, probeBound: nat) {
    && e.at <= e.ended
    && (e.Ran? ==> e.ended <= e.at + e.timeout + overrun)
    && (e.Probed? ==> e.ended <= e.at + probeBound)
  }

  /** Each event starts when the one before has ended, and keeps the timing contract. */
  predicate IsTimed(es: seq<Event>, start: nat, overrun: nat, probeBound: nat) {
    es == []
    || (var front, last := es[..|es| - 1], es[|es| - 1];
        && IsTimed(front, start, overrun, probeBound)
        && last.at == End(front, start) && WithinBounds(last, overrun, probeBound))
  }

  lemma {:induction false} TimedNext(es: seq<Event>, e: Event, start: nat, overrun: nat, probeBound: nat)
    requires IsTimed(es, start, overrun, probeBound) && e.at == End(es, start) && WithinBounds(e, overrun, probeBound)
    ensures IsTimed(es + [e], start, overrun, probeBound) && End(es + [e], start) == e.ended
  {
    assert (es + [e])[..|es|] == es;
  }

  lemma {:induction false} TimedParts(a: seq<Event>, b: seq<Event>, start: nat, overrun: nat, probeBound: nat)
    ensures IsTimed(a + b, start, overrun, probeBound) <==>
            IsTimed(a, start, overrun, probeBound) && IsTimed(b, End(a, start), overrun, probeBound)
    ensures End(a + b, start) == End(b, End(a, start))
  {
    if b == [] {
      assert a + b == a;
    } else {
      var front := b[..|b| - 1];
      TimedParts(a, front, start, overrun, probeBound);
      assert (a + b)[..|a + b| - 1] == a + front;
    }
  }

  // ----- Polling ---------------------------------------------------------------------------------

  /**
   Probes one interval apart, unhealthy and over before the timeout but for the last, which is healthy
   or over only once the timeout has run.
   */
  predicate IsPoll(es: seq<Event>, from: nat, timeout: nat, interval: nat, healthy: bool) {
    && |es| % 2 == 1
    && (forall i :: 0 <= i < |es| && i % 2 == 0 ==>
          && es[i].Probed? && es[i].healthy == (healthy && i == |es| - 1)
          && (i < |es| - 1 ==> es[i].ended < from + timeout))
    && (forall i :: 0 <= i < |es| && i % 2 == 1 ==> es[i].Slept? && es[i].ended == es[i].at + interval)
    && (!healthy ==> End(es, from) >= from + timeout)
  }

  predicate IsPolling(es: seq<Event>, from: nat, timeout: nat, interval: nat) {
    && |es| % 2 == 0
    && (forall i :: 0 <= i < |es| && i % 2 == 0 ==> es[i].Probed? && !es[i].healthy && es[i].ended < from + timeout)
    && (forall i :: 0 <= i < |es| && i % 2 == 1 ==> es[i].Slept? && es[i].ended == es[i].at + interval)
  }

  /** Polling goes on after an unhealthy probe that ended in time, and a sleep. */
  lemma {:induction false} PollingGoesOn(
    es: seq<Event>, from: nat, timeout: nat, interval: nat, overrun: nat, probeBound: nat, probed: Event,
    slept: Event)
    requires IsPolling(es, from, timeout, interval) && IsTimed(es, from, overrun, probeBound)
    requires probed.Probed? && !probed.healthy && probed.ended < from + timeout
    requires probed.at == End(es, from) && WithinBounds(probed, overrun, probeBound)
    requires slept == Slept(probed.ended, probed.ended + interval)
    ensures var more := es + [probed] + [slept];
            && IsPolling(more, from, timeout, interval) && IsTimed(more, from, overrun, probeBound)
            && End(more, from) == slept.ended
  {
    TimedNext(es, probed, from, overrun, probeBound);
    TimedNext(es + [probed], slept, from, overrun, probeBound);
  }

  lemma {:induction false} PollingIsOver(
    es: seq<Event>, from: nat, timeout: nat, interval: nat, overrun: nat, probeBound: nat, probed: Event)
    requires IsPolling(es, from, timeout, interval) && IsTimed(es, from, overrun, probeBound)
    requires probed.Probed? && (!probed.healthy ==> probed.ended >= from + timeout)
    requires probed.at == End(es, from) && WithinBounds(probed, overrun, probeBound)
    ensures IsPoll(es + [probed], from, timeout, interval, probed.healthy)
    ensures IsTimed(es + [probed], from, overrun, probeBound) && End(es + [probed], from) == probed.ended
  {
    TimedNext(es, probed, from, overrun, probeBound);
  }

  /** With neither an interval nor a probe that takes time the loop would spin where the clock stands still. */
  method PollBackendHealthy(host: Host, timeout: nat, interval: nat) returns (healthy: bool, ghost poll: seq<Event>)
    requires interval > 0 || host.ProbesTakeTime()
    modifies host
    ensures host.log == old(host.log) + poll && IsPoll(poll, old(host.now), timeout, interval, healthy)
    ensures IsTimed(poll, old(host.now), host.overrun, host.probeBound) && host.now == End(poll, old(host.now))
  {
    var deadline := host.now + timeout;
    ghost var start := host.now;
    poll := [];
    while true
      invariant host.log == old(host.log) + poll && IsPolling(poll, start, timeout, interval)
      invariant IsTimed(poll, start, host.overrun, host.probeBound) && host.now == End(poll, start)
      invariant host.now == start || host.now < deadline + interval
      decreases deadline + interval + 1 - host.now
    {
      ghost var asked := host.now;
      healthy := host.BackendHealthy();
      ghost var probed := Probed(asked, healthy, host.now);
      if healthy || host.now >= deadline {
        PollingIsOver(poll, start, timeout, interval, host.overrun, host.probeBound, probed);
        poll := poll + [probed];
        return;
      }
      ghost var slept := Slept(host.now, host.now + interval);
      host.Sleep(interval);
      PollingGoesOn(poll, start, timeout, interval, host.overrun, host.probeBound, probed, slept);
      poll := poll + [probed] + [slept];
    }
  }

  lemma {:induction false} TimedForward(es: seq<Event>, start: nat, overrun: nat, probeBound: nat)
    requires IsTimed(es, start, overrun, probeBound)
    ensures start <= End(es, start)
  {
    if es != [] {
      TimedForward(es[..|es| - 1], start, overrun, probeBound);
    }
  }

  /** A poll ends within one interval and one probe of its timeout. */
  lemma {:induction false} PollEnds(
    es: seq<Event>, from: nat, timeout: nat, interval: nat, healthy: bool, overrun: nat, probeBound: nat)
    requires IsPoll(es, from, timeout, interval, healthy) && IsTimed(es, from, overrun, probeBound)
    ensures End(es, from) <= from + probeBound + (if timeout == 0 then 0 else timeout + interval - 1)
  {
    var n := |es| - 1;
    if n == 0 {
      assert es[..0] == [];
    } else {
      var woken := es[..n];
      var asked := woken[..n - 1];
      assert woken[n - 1] == es[n - 1] && asked[n - 2] == es[n - 2];
      assert es[n - 2].Probed? && es[n - 1].Slept? && es[n].Probed?;
      TimedForward(asked, from, overrun, probeBound);
      assert es[n - 1].at == es[n - 2].ended && es[n].at == es[n - 1].ended;
    }
  }

  // ----- Restarting --------------------------------------------------------------------------------

  /** The commands tried, in order, each clamped to what was left of the deadline when it was issued. */
  predicate AreRuns(es: seq<Event>, commands: seq<string>, deadline: Option<nat>, timing: Timing) {
    && |es| <= |commands|
    && (forall i :: 0 <= i < |es| ==>
          && es[i].Ran? && es[i].command == commands[i]
          && timing.ClampedRestartTimeout(deadline, es[i].at) == Some(es[i].timeout))
    && (forall i :: 0 <= i < |es| - 1 ==> !es[i].result.Succeeded?)
  }

  predicate EndsInSuccess(runs: seq<Event>) {
    runs != [] && runs[|runs| - 1].Ran? && runs[|runs| - 1].result.Succeeded?
  }

  /**
   Commands until one succeeded, then exactly one poll, clamped to what was left then. Trying stops
   early only on success or for want of budget.
   */
  predicate IsRestart(runs: seq<Event>, poll: seq<Event>, commands: seq<string>, deadline: Option<nat>, timing: Timing,
                      start: nat, restarted: bool)
  {
    && AreRuns(runs, commands, deadline, timing)
    && var end := End(runs, start);
    if EndsInSuccess(runs)
    then IsPoll(poll, end, timing.ClampedHealthPollTimeout(deadline, end), timing.healthPollInterval, restarted)
    else
      && poll == [] && !restarted
      && (|runs| < |commands| ==> timing.ClampedRestartTimeout(deadline, end) == None)
  }

  function Total(n: nat, each: nat): nat {
    if n == 0 then 0 else Total(n - 1, each) + each
  }

  /** What the timing contract must offer for the safety margin and the minimal budget to absorb it. */
  predicate MarginSuffices(overrun: nat, probeBound: nat, timing: Timing) {
    && overrun + probeBound <= Min(timing.safetyMargin, timing.minBudget)
    && probeBound + timing.healthPollInterval <= timing.safetyMargin + 1
  }

  method AttemptBackendRestartWith(commands: seq<string>, deadline: Option<nat>, timing: Timing, host: Host)
    returns (restarted: bool, ghost runs: seq<Event>, ghost poll: seq<Event>)
    requires timing.healthPollInterval > 0 || host.ProbesTakeTime()
    modifies host
    // What was done, and when.
    ensures host.log == old(host.log) + runs + poll
    ensures IsRestart(runs, poll, commands, deadline, timing, old(host.now), restarted)
    ensures IsTimed(runs + poll, old(host.now), host.overrun, host.probeBound)
    ensures host.now == End(runs + poll, old(host.now))
    // When it ends.
    ensures deadline.Some? && MarginSuffices(host.overrun, host.probeBound, timing) ==>
              host.now <= Max(old(host.now), deadline.value)
    ensures deadline.None? ==>
              host.now <= old(host.now) + Total(|commands|, timing.commandCeiling + host.overrun)
                          + timing.healthPollCeiling + timing.healthPollInterval + host.probeBound
  {
    ghost var start := host.now;
    var succeeded;
    succeeded, runs := TryCommands(commands, deadline, timing, host);
    restarted, poll := false, [];
    if succeeded {
      var healthTimeout := timing.ClampedHealthPollTimeout(deadline, host.now);
      restarted, poll := PollBackendHealthy(host, healthTimeout, timing.healthPollInterval);
    }
    TimedParts(runs, poll, start, host.overrun, host.probeBound);
    RestartEnds(runs, poll, commands, deadline, timing, start, restarted, host.overrun, host.probeBound);
  }

  /** One command, clamped to what is left and issued only if that is enough. */
  method TryCommand(
    command: string, deadline: Option<nat>, timing: Timing, host: Host, ghost runs: seq<Event>, ghost start: nat)
    returns (result: Option<RunResult>, ghost after: seq<Event>)
    requires IsTimed(runs, start, host.overrun, host.probeBound) && host.now == End(runs, start)
    modifies host
    ensures result.None? <==> timing.ClampedRestartTimeout(deadline, old(host.now)) == None
    ensures result.None? ==> host.now == old(host.now) && host.log == old(host.log) && after == runs
    ensures result.Some? ==>
              && |after| == |runs| + 1 && after[..|runs|] == runs
              && var run := after[|runs|];
              && host.log == old(host.log) + [run]
              && run.Ran? && run.command == command && run.at == old(host.now) && run.result == result.value
              && timing.ClampedRestartTimeout(deadline, run.at) == Some(run.timeout)
    ensures IsTimed(after, start, host.overrun, host.probeBound) && host.now == End(after, start)
  {
    var timeout := timing.ClampedRestartTimeout(deadline, host.now);
    if timeout.None? {
      return None, runs;
    }
    var r := host.Run(command, timeout.value);
    ghost var run := Ran(command, old(host.now), timeout.value, r, host.now);
    TimedNext(runs, run, start, host.overrun, host.probeBound);
    return Some(r), runs + [run];
  }

  lemma MoreRuns(runs: seq<Event>, after: seq<Event>, commands: seq<string>, deadline: Option<nat>, timing: Timing)
    requires AreRuns(runs, commands, deadline, timing) && !EndsInSuccess(runs) && |runs| < |commands|
    requires |after| == |runs| + 1 && after[..|runs|] == runs
    requires var run := after[|runs|];
             && run.Ran? && run.command == commands[|runs|]
             && timing.ClampedRestartTimeout(deadline, run.at) == Some(run.timeout)
    ensures AreRuns(after, commands, deadline, timing)
    ensures EndsInSuccess(after) <==> after[|runs|].result.Succeeded?
  {
    forall i | 0 <= i < |runs| ensures after[i] == runs[i] {
      assert after[..|runs|][i] == after[i];
    }
  }

  /** Commands in order until one succeeds; the poll is the caller's. */
  method TryCommands(commands: seq<string>, deadline: Option<nat>, timing: Timing, host: Host)
    returns (succeeded: bool, ghost runs: seq<Event>)
    modifies host
    ensures host.log == old(host.log) + runs && AreRuns(runs, commands, deadline, timing)
    ensures succeeded <==> EndsInSuccess(runs)
    ensures !succeeded && |runs| < |commands| ==> timing.ClampedRestartTimeout(deadline, host.now) == None
    ensures IsTimed(runs, old(host.now), host.overrun, host.probeBound) && host.now == End(runs, old(host.now))
  {
    runs := [];
    ghost var start := host.now;
    for i := 0 to |commands|
      invariant |runs| == i && AreRuns(runs, commands, deadline, timing) && !EndsInSuccess(runs)
      invariant host.log == old(host.log) + runs
      invariant IsTimed(runs, start, host.overrun, host.probeBound) && host.now == End(runs, start)
    {
      var result;
      ghost var after;
      result, after := TryCommand(commands[i], deadline, timing, host, runs, start);
      if result.None? {
        return false, runs;
      }
      MoreRuns(runs, after, commands, deadline, timing);
      assert after == runs + [after[i]];
      runs := after;
      if result.value.Succeeded? {
        return true, runs;
      }
    }
    return false, runs;
  }

  // ----- When a restart ends ---------------------------------------------------------------------

  /** A command that was issued ends short of the deadline by the margin or the budget, give or take its overrun. */
  lemma RunEnds(run: Event, deadline: nat, timing: Timing, overrun: nat, probeBound: nat)
    requires run.Ran? && WithinBounds(run, overrun, probeBound)
    requires timing.ClampedRestartTimeout(Some(deadline), run.at) == Some(run.timeout)
    ensures run.ended + Min(timing.safetyMargin, timing.minBudget) <= Max(run.at, deadline) + overrun
  {
  }

  lemma {:induction false} RunsKeepDeadline(runs: seq<Event>, commands: seq<string>, deadline: nat, timing: Timing,
                                            start: nat, overrun: nat, probeBound: nat)
    requires AreRuns(runs, commands, Some(deadline), timing) && IsTimed(runs, start, overrun, probeBound)
    requires overrun <= Min(timing.safetyMargin, timing.minBudget)
    ensures End(runs, start) <= Max(start, deadline)
    ensures runs != [] ==> End(runs, start) + Min(timing.safetyMargin, timing.minBudget) <= Max(start, deadline) + overrun
  {
    if runs != [] {
      RunsKeepDeadline(runs[..|runs| - 1], commands, deadline, timing, start, overrun, probeBound);
      RunEnds(runs[|runs| - 1], deadline, timing, overrun, probeBound);
    }
  }

  /** Any restart, with any commands, replies and start, ends by its deadline or at once. */
  lemma {:induction false} KeepsDeadline(
    runs: seq<Event>, poll: seq<Event>, commands: seq<string>, deadline: nat, timing: Timing, start: nat,
    restarted: bool, overrun: nat, probeBound: nat)
    requires IsRestart(runs, poll, commands, Some(deadline), timing, start, restarted)
    requires IsTimed(runs + poll, start, overrun, probeBound) && MarginSuffices(overrun, probeBound, timing)
    ensures End(runs + poll, start) <= Max(start, deadline)
  {
    TimedParts(runs, poll, start, overrun, probeBound);
    RunsKeepDeadline(runs, commands, deadline, timing, start, overrun, probeBound);
    if EndsInSuccess(runs) {
      var end := End(runs, start);
      var timeout := timing.ClampedHealthPollTimeout(Some(deadline), end);
      PollEnds(poll, end, timeout, timing.healthPollInterval, restarted, overrun, probeBound);
    }
  }

  lemma {:induction false} RunsEndWithoutDeadline(runs: seq<Event>, commands: seq<string>, timing: Timing,
                                                  start: nat, overrun: nat, probeBound: nat)
    requires AreRuns(runs, commands, None, timing) && IsTimed(runs, start, overrun, probeBound)
    ensures End(runs, start) <= start + Total(|runs|, timing.commandCeiling + overrun)
  {
    if runs != [] {
      RunsEndWithoutDeadline(runs[..|runs| - 1], commands, timing, start, overrun, probeBound);
    }
  }

  lemma {:induction false} EndsWithoutDeadline(
    runs: seq<Event>, poll: seq<Event>, commands: seq<string>, timing: Timing, start: nat, restarted: bool,
    overrun: nat, probeBound: nat)
    requires IsRestart(runs, poll, commands, None, timing, start, restarted)
    requires IsTimed(runs + poll, start, overrun, probeBound)
    ensures End(runs + poll, start) <= start + Total(|commands|, timing.commandCeiling + overrun)
                                       + timing.healthPollCeiling + timing.healthPollInterval + probeBound
  {
    TimedParts(runs, poll, start, overrun, probeBound);
    RunsEndWithoutDeadline(runs, commands, timing, start, overrun, probeBound);
    TotalGrows(|runs|, |commands|, timing.commandCeiling + overrun);
    if EndsInSuccess(runs) {
      PollEnds(poll, End(runs, start), timing.healthPollCeiling, timing.healthPollInterval, restarted, overrun, probeBound);
    }
  }

  lemma {:induction false} RestartEnds(
    runs: seq<Event>, poll: seq<Event>, commands: seq<string>, deadline: Option<nat>, timing: Timing, start: nat,
    restarted: bool, overrun: nat, probeBound: nat)
    requires IsRestart(runs, poll, commands, deadline, timing, start, restarted)
    requires IsTimed(runs + poll, start, overrun, probeBound)
    ensures deadline.Some? && MarginSuffices(overrun, probeBound, timing) ==>
              End(runs + poll, start) <= Max(start, deadline.value)
    ensures deadline.None? ==>
              End(runs + poll, start) <= start + Total(|commands|, timing.commandCeiling + overrun)
                                         + timing.healthPollCeiling + timing.healthPollInterval + probeBound
  {
    if deadline.None? {
      EndsWithoutDeadline(runs, poll, commands, timing, start, restarted, overrun, probeBound);
    } else if MarginSuffices(overrun, probeBound, timing) {
      KeepsDeadline(runs, poll, commands, deadline.value, timing, start, restarted, overrun, probeBound);
    }
  }

  lemma {:induction false} TotalGrows(n: nat, m: nat, each: nat)
    requires n <= m
    ensures Total(n, each) <= Total(m, each)
    decreases m - n
  {
    if n < m {
      TotalGrows(n + 1, m, each);
    }
  }

  // ----- The production bound ----------------------------------------------------------------------

  /** Every restart within these latencies, with any commands, replies, start and deadline, is in time. */
  ghost predicate AlwaysInTime(overrun: nat, probeBound: nat, timing: Timing) {
    forall runs, poll, commands, deadline, start, restarted ::
      IsRestart(runs, poll, commands, Some(deadline), timing, start, restarted)
      && IsTimed(runs + poll, start, overrun, probeBound) ==>
        End(runs + poll, start) <= Max(start, deadline)
  }

  /** A late restart: a command that overruns, and a probe that takes its time. */
  lemma LateProbe(overrun: nat, probeBound: nat) returns (runs: seq<Event>, poll: seq<Event>)
    requires overrun + probeBound > 5 * SECOND
    ensures IsRestart(runs, poll, ["start"], Some(10 * SECOND), PRODUCTION, 0, true)
    ensures IsTimed(runs + poll, 0, overrun, probeBound) && End(runs + poll, 0) > 10 * SECOND
  {
    var up := 5 * SECOND + overrun;
    runs := [Ran("start", 0, 5 * SECOND, Succeeded, up)];
    poll := [Probed(up, true, up + probeBound)];
    TimedParts(runs, poll, 0, overrun, probeBound);
  }

  lemma {:induction false} TimedPair(a: Event, b: Event, start: nat, overrun: nat, probeBound: nat)
    requires a.at == start && b.at == a.ended && WithinBounds(a, overrun, probeBound) && WithinBounds(b, overrun, probeBound)
    ensures IsTimed([a, b], start, overrun, probeBound)
  {
    TimedNext([], a, start, overrun, probeBound);
    TimedNext([a], b, start, overrun, probeBound);
    assert [] + [a] == [a] && [a] + [b] == [a, b];
  }

  /** Another: the command returns at once, and the last of three probes starts just short of a second late. */
  lemma LatePoll(overrun: nat, probeBound: nat) returns (runs: seq<Event>, poll: seq<Event>)
    requires probeBound > 4 * SECOND + 1
    ensures IsRestart(runs, poll, ["start"], Some(10 * SECOND), PRODUCTION, 0, false)
    ensures IsTimed(runs + poll, 0, overrun, probeBound) && End(runs + poll, 0) > 10 * SECOND
  {
    runs := [Ran("start", 0, 5 * SECOND, Succeeded, 0)];
    var t := 5 * SECOND - 1;
    poll := [Probed(0, false, t - SECOND), Slept(t - SECOND, t)] + [Probed(t, false, t), Slept(t, t + SECOND)]
            + [Probed(t + SECOND, false, t + SECOND + probeBound)];
    TimedPair(Probed(0, false, t - SECOND), Slept(t - SECOND, t), 0, overrun, probeBound);
    TimedPair(Probed(t, false, t), Slept(t, t + SECOND), t, overrun, probeBound);
    TimedParts([Probed(0, false, t - SECOND), Slept(t - SECOND, t)], [Probed(t, false, t), Slept(t, t + SECOND)],
               0, overrun, probeBound);
    TimedNext(poll[..4], poll[4], 0, overrun, probeBound);
    TimedParts(runs, poll, 0, overrun, probeBound);
  }

  /** Production restarts keep every deadline iff kill latency and probe stay within these bounds. */
  lemma ProductionInTimeIff(overrun: nat, probeBound: nat)
    ensures AlwaysInTime(overrun, probeBound, PRODUCTION) <==>
            overrun + probeBound <= 5 * SECOND && probeBound <= 4 * SECOND + 1
  {
    if overrun + probeBound > 5 * SECOND {
      var runs, poll := LateProbe(overrun, probeBound);
    } else if probeBound > 4 * SECOND + 1 {
      var runs, poll := LatePoll(overrun, probeBound);
    } else {
      forall runs, poll, commands, deadline, start, restarted |
        IsRestart(runs, poll, commands, Some(deadline), PRODUCTION, start, restarted)
        && IsTimed(runs + poll, start, overrun, probeBound)
        ensures End(runs + poll, start) <= Max(start, deadline)
      {
        KeepsDeadline(runs, poll, commands, deadline, PRODUCTION, start, restarted, overrun, probeBound);
      }
    }
  }

  // ----- Timeouts, written out -----------------------------------------------------------------------

  /** The longest time of at most `most` that ends `margin` before the deadline, and nothing if that has passed. */
  predicate IsClamped(timeout: nat, deadline: nat, now: nat, margin: nat, most: nat) {
    && timeout <= most
    && (timeout > 0 ==> now + timeout + margin <= deadline)
    && (timeout < most ==> now + timeout + 1 + margin > deadline)
  }

  /** A command is issued iff there is no deadline or the minimal budget is left, with the longest timeout that fits. */
  lemma RestartTimeoutIs(timing: Timing, deadline: Option<nat>, now: nat)
    ensures deadline.None? ==> timing.ClampedRestartTimeout(deadline, now) == Some(timing.commandCeiling)
    ensures deadline.Some? ==>
              var timeout := timing.ClampedRestartTimeout(deadline, now);
              && (timeout.Some? <==> timing.minBudget == 0 || now + timing.minBudget <= deadline.value)
              && (timeout.Some? ==>
                    IsClamped(timeout.value, deadline.value, now, timing.safetyMargin, timing.commandCeiling))
  {
  }

  /** The poll gets the longest timeout that leaves the margin, its whole ceiling without a deadline. */
  lemma HealthPollTimeoutIs(timing: Timing, deadline: Option<nat>, now: nat)
    ensures deadline.None? ==> timing.ClampedHealthPollTimeout(deadline, now) == timing.healthPollCeiling
    ensures deadline.Some? ==>
              IsClamped(timing.ClampedHealthPollTimeout(deadline, now), deadline.value, now, timing.safetyMargin,
                        timing.healthPollCeiling)
  {
  }

  /** The production timing in nanoseconds: 120 s, 10 s, 5 s, 15 s and 1 s. */
  lemma ProductionTimingIs()
    ensures PRODUCTION == Timing(120_000_000_000, 10_000_000_000, 5_000_000_000, 15_000_000_000, 1_000_000_000)
  {
  }

  // ----- Restarts, written out --------------------------------------------------------------------------

  /** A poll, probe by probe: over exactly at the first healthy one or the first that outlasts the timeout. */
  lemma PollIs(es: seq<Event>, from: nat, timeout: nat, interval: nat, healthy: bool, i: nat)
    requires IsPoll(es, from, timeout, interval, healthy) && 2 * i < |es|
    ensures es[2 * i].Probed?
    ensures 2 * i == |es| - 1 <==> es[2 * i].healthy || es[2 * i].ended >= from + timeout
    ensures 2 * i == |es| - 1 ==> healthy == es[2 * i].healthy
    ensures 2 * i < |es| - 1 ==> es[2 * i + 1].Slept? && es[2 * i + 1].ended == es[2 * i + 1].at + interval
  {
    assert (2 * i) % 2 == 0 && (2 * i + 1) % 2 == 1;
  }

  /**
   A restart, command by command: in order, stopping exactly at the first that succeeds, when the minimal
   budget is gone, or when there are no more. It reports a restart iff one succeeded and the poll after it,
   with the timeout that was left then, found the backend healthy.
   */
  lemma RestartIs(runs: seq<Event>, poll: seq<Event>, commands: seq<string>, deadline: Option<nat>, timing: Timing,
                  start: nat, restarted: bool)
    requires IsRestart(runs, poll, commands, deadline, timing, start, restarted)
    ensures |runs| <= |commands|
    ensures forall i :: 0 <= i < |runs| ==> runs[i].Ran? && runs[i].command == commands[i]
    ensures forall i :: 0 <= i < |runs| - 1 ==> runs[i].result != Succeeded
    ensures runs != [] && runs[|runs| - 1].result == Succeeded <==> poll != []
    ensures restarted <==> poll != [] && poll[|poll| - 1].Probed? && poll[|poll| - 1].healthy
    ensures poll != [] ==>
              var end := runs[|runs| - 1].ended;
              IsPoll(poll, end, timing.ClampedHealthPollTimeout(deadline, end), timing.healthPollInterval, restarted)
    ensures poll == [] && |runs| < |commands| ==>
              && deadline.Some? && timing.minBudget > 0
              && (if runs == [] then start else runs[|runs| - 1].ended) + timing.minBudget > deadline.value
  {
    if poll != [] {
      assert poll[|poll| - 1].Probed?;
    }
  }

  lemma {:induction false} TotalIs(n: nat, each: nat)
    ensures Total(n, each) == n * each
  {
    if n > 0 {
      TotalIs(n - 1, each);
    }
  }
}
