/**
 The retry loop around the `gh` CLI (src/github.rs). `GhCli` answers each invocation arbitrarily and
 advances a clock; its timing contract is that a child outlives its timeout by at most `overhead`.
 The delay that error text asks for is arbitrary.
 */
module GhBackoff {
  import opened Wrappers

  const SECOND: nat := 1_000_000_000
  const GH_TIMEOUT: nat := 45 * SECOND
  const GH_MAX_RETRIES: nat := 5
  const GH_RETRY_BASE_DELAY: nat := 2 * SECOND
  const GH_RETRY_MAX_DELAY: nat := 32 * SECOND

  /** `Answered` carries whether `gh` exited zero and, if not, the classified retry delay. */
  datatype Outcome = Unrunnable | Answered(success: bool, wait: Option<nat>)

  datatype Event =
    | Called(at: nat, timeout: nat, outcome: Outcome)
    | Slept(duration: nat)

  datatype Reply = Reply(outcome: Outcome, took: nat)

  function Min(a: nat, b: nat): nat {
    if a <= b then a else b
  }

  function Max(a: nat, b: nat): nat {
    if a >= b then a else b
  }

  function Monus(a: nat, b: nat): nat {
    if a >= b then a - b else 0
  }

  function Pow2(n: nat): nat {
    if n == 0 then 1 else 2 * Pow2(n - 1)
  }

  class GhCli {
    const replies: nat -> Reply
    const overhead: nat
    var now: nat
    var log: seq<Event>

    constructor (replies: nat -> Reply, overhead: nat, now: nat)
      ensures this.replies == replies && this.overhead == overhead && this.now == now && log == []
    {
      this.replies, this.overhead, this.now, log := replies, overhead, now, [];
    }

    method RunWithTimeout(timeout: nat) returns (outcome: Outcome)
      modifies this
      ensures old(now) <= now <= old(now) + timeout + overhead
      ensures log == old(log) + [Called(old(now), timeout, outcome)]
    {
      var reply := replies(|log|);
      outcome := reply.outcome;
      log := log + [Called(now, timeout, outcome)];
      now := now + Min(reply.took, timeout + overhead);
    }

    method Sleep(duration: nat)
      modifies this
      ensures now == old(now) + duration && log == old(log) + [Slept(duration)]
    {
      now := now + duration;
      log := log + [Slept(duration)];
    }
  }

  function Delay(i: nat): nat {
    Pow2(i) * SECOND
  }

  /** The `i`-th sleep, counted from one: what the server asked for, and never less than 2^i seconds. */
  function SleepFor(wait: nat, i: nat): nat {
    Max(wait, Delay(i))
  }

  predicate Retryable(o: Outcome) {
    o.Answered? && !o.success && o.wait.Some?
  }

  /** The time a child may take: the fixed timeout, or what is left of the deadline when the caller asked for that. */
  function ChildTimeout(deadline: Option<nat>, capped: bool, at: nat): nat {
    if capped && deadline.Some? then Min(Monus(deadline.value, at), GH_TIMEOUT) else GH_TIMEOUT
  }

  /** The log of a retry loop: its calls, each followed by its sleep but perhaps the last. */
  function Weave(calls: seq<Event>, sleeps: seq<nat>): seq<Event>
    requires |calls| - 1 <= |sleeps| <= |calls|
    decreases |calls| + |sleeps|
  {
    if calls == [] then []
    else if |sleeps| == |calls| then Weave(calls, sleeps[..|sleeps| - 1]) + [Slept(sleeps[|sleeps| - 1])]
    else Weave(calls[..|calls| - 1], sleeps) + [calls[|calls| - 1]]
  }

  predicate IsCall(e: Event, deadline: Option<nat>, capped: bool) {
    e.Called? && e.timeout == ChildTimeout(deadline, capped, e.at)
  }

  /** Retryable failures `calls[..|sleeps|]`, each slept on as long as it asked or backoff demands. */
  predicate AreRetries(calls: seq<Event>, sleeps: seq<nat>, deadline: Option<nat>, capped: bool) {
    && |sleeps| <= |calls|
    && (forall k :: 0 <= k < |calls| ==> IsCall(calls[k], deadline, capped))
    && (forall k :: 0 <= k < |sleeps| ==>
          Retryable(calls[k].outcome) && sleeps[k] == SleepFor(calls[k].outcome.wait.value, k + 1))
    && (deadline.Some? ==> forall k :: 0 < k < |calls| ==> calls[k].at < deadline.value)
  }

  /** A whole loop: at most five calls, every one but the last a retried failure. */
  predicate IsRetryTrace(calls: seq<Event>, sleeps: seq<nat>, deadline: Option<nat>, capped: bool) {
    1 <= |calls| <= GH_MAX_RETRIES && |sleeps| == |calls| - 1 && AreRetries(calls, sleeps, deadline, capped)
  }

  /** Why the loop stopped: an answer nobody retries, the last attempt, or no time for the next sleep. */
  predicate StopsBecause(last: Outcome, attempts: nat, deadline: Option<nat>, now: nat) {
    || !Retryable(last)
    || attempts == GH_MAX_RETRIES
    || (deadline.Some? && now + SleepFor(last.wait.value, attempts) >= deadline.value)
  }

  lemma {:induction false} WeaveCall(calls: seq<Event>, sleeps: seq<nat>, call: Event)
    requires |calls| == |sleeps|
    ensures Weave(calls + [call], sleeps) == Weave(calls, sleeps) + [call]
  {
    assert (calls + [call])[..|calls|] == calls;
  }

  lemma {:induction false} WeaveSleep(calls: seq<Event>, sleeps: seq<nat>, sleepFor: nat)
    requires |calls| == |sleeps| + 1
    ensures Weave(calls, sleeps + [sleepFor]) == Weave(calls, sleeps) + [Slept(sleepFor)]
  {
    assert (sleeps + [sleepFor])[..|sleeps|] == sleeps;
  }

  lemma NextDelay(attempt: nat)
    requires 1 <= attempt < GH_MAX_RETRIES
    ensures Min(Delay(attempt) * 2, GH_RETRY_MAX_DELAY) == Delay(attempt + 1)
  {
    assert Pow2(1) == 2 && Pow2(2) == 4 && Pow2(3) == 8 && Pow2(4) == 16;
  }

  /** The body of the loop: one child and, if another attempt is due, the sleep before it. */
  method Attempt(gh: GhCli, deadline: Option<nat>, capped: bool, attempt: nat, delay: nat)
    returns (result: Outcome, again: bool, ghost call: Event, ghost sleepFor: nat)
    modifies gh
    ensures IsCall(call, deadline, capped) && call.at == old(gh.now) && call.outcome == result
    ensures gh.log == old(gh.log) + [call] + if again then [Slept(sleepFor)] else []
    ensures again ==> attempt < GH_MAX_RETRIES && Retryable(result) && sleepFor == Max(result.wait.value, delay)
    ensures again && deadline.Some? ==> gh.now < deadline.value
    ensures !again ==>
              || !Retryable(result)
              || attempt >= GH_MAX_RETRIES
              || (deadline.Some? && gh.now + Max(result.wait.value, delay) >= deadline.value)
    ensures !again ==> gh.now <= old(gh.now) + ChildTimeout(deadline, capped, old(gh.now)) + gh.overhead
  {
    var timeout := ChildTimeout(deadline, capped, gh.now);
    result := gh.RunWithTimeout(timeout);
    call, again, sleepFor := Called(old(gh.now), timeout, result), false, 0;
    if result.Unrunnable? || result.success {
      return;
    }
    if result.wait.None? {
      return;
    }
    if attempt >= GH_MAX_RETRIES {
      return;
    }
    var sleeping := Max(result.wait.value, delay);
    if deadline.Some? && gh.now + sleeping >= deadline.value {
      return;
    }
    gh.Sleep(sleeping);
    again, sleepFor := true, sleeping;
  }

  lemma AddRetry(calls: seq<Event>, sleeps: seq<nat>, deadline: Option<nat>, capped: bool, call: Event, sleepFor: nat)
    requires AreRetries(calls, sleeps, deadline, capped) && |calls| == |sleeps|
    requires IsCall(call, deadline, capped) && Retryable(call.outcome)
    requires calls != [] && deadline.Some? ==> call.at < deadline.value
    requires sleepFor == SleepFor(call.outcome.wait.value, |calls| + 1)
    ensures AreRetries(calls + [call], sleeps + [sleepFor], deadline, capped)
  {
  }

  lemma AddLast(calls: seq<Event>, sleeps: seq<nat>, deadline: Option<nat>, capped: bool, call: Event)
    requires AreRetries(calls, sleeps, deadline, capped) && |calls| == |sleeps| < GH_MAX_RETRIES
    requires IsCall(call, deadline, capped)
    requires calls != [] && deadline.Some? ==> call.at < deadline.value
    ensures IsRetryTrace(calls + [call], sleeps, deadline, capped)
  {
  }

  method RunGhWithBackoffCapped(gh: GhCli, deadline: Option<nat>, capped: bool)
    returns (result: Outcome, ghost calls: seq<Event>, ghost sleeps: seq<nat>)
    modifies gh
    ensures IsRetryTrace(calls, sleeps, deadline, capped) && gh.log == old(gh.log) + Weave(calls, sleeps)
    ensures result == calls[|calls| - 1].outcome && StopsBecause(result, |calls|, deadline, gh.now)
    // The first call starts at once; only the last child can overrun the deadline.
    ensures calls[0].at == old(gh.now)
    ensures deadline.Some? && capped ==> gh.now <= Max(old(gh.now), deadline.value) + gh.overhead
    ensures deadline.Some? && !capped ==> gh.now <= Max(old(gh.now), deadline.value) + GH_TIMEOUT + gh.overhead
  {
    calls, sleeps := [], [];
    var delay := GH_RETRY_BASE_DELAY;
    var attempt := 1;
    while attempt <= GH_MAX_RETRIES
      invariant 1 <= attempt <= GH_MAX_RETRIES
      invariant delay == Delay(attempt)
      invariant |calls| == |sleeps| == attempt - 1 && AreRetries(calls, sleeps, deadline, capped)
      invariant gh.log == old(gh.log) + Weave(calls, sleeps)
      invariant if attempt == 1 then gh.now == old(gh.now) else calls[0].at == old(gh.now)
      invariant attempt > 1 && deadline.Some? ==> gh.now < deadline.value
      decreases GH_MAX_RETRIES - attempt
    {
      var again;
      ghost var call, sleepFor;
      result, again, call, sleepFor := Attempt(gh, deadline, capped, attempt, delay);
      WeaveCall(calls, sleeps, call);
      if !again {
        AddLast(calls, sleeps, deadline, capped, call);
        calls := calls + [call];
        return;
      }
      WeaveSleep(calls + [call], sleeps, sleepFor);
      AddRetry(calls, sleeps, deadline, capped, call, sleepFor);
      calls, sleeps := calls + [call], sleeps + [sleepFor];
      NextDelay(attempt);
      delay := Min(delay * 2, GH_RETRY_MAX_DELAY);
      attempt := attempt + 1;
    }
    assert false;
    result := Unrunnable;
  }

  // ----- What every trace guarantees -----------------------------------------------------------

  function Sum(ns: seq<nat>): nat {
    if ns == [] then 0 else Sum(ns[..|ns| - 1]) + ns[|ns| - 1]
  }

  lemma {:induction false} SleepsGrow(calls: seq<Event>, sleeps: seq<nat>, deadline: Option<nat>, capped: bool)
    requires AreRetries(calls, sleeps, deadline, capped)
    ensures Sum(sleeps) >= (Pow2(|sleeps| + 1) - 2) * SECOND
  {
    if sleeps != [] {
      SleepsGrow(calls, sleeps[..|sleeps| - 1], deadline, capped);
      assert sleeps[|sleeps| - 1] >= Pow2(|sleeps|) * SECOND;
    }
  }

  /** Reaching attempt `a` costs at least 2^a - 2 seconds of sleep: 2, 6, 14 and 30 for attempts two to five. */
  lemma {:induction false} BackoffPaysForAttempts(calls: seq<Event>, sleeps: seq<nat>, deadline: Option<nat>, capped: bool)
    requires IsRetryTrace(calls, sleeps, deadline, capped)
    ensures Sum(sleeps) >= (Pow2(|calls|) - 2) * SECOND
  {
    SleepsGrow(calls, sleeps, deadline, capped);
  }

  lemma {:induction false} SleepsBounded(
    calls: seq<Event>, sleeps: seq<nat>, deadline: Option<nat>, capped: bool, longest: nat)
    requires AreRetries(calls, sleeps, deadline, capped) && |sleeps| < GH_MAX_RETRIES
    requires longest >= 16 * SECOND
    requires forall k :: 0 <= k < |sleeps| ==> calls[k].outcome.wait.value <= longest
    ensures Sum(sleeps) <= longest * |sleeps|
  {
    if sleeps != [] {
      var n := |sleeps|;
      SleepsBounded(calls, sleeps[..n - 1], deadline, capped, longest);
      assert Pow2(1) == 2 && Pow2(2) == 4 && Pow2(3) == 8 && Pow2(4) == 16;
      assert sleeps[n - 1] <= longest;
      assert longest * n == longest * (n - 1) + longest;
    }
  }

  /** When no answer asks for more than the 32 second ceiling, all the sleeping together is at most 128 seconds. */
  lemma {:induction false} WorstCaseSleep(calls: seq<Event>, sleeps: seq<nat>, deadline: Option<nat>, capped: bool)
    requires IsRetryTrace(calls, sleeps, deadline, capped)
    requires forall k :: 0 <= k < |sleeps| ==> calls[k].outcome.wait.value <= GH_RETRY_MAX_DELAY
    ensures Sum(sleeps) <= 128 * SECOND
  {
    SleepsBounded(calls, sleeps, deadline, capped, GH_RETRY_MAX_DELAY);
  }

  // ----- Attempts, written out -----------------------------------------------------------------------

  /** `timeout` is 45 seconds or, capped, the longest shorter time that ends by the deadline. */
  predicate IsChildTimeout(timeout: nat, deadline: Option<nat>, capped: bool, at: nat) {
    && timeout <= 45_000_000_000
    && (capped && deadline.Some? && timeout > 0 ==> at + timeout <= deadline.value)
    && (timeout < 45_000_000_000 ==> capped && deadline.Some? && at + timeout + 1 > deadline.value)
  }

  /** The pauses demanded before attempts two to five. */
  function BackoffSeconds(i: nat): nat {
    if i == 1 then 2 else if i == 2 then 4 else if i == 3 then 8 else 16
  }

  /**
   Every trace, call by call: at most five calls, each with its timeout; each but the last an exit of
   `gh` with a failure that may be retried, slept on for what it asked or 2, 4, 8 and 16 seconds,
   whichever is more; and each but the first begun before the deadline.
   */
  lemma {:induction false} AttemptsAre(calls: seq<Event>, sleeps: seq<nat>, deadline: Option<nat>, capped: bool)
    requires IsRetryTrace(calls, sleeps, deadline, capped)
    ensures 1 <= |calls| <= 5 && |sleeps| == |calls| - 1
    ensures forall k :: 0 <= k < |calls| ==> calls[k].Called? && IsChildTimeout(calls[k].timeout, deadline, capped, calls[k].at)
    ensures forall k :: 0 <= k < |sleeps| ==>
              && calls[k].outcome.Answered? && !calls[k].outcome.success && calls[k].outcome.wait.Some?
              && sleeps[k] >= BackoffSeconds(k + 1) * 1_000_000_000 && sleeps[k] >= calls[k].outcome.wait.value
              && (sleeps[k] == BackoffSeconds(k + 1) * 1_000_000_000 || sleeps[k] == calls[k].outcome.wait.value)
    ensures deadline.Some? ==> forall k :: 0 < k < |calls| ==> calls[k].at < deadline.value
  {
    assert Pow2(1) == 2 && Pow2(2) == 4 && Pow2(3) == 8 && Pow2(4) == 16;
  }

  /**
   Why it stops: `gh` could not be run, succeeded or failed for good; five attempts; or the sleep before
   the next would not end before the deadline.
   */
  lemma {:induction false} StopsOnlyBecause(last: Outcome, attempts: nat, deadline: Option<nat>, now: nat)
    requires 1 <= attempts <= 5 && StopsBecause(last, attempts, deadline, now)
    ensures last.Unrunnable? || last.success || last.wait.None? || attempts == 5
            || (&& deadline.Some?
                && (|| now + last.wait.value >= deadline.value
                    || now + BackoffSeconds(attempts) * 1_000_000_000 >= deadline.value))
  {
    assert Pow2(1) == 2 && Pow2(2) == 4 && Pow2(3) == 8 && Pow2(4) == 16;
  }
}
