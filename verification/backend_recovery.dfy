/**
 The backend restart budget of src/main.rs: a 60 second cooldown between restarts and at most
 three per fixed window. Instants are nanoseconds of a monotonic clock.
 */
module BackendRecovery {
  import opened Wrappers

  const SECOND: nat := 1_000_000_000
  const COOLDOWN: nat := 60 * SECOND
  const WINDOW: nat := 600 * SECOND
  const MAX_ATTEMPTS: nat := 3

  datatype Budget = Budget(windowStarted: nat, attempts: nat, lastRestart: Option<nat>)

  function Created(now: nat): Budget {
    Budget(now, 0, None)
  }

  /** `duration_since`, which saturates at zero. */
  function Since(now: nat, then_: nat): nat {
    if now >= then_ then now - then_ else 0
  }

  function Rolled(b: Budget, now: nat): Budget {
    if Since(now, b.windowStarted) > WINDOW then b.(windowStarted := now, attempts := 0) else b
  }

  function Asked(b: Budget, now: nat): (Budget, bool) {
    var rolled := Rolled(b, now);
    if rolled.lastRestart.Some? && Since(now, rolled.lastRestart.value) < COOLDOWN then (rolled, false)
    else if rolled.attempts >= MAX_ATTEMPTS then (rolled, false)
    else (rolled.(attempts := rolled.attempts + 1, lastRestart := Some(now)), true)
  }

  class BackendRecoveryState {
    var windowStarted: nat
    var attemptsInWindow: nat
    var lastRestartAt: Option<nat>

    function View(): Budget
      reads this
    {
      Budget(windowStarted, attemptsInWindow, lastRestartAt)
    }

    constructor (now: nat)
      ensures View() == Created(now)
    {
      windowStarted, attemptsInWindow, lastRestartAt := now, 0, None;
    }

    method AllowRestart(now: nat) returns (allowed: bool)
      modifies this
      ensures (View(), allowed) == Asked(old(View()), now)
    {
      if Since(now, windowStarted) > WINDOW {
        windowStarted := now;
        attemptsInWindow := 0;
      }
      if lastRestartAt.Some? && Since(now, lastRestartAt.value) < COOLDOWN {
        return false;
      }
      if attemptsInWindow >= MAX_ATTEMPTS {
        return false;
      }
      attemptsInWindow := attemptsInWindow + 1;
      lastRestartAt := Some(now);
      return true;
    }
  }

  // ----- Runs ------------------------------------------------------------------------------

  function After(created: nat, asks: seq<nat>): Budget {
    if asks == [] then Created(created) else Asked(After(created, asks[..|asks| - 1]), asks[|asks| - 1]).0
  }

  /** The instants, in order, at which a restart was allowed. */
  function Allowed(created: nat, asks: seq<nat>): seq<nat> {
    if asks == [] then []
    else
      var now := asks[|asks| - 1];
      Allowed(created, asks[..|asks| - 1])
      + if Asked(After(created, asks[..|asks| - 1]), now).1 then [now] else []
  }

  /** A monotonic clock read from `created` on. */
  ghost predicate Clocked(created: nat, asks: seq<nat>) {
    && (forall i :: 0 <= i < |asks| ==> created <= asks[i])
    && (forall i, j :: 0 <= i < j < |asks| ==> asks[i] <= asks[j])
  }

  /** The fixed windows opened so far, and for each allowed restart the window it was charged to. */
  datatype Ledger = Ledger(starts: seq<nat>, window: seq<nat>)

  ghost predicate Charged(created: nat, b: Budget, ts: seq<nat>, l: Ledger) {
    && l.starts != [] && l.starts[0] == created && l.starts[|l.starts| - 1] == b.windowStarted
    && (forall k :: 0 < k < |l.starts| ==> l.starts[k - 1] + WINDOW < l.starts[k])
    && |l.window| == |ts|
    && (forall i :: 0 <= i < |ts| ==> l.window[i] < |l.starts| && l.starts[l.window[i]] <= ts[i])
    && (forall i, k :: 0 <= i < |ts| && l.window[i] < k < |l.starts| ==> ts[i] <= l.starts[k])
    && (forall i :: 0 <= i < |ts| - 3 ==> l.window[i] < l.window[i + 3])
    && b.attempts <= MAX_ATTEMPTS && b.attempts <= |ts|
    && (forall i :: 0 <= i < |ts| - b.attempts ==> l.window[i] < |l.starts| - 1)
  }

  ghost predicate Cooled(b: Budget, ts: seq<nat>) {
    && b.lastRestart == (if ts == [] then None else Some(ts[|ts| - 1]))
    && (forall i, j :: 0 <= i < j < |ts| ==> ts[i] + COOLDOWN <= ts[j])
  }

  lemma RollKeepsCharges(created: nat, b: Budget, ts: seq<nat>, before: Ledger, now: nat) returns (l: Ledger)
    requires Charged(created, b, ts, before)
    requires forall i :: 0 <= i < |ts| ==> ts[i] <= now
    ensures Charged(created, Rolled(b, now), ts, l)
  {
    l := if Since(now, b.windowStarted) > WINDOW then before.(starts := before.starts + [now]) else before;
  }

  lemma AllowKeepsCharges(created: nat, b: Budget, ts: seq<nat>, l: Ledger, now: nat)
    requires Charged(created, b, ts, l) && b.attempts < MAX_ATTEMPTS && b.windowStarted <= now
    ensures Charged(created, b.(attempts := b.attempts + 1, lastRestart := Some(now)), ts + [now],
                    l.(window := l.window + [|l.starts| - 1]))
  {
    var window := l.window + [|l.starts| - 1];
    forall i | 0 <= i < |ts| + 1 - 3 ensures window[i] < window[i + 3] {
      if i + 3 == |ts| {
        assert i < |ts| - b.attempts;
      }
    }
  }

  lemma AskKeepsCharges(created: nat, b: Budget, ts: seq<nat>, before: Ledger, now: nat) returns (l: Ledger)
    requires Charged(created, b, ts, before) && b.windowStarted <= now
    requires forall i :: 0 <= i < |ts| ==> ts[i] <= now
    ensures Charged(created, Asked(b, now).0, ts + (if Asked(b, now).1 then [now] else []), l)
  {
    l := RollKeepsCharges(created, b, ts, before, now);
    if Asked(b, now).1 {
      AllowKeepsCharges(created, Rolled(b, now), ts, l, now);
      l := l.(window := l.window + [|l.starts| - 1]);
    } else {
      assert ts + [] == ts;
    }
  }

  lemma {:induction false} RunIsCharged(created: nat, asks: seq<nat>) returns (l: Ledger)
    requires Clocked(created, asks)
    ensures Charged(created, After(created, asks), Allowed(created, asks), l)
  {
    if asks == [] {
      return Ledger([created], []);
    }
    var front := asks[..|asks| - 1];
    l := RunIsCharged(created, front);
    WindowInThePast(created, front);
    RunIsCooled(created, front);
    l := AskKeepsCharges(created, After(created, front), Allowed(created, front), l, asks[|asks| - 1]);
  }

  lemma {:induction false} WindowInThePast(created: nat, asks: seq<nat>)
    requires Clocked(created, asks)
    ensures After(created, asks).windowStarted <= if asks == [] then created else asks[|asks| - 1]
  {
    if asks != [] {
      WindowInThePast(created, asks[..|asks| - 1]);
    }
  }

  lemma {:induction false} AskKeepsCool(b: Budget, ts: seq<nat>, now: nat)
    requires Cooled(b, ts) && forall i :: 0 <= i < |ts| ==> ts[i] <= now
    ensures Cooled(Asked(b, now).0, ts + if Asked(b, now).1 then [now] else [])
  {
    if Asked(b, now).1 {
      forall i | 0 <= i < |ts| ensures ts[i] + COOLDOWN <= now {
        assert ts[i] <= ts[|ts| - 1];
      }
    } else {
      assert ts + [] == ts;
    }
  }

  lemma {:induction false} RunIsCooled(created: nat, asks: seq<nat>)
    requires Clocked(created, asks)
    ensures Cooled(After(created, asks), Allowed(created, asks))
    ensures asks != [] ==> forall i :: 0 <= i < |Allowed(created, asks)| ==> Allowed(created, asks)[i] <= asks[|asks| - 1]
  {
    if asks != [] {
      var front, now := asks[..|asks| - 1], asks[|asks| - 1];
      RunIsCooled(created, front);
      assert forall i :: 0 <= i < |Allowed(created, front)| ==> Allowed(created, front)[i] <= now;
      AskKeepsCool(After(created, front), Allowed(created, front), now);
    }
  }

  /** Allowed restarts are at least 60 seconds apart. */
  lemma {:induction false} RestartsCoolDown(created: nat, asks: seq<nat>, i: nat, j: nat)
    requires Clocked(created, asks) && i < j < |Allowed(created, asks)|
    ensures Allowed(created, asks)[i] + COOLDOWN <= Allowed(created, asks)[j]
  {
    RunIsCooled(created, asks);
  }

  /** Any closed interval of 600 seconds holds at most six allowed restarts: the seventh is always later. */
  lemma {:induction false} AtMostSixPerSlidingWindow(created: nat, asks: seq<nat>, i: nat)
    requires Clocked(created, asks) && i + 6 < |Allowed(created, asks)|
    ensures Allowed(created, asks)[i] + WINDOW < Allowed(created, asks)[i + 6]
  {
    var l := RunIsCharged(created, asks);
    var ts := Allowed(created, asks);
    var middle := l.window[i + 3];
    assert l.window[i] < middle < l.window[i + 3 + 3];
    assert ts[i] <= l.starts[middle];
    StartsAreApart(l.starts, middle, l.window[i + 6]);
  }

  lemma {:induction false} StartsAreApart(starts: seq<nat>, j: nat, k: nat)
    requires j < k < |starts|
    requires forall m :: 0 < m < |starts| ==> starts[m - 1] + WINDOW < starts[m]
    ensures starts[j] + WINDOW * (k - j) < starts[k]
  {
    if j + 1 < k {
      StartsAreApart(starts, j, k - 1);
    }
  }

  lemma {:induction false} WindowsUsed(created: nat, b: Budget, ts: seq<nat>, l: Ledger, i: nat)
    requires Charged(created, b, ts, l) && i < |ts|
    ensures l.window[i] >= i / 3
  {
    if i >= 3 {
      WindowsUsed(created, b, ts, l, i - 3);
      assert l.window[i - 3] < l.window[i - 3 + 3];
    }
  }

  lemma ChargedWindow(created: nat, b: Budget, ts: seq<nat>, l: Ledger, i: nat)
    requires Charged(created, b, ts, l) && i < |ts|
    ensures created + WINDOW * (i / 3) <= ts[i]
  {
    WindowsUsed(created, b, ts, l, i);
    if l.window[i] > 0 {
      StartsAreApart(l.starts, 0, l.window[i]);
    }
  }

  lemma WholeWindows(windows: nat, elapsed: nat)
    requires WINDOW * windows <= elapsed
    ensures windows <= elapsed / WINDOW
  {
  }

  /** Within `elapsed` of creation at most 3 * (1 + floor(elapsed / 600 s)) restarts are allowed. */
  lemma {:induction false} RestartsSinceCreation(created: nat, asks: seq<nat>, elapsed: nat, n: nat)
    requires Clocked(created, asks) && 0 < n <= |Allowed(created, asks)|
    requires Allowed(created, asks)[n - 1] <= created + elapsed
    ensures n <= MAX_ATTEMPTS * (1 + elapsed / WINDOW)
  {
    var l := RunIsCharged(created, asks);
    ChargedWindow(created, After(created, asks), Allowed(created, asks), l, n - 1);
    WholeWindows((n - 1) / 3, elapsed);
  }

  /** The first `i` asks were all allowed, and left `b`. */
  ghost predicate AllAllowed(asks: seq<nat>, i: nat, b: Budget) {
    i <= |asks| && After(0, asks[..i]) == b && Allowed(0, asks[..i]) == asks[..i]
  }

  lemma {:induction false} AllowedAgain(asks: seq<nat>, i: nat, b: Budget)
    requires AllAllowed(asks, i, b) && i < |asks| && Asked(b, asks[i]).1
    ensures AllAllowed(asks, i + 1, Asked(b, asks[i]).0)
  {
    assert asks[..i + 1][..i] == asks[..i];
  }

  lemma {:induction false} ThreeAllowed(asks: seq<nat>, i: nat, b: Budget, start: nat)
    requires AllAllowed(asks, i, b) && i + 3 <= |asks| && Rolled(b, asks[i]).windowStarted == start
    requires Rolled(b, asks[i]).attempts == 0 && start <= asks[i] && asks[i + 2] <= start + WINDOW
    requires b.lastRestart.Some? ==> b.lastRestart.value + COOLDOWN <= asks[i]
    requires asks[i] + COOLDOWN <= asks[i + 1] && asks[i + 1] + COOLDOWN <= asks[i + 2]
    ensures AllAllowed(asks, i + 3, Budget(start, 3, Some(asks[i + 2])))
  {
    AllowedAgain(asks, i, b);
    AllowedAgain(asks, i + 1, Budget(start, 1, Some(asks[i])));
    AllowedAgain(asks, i + 2, Budget(start, 2, Some(asks[i + 1])));
  }

  /** Six restarts can fall within 300 seconds: three at the end of one fixed window, three in the next. */
  lemma SixInFiveMinutes() returns (asks: seq<nat>)
    ensures Clocked(0, asks) && Allowed(0, asks) == asks
    ensures |asks| == 6 && asks[5] == asks[0] + 300 * SECOND
  {
    asks := [480 * SECOND, 540 * SECOND, 600 * SECOND, 660 * SECOND, 720 * SECOND, 780 * SECOND];
    ThreeAllowed(asks, 0, Created(0), 0);
    ThreeAllowed(asks, 3, Budget(0, 3, Some(600 * SECOND)), 660 * SECOND);
    assert asks[..6] == asks;
  }

  /** And never within less. */
  lemma {:induction false} SixTakeFiveMinutes(created: nat, asks: seq<nat>, i: nat)
    requires Clocked(created, asks) && i + 5 < |Allowed(created, asks)|
    ensures Allowed(created, asks)[i] + 300 * SECOND <= Allowed(created, asks)[i + 5]
  {
    RestartsCoolDown(created, asks, i, i + 1);
    RestartsCoolDown(created, asks, i + 1, i + 2);
    RestartsCoolDown(created, asks, i + 2, i + 3);
    RestartsCoolDown(created, asks, i + 3, i + 4);
    RestartsCoolDown(created, asks, i + 4, i + 5);
  }

  // ----- One request, written out ------------------------------------------------------------------------

  /**
   A restart is allowed iff none was within the last 60 seconds and the window is older than 600 seconds
   or has had fewer than three; allowing it counts it and dates it, in a new window if the old one is over.
   */
  lemma AllowedIff(b: Budget, now: nat)
    ensures var over := now > b.windowStarted + 600_000_000_000;
            var (after, allowed) := Asked(b, now);
            && (allowed <==>
                && (b.lastRestart.Some? ==> now >= b.lastRestart.value + 60_000_000_000)
                && (over || b.attempts < 3))
            && after.windowStarted == (if over then now else b.windowStarted)
            && after.attempts == (if over then 0 else b.attempts) + (if allowed then 1 else 0)
            && after.lastRestart == if allowed then Some(now) else b.lastRestart
  {
  }
}
