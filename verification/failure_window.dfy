/**
 The rolling window and the circuits of the failure ladder, read off the events alone: which failures
 are stored, when a slot opens, when it is open, and when the fleet is paused.
 */
module FailureWindows {
  import opened Wrappers
  import opened Decimal
  import opened FailureLadderModel
  import opened FailureLadderRuns

  predicate IsFailure(es: seq<Event>, slot: u32, k: nat)
    requires k < |es|
  {
    es[k].Failed? && es[k].slot == slot
  }

  /** Event `m` clears the slot's history: a success, or a failure that opens it. */
  predicate Clears(p: Policy, es: seq<Event>, slot: u32, m: nat)
    requires m < |es|
  {
    es[m].slot == slot && (es[m].Started? || Reported(p, es, m).slotOpened)
  }

  /** Failure `k` of the slot is not cleared before event `n`. */
  ghost predicate IsPending(p: Policy, es: seq<Event>, slot: u32, k: nat, n: nat)
    requires n <= |es|
  {
    k < n && IsFailure(es, slot, k) && forall m :: k <= m < n ==> !Clears(p, es, slot, m)
  }

  /** No failure of the slot from `k` up to event `n` came more than the window after `k`. */
  ghost predicate IsRecent(p: Policy, es: seq<Event>, slot: u32, k: nat, n: nat)
    requires k < n <= |es|
  {
    forall l :: k <= l < n && IsFailure(es, slot, l) ==> es[l].at - es[k].at <= p.slotWindowSecs
  }

  /** The increasing places of exactly these failures, whose times are `stored`. */
  ghost predicate ArePlaces(p: Policy, es: seq<Event>, slot: u32, n: nat, ks: seq<nat>, stored: seq<u64>)
    requires n <= |es|
  {
    && |ks| == |stored|
    && (forall i :: 0 <= i < |ks| ==> ks[i] < n && es[ks[i]].at == stored[i])
    && (forall i, j :: 0 <= i < j < |ks| ==> ks[i] < ks[j])
    && (forall k: nat :: k in ks <==> IsPending(p, es, slot, k, n) && IsRecent(p, es, slot, k, n))
  }

  // ----- Pruning a list --------------------------------------------------------------------------

  /** The places, among `ks`, of the failures within the window of `now`. */
  function Keep(es: seq<Event>, ks: seq<nat>, now: u64, window: u64): seq<nat>
    requires forall i :: 0 <= i < |ks| ==> ks[i] < |es|
  {
    if ks == [] then []
    else
      var rest := Keep(es, ks[..|ks| - 1], now, window);
      var k := ks[|ks| - 1];
      if now - es[k].at <= window then rest + [k] else rest
  }

  lemma {:induction false} KeepIs(es: seq<Event>, ks: seq<nat>, now: u64, window: u64)
    requires forall i :: 0 <= i < |ks| ==> ks[i] < |es|
    requires forall i, j :: 0 <= i < j < |ks| ==> ks[i] < ks[j]
    ensures var kept := Keep(es, ks, now, window);
            && (forall k :: k in kept <==> k in ks && now - es[k].at <= window)
            && (forall i, j :: 0 <= i < j < |kept| ==> kept[i] < kept[j])
  {
    if ks != [] {
      var n := |ks| - 1;
      KeepIs(es, ks[..n], now, window);
      assert ks == ks[..n] + [ks[n]];
      var rest := Keep(es, ks[..n], now, window);
      forall i | 0 <= i < |rest| ensures rest[i] < ks[n] {
        assert rest[i] in rest;
      }
    }
  }

  /** Pruning the times is pruning the places. */
  lemma {:induction false} RecentIsKeep(es: seq<Event>, ks: seq<nat>, stored: seq<u64>, now: u64, window: u64)
    requires |ks| == |stored| && forall i :: 0 <= i < |ks| ==> ks[i] < |es| && es[ks[i]].at == stored[i]
    ensures var kept, recent := Keep(es, ks, now, window), Recent(stored, now, window);
            |kept| == |recent| && forall i :: 0 <= i < |kept| ==> kept[i] < |es| && es[kept[i]].at == recent[i]
  {
    if ks != [] {
      var n := |ks| - 1;
      RecentIsKeep(es, ks[..n], stored[..n], now, window);
    }
  }

  // ----- The stored list -------------------------------------------------------------------------

  lemma {:induction false} PrefixReports(p: Policy, es: seq<Event>, n: nat, m: nat)
    requires m < n <= |es|
    ensures Reported(p, es[..n], m) == Reported(p, es, m)
  {
    assert es[..n][..m] == es[..m];
  }

  function Stored(p: Policy, es: seq<Event>, slot: u32, n: nat): seq<u64>
    requires n <= |es|
  {
    SlotOrDefault(Run(p, es[..n]), slot).failures
  }

  /** What one event does to a slot's stored list. */
  lemma {:induction false} StoredStep(p: Policy, es: seq<Event>, slot: u32, n: nat)
    requires n < |es|
    ensures Stored(p, es, slot, n + 1) ==
            if es[n].slot != slot then Stored(p, es, slot, n)
            else if Clears(p, es, slot, n) then []
            else Recent(Stored(p, es, slot, n), es[n].at, p.slotWindowSecs) + [es[n].at]
  {
    assert es[..n + 1][..n] == es[..n];
    var l, e := Run(p, es[..n]), es[n];
    if e.slot != slot {
      OtherSlotState(p, l, e, slot);
    }
  }

  lemma {:induction false} PlacesAfterClearing(p: Policy, es: seq<Event>, slot: u32, n: nat)
    requires n < |es| && Clears(p, es, slot, n)
    ensures ArePlaces(p, es, slot, n + 1, [], [])
  {
  }

  lemma {:induction false} PlacesAfterOther(p: Policy, es: seq<Event>, slot: u32, n: nat, ks: seq<nat>, stored: seq<u64>)
    requires n < |es| && es[n].slot != slot && ArePlaces(p, es, slot, n, ks, stored)
    ensures ArePlaces(p, es, slot, n + 1, ks, stored)
  {
    forall k: nat ensures k in ks <==> IsPending(p, es, slot, k, n + 1) && IsRecent(p, es, slot, k, n + 1) {
      if k < n && IsFailure(es, slot, k) {
        assert IsPending(p, es, slot, k, n) <==> IsPending(p, es, slot, k, n + 1);
        assert IsRecent(p, es, slot, k, n) <==> IsRecent(p, es, slot, k, n + 1);
      }
    }
  }

  lemma {:induction false} PlacesAfterFailure(p: Policy, es: seq<Event>, slot: u32, n: nat, ks: seq<nat>, stored: seq<u64>)
    returns (more: seq<nat>)
    requires n < |es| && IsFailure(es, slot, n) && !Clears(p, es, slot, n) && ArePlaces(p, es, slot, n, ks, stored)
    ensures ArePlaces(p, es, slot, n + 1, more, Recent(stored, es[n].at, p.slotWindowSecs) + [es[n].at])
  {
    KeepIs(es, ks, es[n].at, p.slotWindowSecs);
    RecentIsKeep(es, ks, stored, es[n].at, p.slotWindowSecs);
    var kept := Keep(es, ks, es[n].at, p.slotWindowSecs);
    more := kept + [n];
    forall k: nat ensures k in more <==> IsPending(p, es, slot, k, n + 1) && IsRecent(p, es, slot, k, n + 1) {
      if k < n && IsFailure(es, slot, k) {
        assert IsPending(p, es, slot, k, n) <==> IsPending(p, es, slot, k, n + 1);
        assert IsRecent(p, es, slot, k, n + 1) <==>
               IsRecent(p, es, slot, k, n) && es[n].at - es[k].at <= p.slotWindowSecs;
      }
    }
    forall i | 0 <= i < |more| ensures more[i] < n + 1 {
      assert more[i] in more;
    }
    forall i, j | 0 <= i < j < |more| ensures more[i] < more[j] {
      if j == |kept| {
        assert more[i] in kept;
      }
    }
  }

  /** One event's effect on the places, given its effect on the list. */
  lemma {:induction false} PlacesNext(
    p: Policy, es: seq<Event>, slot: u32, n: nat, ks: seq<nat>, stored: seq<u64>, next: seq<u64>) returns (more: seq<nat>)
    requires n < |es| && ArePlaces(p, es, slot, n, ks, stored)
    requires next == if es[n].slot != slot then stored
                     else if Clears(p, es, slot, n) then []
                     else Recent(stored, es[n].at, p.slotWindowSecs) + [es[n].at]
    ensures ArePlaces(p, es, slot, n + 1, more, next)
  {
    if es[n].slot != slot {
      PlacesAfterOther(p, es, slot, n, ks, stored);
      more := ks;
    } else if Clears(p, es, slot, n) {
      PlacesAfterClearing(p, es, slot, n);
      more := [];
    } else {
      more := PlacesAfterFailure(p, es, slot, n, ks, stored);
    }
  }

  /**
   For every run, any clock: the stored list is the times, in order, of exactly the slot's failures that
   are not cleared by a later success or opening and that no later failure came too long after.
   */
  lemma {:induction false} StoredFailuresAre(p: Policy, es: seq<Event>, slot: u32, n: nat) returns (ks: seq<nat>)
    requires n <= |es|
    ensures ArePlaces(p, es, slot, n, ks, SlotOrDefault(Run(p, es[..n]), slot).failures)
  {
    ks := [];
    if n > 0 {
      ks := StoredFailuresAre(p, es, slot, n - 1);
      StoredStep(p, es, slot, n - 1);
      ks := PlacesNext(p, es, slot, n - 1, ks, Stored(p, es, slot, n - 1), Stored(p, es, slot, n));
    }
  }

  // ----- When a slot opens -----------------------------------------------------------------------

  lemma {:induction false} CountPlaces(ks: seq<nat>, places: set<nat>)
    requires forall i, j :: 0 <= i < j < |ks| ==> ks[i] < ks[j]
    requires forall k: nat :: k in ks <==> k in places
    ensures |ks| == |places|
  {
    if ks == [] {
      assert places == {};
    } else {
      var n := |ks| - 1;
      assert ks == ks[..n] + [ks[n]];
      CountPlaces(ks[..n], places - {ks[n]});
    }
  }

  /** The failures that count when event `i` fails: the slot's, not cleared, within the window of `i`, `i` included. */
  ghost function Counted(p: Policy, es: seq<Event>, i: nat): set<nat>
    requires i < |es| && es[i].Failed?
  {
    set k: nat | k <= i && es[k].Failed? && es[k].slot == es[i].slot && es[i].at - es[k].at <= p.slotWindowSecs
                 && (forall m :: k <= m < i ==> es[m].slot == es[i].slot ==>
                                   es[m].Failed? && !Reported(p, es, m).slotOpened)
  }

  lemma {:induction false} CountedAre(p: Policy, es: seq<Event>, i: nat)
    requires Ordered(es) && i < |es| && es[i].Failed?
    ensures |Counted(p, es, i)| == |Recent(Stored(p, es, es[i].slot, i), es[i].at, p.slotWindowSecs)| + 1
  {
    var slot := es[i].slot;
    var ks := StoredFailuresAre(p, es, slot, i);
    var stored := Stored(p, es, slot, i);
    KeepIs(es, ks, es[i].at, p.slotWindowSecs);
    RecentIsKeep(es, ks, stored, es[i].at, p.slotWindowSecs);
    var kept := Keep(es, ks, es[i].at, p.slotWindowSecs);
    forall k: nat ensures k in kept <==> k in Counted(p, es, i) - {i} {
      CountedBefore(p, es, i, k);
    }
    CountPlaces(kept, Counted(p, es, i) - {i});
    assert i in Counted(p, es, i);
  }

  lemma {:induction false} CountedBefore(p: Policy, es: seq<Event>, i: nat, k: nat)
    requires Ordered(es) && i < |es| && es[i].Failed?
    ensures k in Counted(p, es, i) && k != i <==>
            && k < i && IsPending(p, es, es[i].slot, k, i) && IsRecent(p, es, es[i].slot, k, i)
            && es[i].at - es[k].at <= p.slotWindowSecs
  {
    if k < i {
      assert IsPending(p, es, es[i].slot, k, i) <==>
             es[k].Failed? && es[k].slot == es[i].slot &&
             forall m :: k <= m < i ==> es[m].slot == es[i].slot ==> es[m].Failed? && !Reported(p, es, m).slotOpened
      by {
        forall m | k <= m < i ensures !Clears(p, es, es[i].slot, m) <==>
            (es[m].slot == es[i].slot ==> es[m].Failed? && !Reported(p, es, m).slotOpened) {}
      }
    }
  }

  /**
   A failure opens its slot iff the slot is not open and the failures that count reach the threshold;
   their number is the one reported.
   */
  lemma {:induction false} OpensIffCountReachesThreshold(p: Policy, es: seq<Event>, i: nat)
    requires Ordered(es) && i < |es| && es[i].Failed?
    ensures Reported(p, es, i).slotFailureCount == |Counted(p, es, i)|
    ensures Reported(p, es, i).slotOpened <==>
            !Run(p, es[..i]).SlotIsOpen(es[i].slot, es[i].at) && |Counted(p, es, i)| >= p.slotFailureThreshold
  {
    CountedAre(p, es, i);
  }

  // ----- When a slot is open ---------------------------------------------------------------------

  /** Event `m` opened the slot, no success came since, and its cooldown, cut off at the last u64, still runs. */
  predicate IsHeldBy(p: Policy, es: seq<Event>, slot: u32, m: nat, now: u64)
    requires m < |es|
  {
    && es[m].slot == slot && Reported(p, es, m).slotOpened
    && now < es[m].at + p.slotCooldownSecs && now < 0xFFFF_FFFF_FFFF_FFFF
    && forall k :: m < k < |es| && es[k].slot == slot ==> es[k].Failed?
  }

  lemma {:induction false} StepOpen(p: Policy, l: Ledger, e: Event, now: u64)
    requires e.at <= now
    ensures Step(p, l, e).0.SlotIsOpen(e.slot, now) <==>
            if e.Started? then false
            else if Step(p, l, e).1.slotOpened then
              now < e.at + p.slotCooldownSecs && now < 0xFFFF_FFFF_FFFF_FFFF
            else l.SlotIsOpen(e.slot, now)
  {
  }

  lemma {:induction false} HeldPrefix(p: Policy, es: seq<Event>, slot: u32, m: nat, now: u64)
    requires m < |es| - 1
    ensures IsHeldBy(p, es, slot, m, now) <==>
            IsHeldBy(p, es[..|es| - 1], slot, m, now) && (es[|es| - 1].slot == slot ==> es[|es| - 1].Failed?)
  {
    var n := |es| - 1;
    assert es[..n][..m] == es[..m];
    if IsHeldBy(p, es[..n], slot, m, now) && (es[n].slot == slot ==> es[n].Failed?) {
      forall k | m < k < |es| && es[k].slot == slot ensures es[k].Failed? {
        assert k < n ==> es[..n][k] == es[k];
      }
    }
    if IsHeldBy(p, es, slot, m, now) {
      forall k | m < k < n && es[..n][k].slot == slot ensures es[..n][k].Failed? {
        assert es[..n][k] == es[k];
      }
    }
  }

  ghost predicate IsHeld(p: Policy, es: seq<Event>, slot: u32, now: u64) {
    exists m: nat :: m < |es| && IsHeldBy(p, es, slot, m, now)
  }

  lemma {:induction false} HeldLess(p: Policy, es: seq<Event>, slot: u32, m: nat, now: u64)
    requires m < |es| && IsHeldBy(p, es, slot, m, now)
    ensures var n := |es| - 1;
            m == n || (IsHeld(p, es[..n], slot, now) && (es[n].slot == slot ==> es[n].Failed?))
  {
    if m < |es| - 1 {
      HeldPrefix(p, es, slot, m, now);
    }
  }

  lemma {:induction false} HeldMore(p: Policy, es: seq<Event>, slot: u32, m: nat, now: u64)
    requires m < |es| - 1 && IsHeldBy(p, es[..|es| - 1], slot, m, now)
    requires es[|es| - 1].slot == slot ==> es[|es| - 1].Failed?
    ensures IsHeld(p, es, slot, now)
  {
    HeldPrefix(p, es, slot, m, now);
  }

  lemma {:induction false} HeldStep(p: Policy, es: seq<Event>, slot: u32, now: u64)
    requires es != []
    ensures var n := |es| - 1;
            IsHeld(p, es, slot, now) <==>
            IsHeldBy(p, es, slot, n, now) || (IsHeld(p, es[..n], slot, now) && (es[n].slot == slot ==> es[n].Failed?))
  {
    var n := |es| - 1;
    if IsHeld(p, es, slot, now) {
      var m: nat :| m < |es| && IsHeldBy(p, es, slot, m, now);
      HeldLess(p, es, slot, m, now);
    } else if IsHeld(p, es[..n], slot, now) && (es[n].slot == slot ==> es[n].Failed?) {
      var m: nat :| m < n && IsHeldBy(p, es[..n], slot, m, now);
      HeldMore(p, es, slot, m, now);
    }
  }

  /** When the last event opens the slot, only it can hold the slot open. */
  lemma {:induction false} OpensAfterCooldown(p: Policy, es: seq<Event>, slot: u32, now: u64)
    requires es != [] && Ordered(es) && LastAt(es) <= now
    requires es[|es| - 1].slot == slot && Reported(p, es, |es| - 1).slotOpened
    ensures !IsHeld(p, es[..|es| - 1], slot, now)
    decreases es, 0
  {
    var n := |es| - 1;
    if m: nat :| m < n && IsHeldBy(p, es[..n], slot, m, now) {
      SlotIsOpenIff(p, es[..n], slot, es[n].at);
      assert IsHeldBy(p, es[..n], slot, m, es[n].at);
      assert false;
    }
  }

  /** In every ordered run a slot is open iff some opening still holds it. */
  lemma {:induction false} SlotIsOpenIff(p: Policy, es: seq<Event>, slot: u32, now: u64)
    requires Ordered(es) && LastAt(es) <= now
    ensures Run(p, es).SlotIsOpen(slot, now) <==> IsHeld(p, es, slot, now)
    decreases es, 1
  {
    if es != [] {
      var n := |es| - 1;
      SlotIsOpenIff(p, es[..n], slot, now);
      HeldStep(p, es, slot, now);
      if es[n].slot != slot {
        SlotsAreIndependent(p, Run(p, es[..n]), es[n], slot, now);
      } else {
        StepOpen(p, Run(p, es[..n]), es[n], now);
        if Reported(p, es, n).slotOpened {
          OpensAfterCooldown(p, es, slot, now);
        }
      }
    }
  }

  // ----- When the fleet pauses -------------------------------------------------------------------

  /** Distinct slots open at an instant. */
  ghost predicate AreOpenSlots(l: Ledger, now: u64, slots: set<u32>) {
    forall slot: u32 :: slot in slots <==> l.SlotIsOpen(slot, now)
  }

  /** A failure pauses the fleet iff it opens its slot, the fleet is not paused, and enough slots are open then. */
  lemma {:induction false} PausesFleetIff(p: Policy, es: seq<Event>, i: nat, slots: set<u32>)
    requires i < |es| && AreOpenSlots(Run(p, es[..i + 1]), es[i].at, slots)
    ensures Reported(p, es, i).fleetOpened <==>
            && es[i].Failed? && Reported(p, es, i).slotOpened
            && !Run(p, es[..i]).FleetPaused(es[i].at) && |slots| >= p.fleetOpenSlotsThreshold
  {
    assert es[..i + 1][..i] == es[..i];
    var after := Run(p, es[..i + 1]);
    RunsAgree(p, es[..i + 1], es[i].at);
    assert slots == after.ExcludedSlots(es[i].at);
    if es[i].Failed? && Reported(p, es, i).slotOpened {
      OpenKeysBeforeFleet(p, Run(p, es[..i]), es[i]);
    }
  }

  lemma {:induction false} OpenKeysBeforeFleet(p: Policy, l: Ledger, e: Event)
    requires e.Failed? && Step(p, l, e).1.slotOpened
    ensures Step(p, l, e).1.fleetOpened <==>
            !l.FleetPaused(e.at) && |Step(p, l, e).0.OpenKeys(e.at)| >= p.fleetOpenSlotsThreshold
  {
    var e1 := Expired(l, e.at);
    var after := e1.slots[Print(e.slot) := SlotAfterFailure(p, SlotOrDefault(e1, e.slot), e.at).0];
    assert Step(p, l, e).0.slots == after;
    assert Step(p, l, e).0.OpenKeys(e.at) == Ledger(after, e1.fleetOpenUntil).OpenKeys(e.at);
  }

  /** The fleet is paused iff some earlier failure paused it and its cooldown, cut off at the last u64, still runs. */
  lemma {:induction false} FleetIsPausedIff(p: Policy, es: seq<Event>, now: u64)
    requires Ordered(es) && LastAt(es) <= now
    ensures Run(p, es).FleetPaused(now) <==>
            exists i :: 0 <= i < |es| && Reported(p, es, i).fleetOpened
                        && now < es[i].at + p.fleetCooldownSecs && now < 0xFFFF_FFFF_FFFF_FFFF
  {
    FleetPausedIff(p, es, now);
    forall i | 0 <= i < |es|
      ensures PausedBy(p, es, i, now) <==>
              Reported(p, es, i).fleetOpened && now < es[i].at + p.fleetCooldownSecs && now < 0xFFFF_FFFF_FFFF_FFFF
    {
    }
  }

  // ----- What else is reported -------------------------------------------------------------------

  /**
   A slot is reported closed iff the deadline of some slot has passed, or the event is a success of an
   open slot; the fleet iff its own deadline has passed.
   */
  lemma {:induction false} ClosingsAreReported(p: Policy, l: Ledger, e: Event)
    ensures Step(p, l, e).1.slotClosed <==>
            || (exists key :: key in l.slots && l.slots[key].openUntil.Some? && l.slots[key].openUntil.value <= e.at)
            || (e.Started? && l.SlotIsOpen(e.slot, e.at))
    ensures Step(p, l, e).1.fleetClosed <==> l.fleetOpenUntil.Some? && l.fleetOpenUntil.value <= e.at
    ensures Step(p, l, e).1.slot == Some(e.slot)
    ensures e.Started? ==>
              Step(p, l, e).1.slotFailureCount == 0 && !Step(p, l, e).1.slotOpened && !Step(p, l, e).1.fleetOpened
  {
  }

  /** A policy is accepted iff none of its five numbers is zero; the error names the first that is. */
  lemma {:induction false} PolicyErrors(p: Policy)
    ensures Validate(p).None? <==>
            && p.slotFailureThreshold > 0 && p.slotWindowSecs > 0 && p.slotCooldownSecs > 0
            && p.fleetOpenSlotsThreshold > 0 && p.fleetCooldownSecs > 0
    ensures Validate(p) == Some(ZeroSlotFailureThreshold) <==> p.slotFailureThreshold == 0
    ensures Validate(p) == Some(ZeroSlotWindow) <==> p.slotFailureThreshold > 0 && p.slotWindowSecs == 0
    ensures Validate(p) == Some(ZeroFleetCooldown) <==>
            && p.slotFailureThreshold > 0 && p.slotWindowSecs > 0 && p.slotCooldownSecs > 0
            && p.fleetOpenSlotsThreshold > 0 && p.fleetCooldownSecs == 0
  {
  }
}
