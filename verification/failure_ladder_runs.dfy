/**
 What the failure ladder promises over whole runs: the pruned state refines the full history,
 failures are conserved, openings are spaced, fleet pauses are finite and exact, and the slot
 set handed to the allocator agrees with the per-slot query.
 */
module FailureLadderRuns {
  import opened Wrappers
  import opened Decimal
  import opened FailureLadderModel

  datatype Event =
    | Failed(slot: u32, at: u64)
    | Started(slot: u32, at: u64)

  function Step(p: Policy, l: Ledger, e: Event): (Ledger, Transition) {
    match e
    case Failed(slot, at) => AfterFailure(p, l, slot, at)
    case Started(slot, at) => AfterSuccess(l, slot, at)
  }

  /** The ledger reached from the default one by recording `es` in order. */
  function Run(p: Policy, es: seq<Event>): Ledger {
    if es == [] then EmptyLedger else Step(p, Run(p, es[..|es| - 1]), es[|es| - 1]).0
  }

  /** The transition reported for event `i`. */
  function Reported(p: Policy, es: seq<Event>, i: nat): Transition
    requires i < |es|
  {
    Step(p, Run(p, es[..i]), es[i]).1
  }

  ghost predicate Ordered(es: seq<Event>) {
    forall i, j :: 0 <= i < j < |es| ==> es[i].at <= es[j].at
  }

  function LastAt(es: seq<Event>): u64 {
    if es == [] then 0 else es[|es| - 1].at
  }

  predicate OpensAt(p: Policy, es: seq<Event>, i: nat, slot: u32)
    requires i < |es|
  {
    es[i].slot == slot && Reported(p, es, i).slotOpened
  }

  // ----- Reference circuit: the full, never pruned history of one slot -----------------------

  /** `since`: every failure since the slot's last opening or success; `openUntil` is never expired. */
  datatype Circuit = Circuit(since: seq<u64>, openUntil: Option<u64>)

  function Advance(p: Policy, c: Circuit, e: Event, slot: u32): Circuit {
    if e.slot != slot then c
    else if e.Started? then Circuit([], None)
    else if ReferenceOpens(p, c, e.at) then Circuit([], Some(SaturatingAdd(e.at, p.slotCooldownSecs)))
    else Circuit(c.since + [e.at], c.openUntil)
  }

  function Reference(p: Policy, es: seq<Event>, slot: u32): Circuit {
    if es == [] then Circuit([], None)
    else Advance(p, Reference(p, es[..|es| - 1], slot), es[|es| - 1], slot)
  }

  predicate ReferenceOpens(p: Policy, c: Circuit, at: u64) {
    !Before(at, c.openUntil) && |Recent(c.since + [at], at, p.slotWindowSecs)| >= p.slotFailureThreshold
  }

  /** The stored slot state is the window of the history, and its deadline is the history's unless elapsed. */
  predicate Refines(p: Policy, s: SlotState, c: Circuit, now: u64) {
    && s.failures == (if c.since == [] then [] else Recent(c.since, c.since[|c.since| - 1], p.slotWindowSecs))
    && (c.since != [] ==> c.since[|c.since| - 1] <= now)
    && (s.openUntil == c.openUntil || (s.openUntil == None && Elapsed(now, c.openUntil)))
  }

  /** Pruning at an earlier time loses nothing a later pruning would keep. */
  lemma {:induction false} RecentTwice(failures: seq<u64>, earlier: u64, later: u64, window: u64)
    requires earlier <= later
    ensures Recent(Recent(failures, earlier, window), later, window) == Recent(failures, later, window)
  {
    if failures != [] {
      var front := failures[..|failures| - 1];
      var last := failures[|failures| - 1];
      RecentTwice(front, earlier, later, window);
      var kept := Recent(front, earlier, window);
      assert (kept + [last])[..|kept|] == kept;
    }
  }

  lemma {:induction false} RecentAppend(failures: seq<u64>, now: u64, window: u64)
    ensures Recent(failures + [now], now, window) == Recent(failures, now, window) + [now]
  {
    assert (failures + [now])[..|failures|] == failures;
  }

  /** The stored list, pruned again and extended, is the history's recent failures. */
  lemma {:induction false} StoredIsRecent(p: Policy, s: SlotState, c: Circuit, at: u64, now: u64)
    requires now <= at && Refines(p, s, c, now)
    ensures Recent(s.failures, at, p.slotWindowSecs) + [at] == Recent(c.since + [at], at, p.slotWindowSecs)
  {
    RecentAppend(c.since, at, p.slotWindowSecs);
    if c.since != [] {
      RecentTwice(c.since, c.since[|c.since| - 1], at, p.slotWindowSecs);
    }
  }

  lemma {:induction false} FailureRefines(p: Policy, s: SlotState, c: Circuit, at: u64, now: u64)
    requires now <= at && Refines(p, s, c, now)
    ensures var (after, opens) := SlotAfterFailure(p, ExpireSlot(s, at), at);
            && (opens <==> ReferenceOpens(p, c, at))
            && Refines(p, after, if opens then Circuit([], Some(SaturatingAdd(at, p.slotCooldownSecs)))
                                 else Circuit(c.since + [at], c.openUntil), at)
  {
    StoredIsRecent(p, s, c, at, now);
    assert (c.since + [at])[|c.since|] == at;
  }

  /** A failure moves its own slot's circuit and no other part of it. */
  lemma {:induction false} FailureStep(p: Policy, l: Ledger, slot: u32, at: u64)
    ensures var (after, opens) := SlotAfterFailure(p, ExpireSlot(SlotOrDefault(l, slot), at), at);
            SlotOrDefault(AfterFailure(p, l, slot, at).0, slot) == after && AfterFailure(p, l, slot, at).1.slotOpened == opens
  {
    assert SlotOrDefault(Expired(l, at), slot) == ExpireSlot(SlotOrDefault(l, slot), at);
  }

  lemma {:induction false} StepRefines(p: Policy, l: Ledger, c: Circuit, e: Event, now: u64)
    requires now <= e.at && Refines(p, SlotOrDefault(l, e.slot), c, now)
    requires e.Failed?
    ensures Refines(p, SlotOrDefault(Step(p, l, e).0, e.slot), Advance(p, c, e, e.slot), e.at)
    ensures Step(p, l, e).1.slotOpened <==> ReferenceOpens(p, c, e.at)
  {
    FailureStep(p, l, e.slot, e.at);
    FailureRefines(p, SlotOrDefault(l, e.slot), c, e.at, now);
  }

  lemma OtherSlotState(p: Policy, l: Ledger, e: Event, slot: u32)
    requires slot != e.slot
    ensures SlotOrDefault(Step(p, l, e).0, slot) == ExpireSlot(SlotOrDefault(l, slot), e.at)
  {
    if Print(slot) == Print(e.slot) {
      PrintInjective(slot, e.slot);
    }
  }

  lemma EventRefines(p: Policy, l: Ledger, c: Circuit, e: Event, slot: u32, now: u64)
    requires now <= e.at && Refines(p, SlotOrDefault(l, slot), c, now)
    ensures Refines(p, SlotOrDefault(Step(p, l, e).0, slot), Advance(p, c, e, slot), e.at)
  {
    if e.slot != slot {
      OtherSlotState(p, l, e, slot);
    } else if e.Failed? {
      StepRefines(p, l, c, e, now);
    }
  }

  lemma {:induction false} RunRefines(p: Policy, es: seq<Event>, slot: u32)
    requires Ordered(es)
    ensures Refines(p, SlotOrDefault(Run(p, es), slot), Reference(p, es, slot), LastAt(es))
  {
    if es != [] {
      var front := es[..|es| - 1];
      RunRefines(p, front, slot);
      EventRefines(p, Run(p, front), Reference(p, front, slot), es[|es| - 1], slot, LastAt(front));
    }
  }

  /**
   For every ordered run and slot: the stored list is exactly the failures since the last opening
   or success that lie in the window of the latest one, and the slot is open at any later instant
   iff the history's last deadline has not passed.
   */
  lemma {:induction false} LedgerRefinesHistory(p: Policy, es: seq<Event>, slot: u32, now: u64)
    requires Ordered(es) && LastAt(es) <= now
    ensures Refines(p, SlotOrDefault(Run(p, es), slot), Reference(p, es, slot), now)
    ensures Run(p, es).SlotIsOpen(slot, now) <==> Before(now, Reference(p, es, slot).openUntil)
  {
    RunRefines(p, es, slot);
  }

  /**
   A failure opens its slot iff the slot is not already open and the failures recorded since its
   last opening or success, this one included, reach the threshold within the window; the count it
   reports is theirs.
   */
  lemma {:induction false} OpensIffHistoryReachesThreshold(p: Policy, es: seq<Event>, i: nat)
    requires Ordered(es) && i < |es| && es[i].Failed?
    ensures var c := Reference(p, es[..i], es[i].slot);
            var recent := |Recent(c.since + [es[i].at], es[i].at, p.slotWindowSecs)|;
            && Reported(p, es, i).slotFailureCount == recent
            && (Reported(p, es, i).slotOpened <==>
                !Run(p, es[..i]).SlotIsOpen(es[i].slot, es[i].at) && recent >= p.slotFailureThreshold)
  {
    LedgerRefinesHistory(p, es[..i], es[i].slot, es[i].at);
    StoredIsRecent(p, SlotOrDefault(Run(p, es[..i]), es[i].slot), Reference(p, es[..i], es[i].slot), es[i].at, es[i].at);
    StepRefines(p, Run(p, es[..i]), Reference(p, es[..i], es[i].slot), es[i], es[i].at);
  }

  // ----- Conservation and spacing --------------------------------------------------------------

  function Failures(es: seq<Event>, slot: u32): nat {
    if es == [] then 0
    else Failures(es[..|es| - 1], slot) + (if es[|es| - 1] == Failed(slot, es[|es| - 1].at) then 1 else 0)
  }

  function Openings(p: Policy, es: seq<Event>, slot: u32): nat {
    if es == [] then 0
    else Openings(p, es[..|es| - 1], slot) + (if OpensAt(p, es, |es| - 1, slot) then 1 else 0)
  }

  lemma EventConserves(p: Policy, l: Ledger, e: Event, slot: u32)
    ensures (if e.slot == slot && Step(p, l, e).1.slotOpened then p.slotFailureThreshold else 0)
            + |SlotOrDefault(Step(p, l, e).0, slot).failures|
            <= |SlotOrDefault(l, slot).failures| + (if e == Failed(slot, e.at) then 1 else 0)
  {
    if e.slot != slot {
      OtherSlotState(p, l, e, slot);
    }
  }

  lemma OneMore(each: nat, count: nat, more: bool)
    ensures each * (count + if more then 1 else 0) == each * count + if more then each else 0
  {
  }

  /** Each opening pays for itself with `threshold` failures that no other opening counted; any run, any clock. */
  lemma {:induction false} FailuresAreConserved(p: Policy, es: seq<Event>, slot: u32)
    ensures p.slotFailureThreshold * Openings(p, es, slot) + |SlotOrDefault(Run(p, es), slot).failures|
            <= Failures(es, slot)
  {
    if es != [] {
      var front := es[..|es| - 1];
      FailuresAreConserved(p, front, slot);
      EventConserves(p, Run(p, front), es[|es| - 1], slot);
      OneMore(p.slotFailureThreshold, Openings(p, front, slot), OpensAt(p, es, |front|, slot));
    }
  }

  lemma {:induction false} HeldOpen(p: Policy, es: seq<Event>, slot: u32, i: nat, k: nat)
    requires i < k <= |es| && OpensAt(p, es, i, slot)
    requires forall m :: i < m < k ==> es[m].slot == slot ==> es[m].Failed?
    requires forall m :: i <= m < k ==> es[m].at < SaturatingAdd(es[i].at, p.slotCooldownSecs)
    ensures SlotOrDefault(Run(p, es[..k]), slot).openUntil == Some(SaturatingAdd(es[i].at, p.slotCooldownSecs))
    decreases k
  {
    assert es[..k][..k - 1] == es[..k - 1];
    if k == i + 1 {
      assert es[i].Failed?;
    } else {
      HeldOpen(p, es, slot, i, k - 1);
      if es[k - 1].slot != slot {
        OtherSlotState(p, Run(p, es[..k - 1]), es[k - 1], slot);
      }
    }
  }

  /** Two openings of one slot with no success between them are at least one cooldown apart, up to saturation. */
  lemma OpeningsAreSpaced(p: Policy, es: seq<Event>, slot: u32, i: nat, j: nat)
    requires Ordered(es) && i < j < |es| && OpensAt(p, es, i, slot) && OpensAt(p, es, j, slot)
    requires forall m :: i < m < j ==> es[m].slot == slot ==> es[m].Failed?
    ensures es[j].at >= SaturatingAdd(es[i].at, p.slotCooldownSecs)
  {
    if es[j].at < SaturatingAdd(es[i].at, p.slotCooldownSecs) {
      HeldOpen(p, es, slot, i, j);
      assert false;
    }
  }

  // ----- Isolation and expiry --------------------------------------------------------------------

  /** An event on one slot never changes whether another slot is open, now or later. */
  lemma SlotsAreIndependent(p: Policy, l: Ledger, e: Event, other: u32, now: u64)
    requires other != e.slot && e.at <= now
    ensures Step(p, l, e).0.SlotIsOpen(other, now) <==> l.SlotIsOpen(other, now)
  {
    if Print(other) == Print(e.slot) {
      PrintInjective(other, e.slot);
    }
  }

  /** Clearing elapsed deadlines is invisible to every query at that time or later, for every ledger. */
  lemma ExpiryIsInvisible(l: Ledger, at: u64, now: u64)
    requires at <= now
    ensures Expired(l, at).OpenKeys(now) == l.OpenKeys(now)
    ensures Expired(l, at).ExcludedSlots(now) == l.ExcludedSlots(now)
    ensures Expired(l, at).FleetPaused(now) <==> l.FleetPaused(now)
    ensures forall slot: u32 :: Expired(l, at).SlotIsOpen(slot, now) <==> l.SlotIsOpen(slot, now)
  {
    var e := Expired(l, at);
    forall key | key in l.slots ensures e.slots[key].IsOpen(now) <==> l.slots[key].IsOpen(now) {}
    assert e.OpenKeys(now) == l.OpenKeys(now);
  }

  // ----- Fleet pauses -----------------------------------------------------------------------------

  /** A pause is opened by `i` and still holds at `now`. */
  predicate PausedBy(p: Policy, es: seq<Event>, i: nat, now: u64)
    requires i < |es|
  {
    Reported(p, es, i).fleetOpened && now < SaturatingAdd(es[i].at, p.fleetCooldownSecs)
  }

  lemma StepPausesFleet(p: Policy, l: Ledger, e: Event, now: u64)
    requires e.at <= now
    ensures var t := Step(p, l, e).1;
            && (t.fleetOpened ==> !l.FleetPaused(e.at))
            && (Step(p, l, e).0.FleetPaused(now) <==>
                if t.fleetOpened then now < SaturatingAdd(e.at, p.fleetCooldownSecs) else l.FleetPaused(now))
  {
  }

  lemma PausedByPrefix(p: Policy, es: seq<Event>, i: nat, now: u64)
    requires i < |es| - 1
    ensures PausedBy(p, es, i, now) <==> PausedBy(p, es[..|es| - 1], i, now)
  {
    assert es[..|es| - 1][..i] == es[..i];
  }

  lemma {:induction false} PauseHoldsUntilItsEnd(p: Policy, es: seq<Event>, i: nat, now: u64)
    requires Ordered(es) && i < |es| && es[|es| - 1].at <= now && PausedBy(p, es, i, now)
    ensures Run(p, es).FleetPaused(now)
  {
    var n := |es| - 1;
    StepPausesFleet(p, Run(p, es[..n]), es[n], now);
    if i < n {
      PausedByPrefix(p, es, i, now);
      PauseHoldsUntilItsEnd(p, es[..n], i, now);
      assert PausedBy(p, es[..n], i, es[n].at);
      PauseHoldsUntilItsEnd(p, es[..n], i, es[n].at);
    }
  }

  lemma {:induction false} PauseHasACause(p: Policy, es: seq<Event>, now: u64) returns (i: nat)
    requires Ordered(es) && LastAt(es) <= now && Run(p, es).FleetPaused(now)
    ensures i < |es| && PausedBy(p, es, i, now)
  {
    var n := |es| - 1;
    StepPausesFleet(p, Run(p, es[..n]), es[n], now);
    if Reported(p, es, n).fleetOpened {
      return n;
    }
    i := PauseHasACause(p, es[..n], now);
    PausedByPrefix(p, es, i, now);
  }

  /**
   The fleet is paused at an instant iff some earlier event opened a pause whose own
   `fleet_cooldown_secs` has not run out: later openings never extend it, successes and
   expiry never shorten it.
   */
  lemma {:induction false} FleetPausedIff(p: Policy, es: seq<Event>, now: u64)
    requires Ordered(es) && LastAt(es) <= now
    ensures Run(p, es).FleetPaused(now) <==> exists i :: 0 <= i < |es| && PausedBy(p, es, i, now)
  {
    if Run(p, es).FleetPaused(now) {
      var i := PauseHasACause(p, es, now);
    } else if i: nat :| i < |es| && PausedBy(p, es, i, now) {
      PauseHoldsUntilItsEnd(p, es, i, now);
    }
  }

  /**
   A pause starts only at a failure that itself opens a slot, while the fleet is not paused and at
   least the configured number of distinct slots are open, the new one included.
   */
  lemma {:induction false} PauseStartsAtAnOpening(p: Policy, es: seq<Event>, i: nat)
    requires i < |es| && Reported(p, es, i).fleetOpened
    ensures es[i].Failed? && Reported(p, es, i).slotOpened
    ensures !Run(p, es[..i]).FleetPaused(es[i].at)
    ensures var after := Run(p, es[..i + 1]);
            && |after.ExcludedSlots(es[i].at)| >= p.fleetOpenSlotsThreshold
            && (forall slot: u32 :: slot in after.ExcludedSlots(es[i].at) <==> after.SlotIsOpen(slot, es[i].at))
            && after.fleetOpenUntil == Some(SaturatingAdd(es[i].at, p.fleetCooldownSecs))
  {
    assert es[..i + 1][..i] == es[..i];
    RunsAgree(p, es[..i + 1], es[i].at);
  }

  function PausesOpened(p: Policy, es: seq<Event>): nat {
    if es == [] then 0
    else PausesOpened(p, es[..|es| - 1]) + if Reported(p, es, |es| - 1).fleetOpened then 1 else 0
  }

  function PausesClosed(p: Policy, es: seq<Event>): nat {
    if es == [] then 0
    else PausesClosed(p, es[..|es| - 1]) + if Reported(p, es, |es| - 1).fleetClosed then 1 else 0
  }

  /** Every pause reported opened is reported closed exactly once, or is still held; any run, any clock. */
  lemma {:induction false} PausesBalance(p: Policy, es: seq<Event>)
    ensures PausesOpened(p, es) == PausesClosed(p, es) + if Run(p, es).fleetOpenUntil.Some? then 1 else 0
  {
    if es != [] {
      PausesBalance(p, es[..|es| - 1]);
    }
  }

  // ----- Slot keys --------------------------------------------------------------------------------

  predicate CanonicalKey(key: string) {
    ParseU32(key).Some? && Print(ParseU32(key).value) == key
  }

  /** `validate_persisted`. */
  predicate Validated(l: Ledger) {
    forall key :: key in l.slots ==> ParseU32(key).Some?
  }

  lemma {:induction false} RunKeysAreCanonical(p: Policy, es: seq<Event>)
    ensures forall key :: key in Run(p, es).slots ==> CanonicalKey(key)
  {
    if es != [] {
      RunKeysAreCanonical(p, es[..|es| - 1]);
      ParsePrint(es[|es| - 1].slot);
    }
  }

  function ParsedKeys(keys: set<string>): set<u32>
    requires forall key :: key in keys ==> ParseU32(key).Some?
  {
    set key | key in keys :: ParseU32(key).value
  }

  lemma {:induction false} ParsedKeysSize(keys: set<string>)
    requires forall key :: key in keys ==> ParseU32(key).Some?
    ensures |ParsedKeys(keys)| <= |keys|
    ensures (forall a, b :: a in keys && b in keys && ParseU32(a) == ParseU32(b) ==> a == b)
            ==> |ParsedKeys(keys)| == |keys|
  {
    if keys != {} {
      var key :| key in keys;
      var rest := keys - {key};
      ParsedKeysSize(rest);
      assert ParsedKeys(keys) == ParsedKeys(rest) + {ParseU32(key).value};
      if ParseU32(key).value in ParsedKeys(rest) {
        var twin :| twin in rest && ParseU32(twin).value == ParseU32(key).value;
        assert twin != key && ParseU32(twin) == ParseU32(key);
      }
    }
  }

  /** The allocator's view at one instant: the excluded set is the open slots, and the count is its size. */
  ghost predicate ViewsAgree(l: Ledger, now: u64) {
    && (forall slot: u32 :: slot in l.ExcludedSlots(now) <==> l.SlotIsOpen(slot, now))
    && |l.ExcludedSlots(now)| == |l.OpenKeys(now)|
  }

  lemma CanonicalKeysAgree(l: Ledger, now: u64)
    requires Validated(l) && forall key :: key in l.OpenKeys(now) ==> CanonicalKey(key)
    ensures ViewsAgree(l, now)
  {
    var open := l.OpenKeys(now);
    assert l.ExcludedSlots(now) == ParsedKeys(open);
    forall a, b | a in open && b in open && ParseU32(a) == ParseU32(b) ensures a == b {
      assert CanonicalKey(a) && CanonicalKey(b);
    }
    ParsedKeysSize(open);
    forall slot: u32 ensures slot in l.ExcludedSlots(now) <==> l.SlotIsOpen(slot, now) {
      ParsePrint(slot);
      if slot in ParsedKeys(open) {
        var key :| key in open && ParseU32(key).value == slot;
        assert CanonicalKey(key);
      }
      if l.SlotIsOpen(slot, now) {
        assert Print(slot) in open;
      }
    }
  }

  lemma NonCanonicalKeyBreaksAgreement(l: Ledger, now: u64, key: string)
    requires Validated(l) && key in l.OpenKeys(now) && !CanonicalKey(key)
    ensures !ViewsAgree(l, now)
  {
    var open := l.OpenKeys(now);
    var slot := ParseU32(key).value;
    var others := open - {key};
    assert l.ExcludedSlots(now) == ParsedKeys(open);
    assert slot in ParsedKeys(open);
    if l.SlotIsOpen(slot, now) {
      ParsePrint(slot);
      assert Print(slot) in others;
      assert slot in ParsedKeys(others);
      assert ParsedKeys(open) == ParsedKeys(others) + {slot};
      assert ParsedKeys(open) == ParsedKeys(others);
      ParsedKeysSize(others);
    }
  }

  /** For any loadable ledger the three views agree iff every open key is in canonical decimal form. */
  lemma ViewsAgreeIffCanonical(l: Ledger, now: u64)
    requires Validated(l)
    ensures ViewsAgree(l, now) <==> forall key :: key in l.OpenKeys(now) ==> CanonicalKey(key)
  {
    if forall key :: key in l.OpenKeys(now) ==> CanonicalKey(key) {
      CanonicalKeysAgree(l, now);
    } else {
      var key :| key in l.OpenKeys(now) && !CanonicalKey(key);
      NonCanonicalKeyBreaksAgreement(l, now, key);
    }
  }

  /** Every ledger built by recording events is in agreement at every instant. */
  lemma {:induction false} RunsAgree(p: Policy, es: seq<Event>, now: u64)
    ensures ViewsAgree(Run(p, es), now)
  {
    RunKeysAreCanonical(p, es);
    ViewsAgreeIffCanonical(Run(p, es), now);
  }

  /** A loaded ledger with the key `007` passes validation, excludes slot 7, and reports slot 7 closed. */
  lemma NonCanonicalKeyDisagrees(until: u64, now: u64)
    requires now < until
    ensures var l := Ledger(map["007" := SlotState([], Some(until))], None);
            Validated(l) && l.ExcludedSlots(now) == {7} && !l.SlotIsOpen(7, now)
  {
    var l := Ledger(map["007" := SlotState([], Some(until))], None);
    assert Value("") == 0 && "007"[..2] == "00" && "00"[..1] == "0" && "0"[..0] == "";
    assert Value("0") == 0 && Value("00") == 0 && Value("007") == 7;
    assert ParseU32("007") == Some(7);
    assert Print(7) == "7";
    assert "007" in l.slots && l.slots["007"].IsOpen(now);
  }
}
