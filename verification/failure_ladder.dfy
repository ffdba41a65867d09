/**
 The persistent failure circuits of src/failure_ladder.rs: one rolling-window circuit per
 runner slot, and a finite fleet pause above them.

 `Ledger` is the value of the in-memory ledger and `Step` its transition function; the class
 `FailureLadder` is the mutable object, whose methods are proved to follow `Step`.
 */
module FailureLadderModel {
  import opened Wrappers
  import opened Decimal

  const U64_MAX: nat := 0xFFFF_FFFF_FFFF_FFFF

  type u64 = x: int | 0 <= x <= U64_MAX

  function SaturatingAdd(a: u64, b: u64): u64 {
    if a + b <= U64_MAX then a + b else U64_MAX
  }

  function SaturatingSub(a: u64, b: u64): u64 {
    if a >= b then a - b else 0
  }

  datatype Policy = Policy(
    slotFailureThreshold: u32,
    slotWindowSecs: u64,
    slotCooldownSecs: u64,
    fleetOpenSlotsThreshold: u32,
    fleetCooldownSecs: u64)

  datatype PolicyError =
    | ZeroSlotFailureThreshold
    | ZeroSlotWindow
    | ZeroSlotCooldown
    | ZeroFleetOpenSlotsThreshold
    | ZeroFleetCooldown

  function Validate(p: Policy): Option<PolicyError> {
    if p.slotFailureThreshold == 0 then Some(ZeroSlotFailureThreshold)
    else if p.slotWindowSecs == 0 then Some(ZeroSlotWindow)
    else if p.slotCooldownSecs == 0 then Some(ZeroSlotCooldown)
    else if p.fleetOpenSlotsThreshold == 0 then Some(ZeroFleetOpenSlotsThreshold)
    else if p.fleetCooldownSecs == 0 then Some(ZeroFleetCooldown)
    else None
  }

  datatype SlotState = SlotState(failures: seq<u64>, openUntil: Option<u64>) {
    predicate IsOpen(now: u64) {
      Before(now, openUntil)
    }
  }

  predicate Before(now: u64, until: Option<u64>) {
    until.Some? && now < until.value
  }

  predicate Elapsed(now: u64, until: Option<u64>) {
    until.Some? && now >= until.value
  }

  datatype Transition = Transition(
    slot: Option<u32>,
    slotFailureCount: nat,
    slotOpened: bool,
    slotClosed: bool,
    fleetOpened: bool,
    fleetClosed: bool)

  const NoTransition := Transition(None, 0, false, false, false, false)

  // ----- The ledger as a value -------------------------------------------------------------

  datatype Ledger = Ledger(slots: map<string, SlotState>, fleetOpenUntil: Option<u64>) {
    predicate KeyIsOpen(key: string, now: u64) {
      key in slots && slots[key].IsOpen(now)
    }

    predicate SlotIsOpen(slot: u32, now: u64) {
      KeyIsOpen(Print(slot), now)
    }

    predicate FleetPaused(now: u64) {
      Before(now, fleetOpenUntil)
    }

    function OpenKeys(now: u64): set<string> {
      set key | key in slots && slots[key].IsOpen(now)
    }

    function ExcludedSlots(now: u64): set<u32> {
      set key | key in slots && slots[key].IsOpen(now) && ParseU32(key).Some? :: ParseU32(key).value
    }
  }

  const EmptyLedger := Ledger(map[], None)

  /** `retain`: the entries no older than the window, in order. */
  function Recent(failures: seq<u64>, now: u64, window: u64): (kept: seq<u64>)
    ensures |kept| <= |failures|
  {
    if failures == [] then []
    else
      var rest := Recent(failures[..|failures| - 1], now, window);
      var last := failures[|failures| - 1];
      if SaturatingSub(now, last) <= window then rest + [last] else rest
  }

  function ExpireSlot(s: SlotState, now: u64): SlotState {
    if Elapsed(now, s.openUntil) then s.(openUntil := None) else s
  }

  function Expired(l: Ledger, now: u64): Ledger {
    Ledger(map key | key in l.slots :: ExpireSlot(l.slots[key], now),
           if Elapsed(now, l.fleetOpenUntil) then None else l.fleetOpenUntil)
  }

  function ExpiryTransition(l: Ledger, now: u64): Transition {
    NoTransition.(
      slotClosed := exists key :: key in l.slots && Elapsed(now, l.slots[key].openUntil),
      fleetClosed := Elapsed(now, l.fleetOpenUntil))
  }

  function SlotOrDefault(l: Ledger, slot: u32): SlotState {
    if Print(slot) in l.slots then l.slots[Print(slot)] else SlotState([], None)
  }

  /** One slot's circuit after a failure: its new state and whether it opened. */
  function SlotAfterFailure(p: Policy, s: SlotState, now: u64): (SlotState, bool) {
    var failures := Recent(s.failures, now, p.slotWindowSecs) + [now];
    if !s.IsOpen(now) && |failures| >= p.slotFailureThreshold
    then (SlotState([], Some(SaturatingAdd(now, p.slotCooldownSecs))), true)
    else (SlotState(failures, s.openUntil), false)
  }

  function AfterFailure(p: Policy, l0: Ledger, slot: u32, now: u64): (Ledger, Transition) {
    var l := Expired(l0, now);
    var before := SlotOrDefault(l, slot);
    var (after, opens) := SlotAfterFailure(p, before, now);
    var l1 := l.(slots := l.slots[Print(slot) := after]);
    var fleet := opens && !l1.FleetPaused(now) && |l1.OpenKeys(now)| >= p.fleetOpenSlotsThreshold;
    (if fleet then l1.(fleetOpenUntil := Some(SaturatingAdd(now, p.fleetCooldownSecs))) else l1,
     ExpiryTransition(l0, now).(
     slot := Some(slot),
     slotFailureCount := |Recent(before.failures, now, p.slotWindowSecs)| + 1,
     slotOpened := opens,
     fleetOpened := fleet))
  }

  function AfterSuccess(l0: Ledger, slot: u32, now: u64): (Ledger, Transition) {
    var l := Expired(l0, now);
    var t := ExpiryTransition(l0, now);
    (l.(slots := l.slots - {Print(slot)}),
     t.(slot := Some(slot), slotClosed := t.slotClosed || l.KeyIsOpen(Print(slot), now)))
  }

  // ----- The mutable ledger ----------------------------------------------------------------

  class FailureLadder {
    var slots: map<string, SlotState>
    var fleetOpenUntil: Option<u64>

    constructor ()
      ensures View() == EmptyLedger
    {
      slots := map[];
      fleetOpenUntil := None;
    }

    function View(): Ledger
      reads this
    {
      Ledger(slots, fleetOpenUntil)
    }

    method ExpireSlots(now: u64) returns (closed: bool)
      modifies this`slots
      ensures slots.Keys == old(slots).Keys
      ensures forall key :: key in slots ==> slots[key] == ExpireSlot(old(slots)[key], now)
      ensures closed <==> exists key :: key in old(slots) && Elapsed(now, old(slots)[key].openUntil)
    {
      closed := false;
      var todo := slots.Keys;
      while todo != {}
        invariant todo <= slots.Keys == old(slots).Keys
        invariant forall key :: key in slots ==>
                                  slots[key] == if key in todo then old(slots)[key] else ExpireSlot(old(slots)[key], now)
        invariant closed <==> exists key :: key in old(slots) && key !in todo && Elapsed(now, old(slots)[key].openUntil)
        decreases |todo|
      {
        var key :| key in todo;
        if Elapsed(now, slots[key].openUntil) {
          slots := slots[key := slots[key].(openUntil := None)];
          closed := true;
        }
        todo := todo - {key};
      }
    }

    method Expire(now: u64) returns (t: Transition)
      modifies this
      ensures View() == Expired(old(View()), now)
      ensures t == ExpiryTransition(old(View()), now)
    {
      var closed := ExpireSlots(now);
      t := NoTransition.(slotClosed := closed);
      if Elapsed(now, fleetOpenUntil) {
        fleetOpenUntil := None;
        t := t.(fleetClosed := true);
      }
    }

    method RecordFailure(p: Policy, slot: u32, now: u64) returns (r: Result<Transition, PolicyError>)
      modifies this
      ensures Validate(p).Some? ==> r == Err(Validate(p).value) && View() == old(View())
      ensures Validate(p).None? ==> (View(), r) == (AfterFailure(p, old(View()), slot, now).0,
                                                   Ok(AfterFailure(p, old(View()), slot, now).1))
    {
      if Validate(p).Some? {
        return Err(Validate(p).value);
      }
      var t := Expire(now);
      ghost var l := View();
      t := t.(slot := Some(slot));
      var key := Print(slot);
      if key !in slots {
        slots := slots[key := SlotState([], None)];
      }
      var state := slots[key];
      state := state.(failures := Recent(state.failures, now, p.slotWindowSecs));
      state := state.(failures := state.failures + [now]);
      t := t.(slotFailureCount := |state.failures|);
      if !state.IsOpen(now) && |state.failures| >= p.slotFailureThreshold {
        state := SlotState([], Some(SaturatingAdd(now, p.slotCooldownSecs)));
        t := t.(slotOpened := true);
      }
      slots := slots[key := state];
      assert slots == l.slots[key := state];
      var openSlots := OpenSlotCount(now);
      if t.slotOpened && !FleetAdmissionIsPaused(now) && openSlots >= p.fleetOpenSlotsThreshold {
        fleetOpenUntil := Some(SaturatingAdd(now, p.fleetCooldownSecs));
        t := t.(fleetOpened := true);
      }
      return Ok(t);
    }

    method RecordSuccess(slot: u32, now: u64) returns (t: Transition)
      modifies this
      ensures (View(), t) == AfterSuccess(old(View()), slot, now)
    {
      t := Expire(now);
      t := t.(slot := Some(slot));
      var key := Print(slot);
      if key in slots {
        var removed := slots[key];
        slots := slots - {key};
        t := t.(slotClosed := t.slotClosed || removed.IsOpen(now));
      } else {
        assert slots - {key} == slots;
      }
    }

    predicate SlotIsOpen(slot: u32, now: u64)
      reads this
    {
      Print(slot) in slots && slots[Print(slot)].IsOpen(now)
    }

    predicate FleetAdmissionIsPaused(now: u64)
      reads this
    {
      Before(now, fleetOpenUntil)
    }

    method ExcludedSlots(now: u64) returns (excluded: set<u32>)
      ensures excluded == View().ExcludedSlots(now)
    {
      excluded := {};
      var todo := slots.Keys;
      while todo != {}
        invariant todo <= slots.Keys
        invariant excluded == set key | key in slots && key !in todo && slots[key].IsOpen(now) && ParseU32(key).Some?
                                :: ParseU32(key).value
        decreases |todo|
      {
        var key :| key in todo;
        ghost var before := excluded;
        if slots[key].IsOpen(now) && ParseU32(key).Some? {
          excluded := excluded + {ParseU32(key).value};
        }
        todo := todo - {key};
      }
    }

    method OpenSlotCount(now: u64) returns (count: nat)
      ensures count == |View().OpenKeys(now)|
    {
      count := 0;
      var todo := slots.Keys;
      ghost var counted: set<string> := {};
      while todo != {}
        invariant todo <= slots.Keys
        invariant counted == set key | key in slots && key !in todo && slots[key].IsOpen(now)
        invariant count == |counted|
        decreases |todo|
      {
        var key :| key in todo;
        if slots[key].IsOpen(now) {
          count := count + 1;
          counted := counted + {key};
        }
        todo := todo - {key};
      }
      assert counted == View().OpenKeys(now);
    }
  }
}
