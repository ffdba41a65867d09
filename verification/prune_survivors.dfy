/** What the prune leaves behind on a quiet file system, what its result means, and that it is idempotent. */
module PruneSurvivors {
  import opened Wrappers
  import opened FileSystems
  import opened PrunedTables

  // ----- The survivors ---------------------------------------------------------------------------

  /** A system call on the entry itself fails before the prune could enter or unlink it. */
  predicate Untouchable(l: Link) {
    || l.stat != Works
    || match l
       case Leaf(_, unlink) => unlink != Works
       case Sub(_, _, _, open, _, _) => open != Works
  }

  /** A directory on another device or mount, or one whose mount cannot be read. */
  predicate Foreign(t: Table, mount: nat, ino: nat, l: Link)
    requires ino in t
  {
    l.Sub? && (DeviceOf(t, l.ino) != t[ino].device || l.mount != mount || l.fdinfo != Works)
  }

  /** After the prune the subdirectory still holds something, could not be listed to the end, or cannot be removed. */
  predicate HeldBack(t: Table, u: Table, l: Link) {
    && l.Sub? && l.ino in t && l.ino in u
    && (u[l.ino].entries != map[] || t[l.ino].listingFault != Works || l.rmdir != Works)
  }

  lemma {:induction false} BlockedChildHoldsSomething(t: Table, u: Table, mount: nat, ino: nat, depth: nat)
    requires HoldsSurvivors(t, u, mount, ino, {}, depth) && OutcomeOf(t, mount, ino, {}, depth) == Returned(false)
    ensures u[ino].entries != map[]
  {
    var name :| name in t[ino].entries && name in t[ino].listing && FateOf(t, mount, ino, name, depth) == Blocked;
    assert name in u[ino].entries;
  }

  /**
   Exactly these entries of a pruned directory survive: the kept ones, those `scandir` never named,
   those whose own system calls fail, the directories on foreign mounts or devices, and the
   directories that are held back by what is left in them, by their listing or by `rmdir`.
   */
  lemma {:induction false} SurvivorsAre(
    t: Table, u: Table, mount: nat, ino: nat, keep: set<string>, depth: nat, name: string)
    requires IsTree(t, mount, ino, keep, depth) && IsPruned(t, u, mount, ino, keep, depth)
    requires name in t[ino].entries
    ensures var l := t[ino].entries[name];
            name in u[ino].entries <==>
            name in keep || name !in t[ino].listing || Untouchable(l) || Foreign(t, mount, ino, l) || HeldBack(t, u, l)
    ensures name in u[ino].entries ==> u[ino].entries[name] == t[ino].entries[name]
  {
    var l := t[ino].entries[name];
    if name !in keep && name in t[ino].listing && !Untouchable(l) && !Foreign(t, mount, ino, l) && l.Sub? {
      assert name in Visits(t, mount, ino, keep);
      assert IsPruned(t, u, mount, l.ino, {}, depth - 1);
      EmptiedIffHoldsNothing(t, u, mount, l.ino, {}, depth - 1);
      var outcome := OutcomeOf(t, mount, l.ino, {}, depth - 1);
      if outcome == Returned(false) {
        BlockedChildHoldsSomething(t, u, mount, l.ino, depth - 1);
      }
      assert FateOf(t, mount, ino, name, depth) == Gone <==>
             outcome == Returned(true) && IsEmptied(t, mount, l.ino, {}, depth - 1) && l.rmdir == Works;
    } else if name !in keep && name in t[ino].listing {
      assert FateOf(t, mount, ino, name, depth) == Gone <==> !Untouchable(l) && !Foreign(t, mount, ino, l);
    }
  }

  // ----- What the result means -------------------------------------------------------------------

  /**
   A system call on the entry reports it, or what was opened through it, as not found, and every
   earlier one succeeds: `stat`, `unlink`, `open`, `fdinfo`, the listing of the opened directory, or
   `rmdir` once that is empty.
   */
  predicate PassedOver(t: Table, mount: nat, ino: nat, l: Link, depth: nat)
    requires ino in t
  {
    || l.stat == Missing
    || (l.stat == Works &&
        match l
        case Leaf(_, unlink) => unlink == Missing
        case Sub(child, _, _, open, fdinfo, rmdir) =>
          || open == Missing
          || (open == Works && DeviceOf(t, child) == t[ino].device &&
              (|| fdinfo == Missing
               || (fdinfo == Works && l.mount == mount && child in t &&
                   (|| t[child].listingFault == Missing
                    || (t[child].listingFault == Works && Empties(t, mount, child, depth) && rmdir == Missing))))))
  }

  /** The same for a refusal, or a directory that may not be entered or cannot be emptied. */
  predicate HeldAgainst(t: Table, mount: nat, ino: nat, l: Link, depth: nat)
    requires ino in t
  {
    || l.stat == Refused
    || (l.stat == Works &&
        match l
        case Leaf(_, unlink) => unlink == Refused
        case Sub(child, _, _, open, fdinfo, rmdir) =>
          || open == Refused
          || (open == Works &&
              (|| DeviceOf(t, child) != t[ino].device
               || fdinfo == Refused
               || (fdinfo == Works &&
                   (|| l.mount != mount || child !in t
                    || t[child].listingFault == Refused
                    || (t[child].listingFault == Works && (!Empties(t, mount, child, depth) || rmdir == Refused)))))))
  }

  /** The subdirectory would be left with nothing in it. */
  predicate Empties(t: Table, mount: nat, child: nat, depth: nat)
    requires child in t
  {
    depth > 0 && IsEmptied(t, mount, child, {}, depth - 1)
  }

  lemma {:induction false} EmptyingIsTrue(t: Table, mount: nat, ino: nat, keep: set<string>, depth: nat)
    requires ino in t && t[ino].listingFault == Works && IsEmptied(t, mount, ino, keep, depth)
    ensures OutcomeOf(t, mount, ino, keep, depth) == Returned(true)
  {
    forall name | name in t[ino].entries ensures FateOf(t, mount, ino, name, depth) == Gone {
      assert !Stays(t, mount, ino, keep, name, depth);
    }
  }

  lemma {:induction false} FatesAre(t: Table, mount: nat, ino: nat, keep: set<string>, depth: nat, name: string)
    requires IsTree(t, mount, ino, keep, depth) && name in t[ino].entries && name in t[ino].listing && name !in keep
    ensures var l := t[ino].entries[name];
            && (FateOf(t, mount, ino, name, depth) == Skipped <==> PassedOver(t, mount, ino, l, depth))
            && (FateOf(t, mount, ino, name, depth) == Blocked <==> HeldAgainst(t, mount, ino, l, depth))
  {
    var l := t[ino].entries[name];
    if name in Visits(t, mount, ino, keep) && t[l.ino].listingFault == Works {
      assert IsTree(t, mount, l.ino, {}, depth - 1);
      if IsEmptied(t, mount, l.ino, {}, depth - 1) {
        EmptyingIsTrue(t, mount, l.ino, {}, depth - 1);
      }
    }
  }

  /** The result is True iff the listing ended and every surviving non-kept entry was passed over. */
  lemma {:induction false} TrueMeans(t: Table, u: Table, mount: nat, ino: nat, keep: set<string>, depth: nat)
    requires IsTree(t, mount, ino, keep, depth) && IsPruned(t, u, mount, ino, keep, depth)
    ensures OutcomeOf(t, mount, ino, keep, depth) == Returned(true) <==>
            && t[ino].listingFault == Works
            && forall name :: name in u[ino].entries && name !in keep ==> PassedOver(t, mount, ino, t[ino].entries[name], depth)
  {
    if t[ino].listingFault == Works {
      forall name | name in t[ino].entries && name !in keep
        ensures name in u[ino].entries <==> FateOf(t, mount, ino, name, depth) != Gone
        ensures FateOf(t, mount, ino, name, depth) == Skipped <==> PassedOver(t, mount, ino, t[ino].entries[name], depth)
      {
        FatesAre(t, mount, ino, keep, depth, name);
      }
    }
  }

  /** Some listed entry that is not kept is passed over. */
  ghost predicate SomePassedOver(t: Table, mount: nat, ino: nat, keep: set<string>, depth: nat)
    requires ino in t
  {
    exists name :: name in t[ino].entries && name !in keep && PassedOver(t, mount, ino, t[ino].entries[name], depth)
  }

  ghost predicate SomeHeldAgainst(t: Table, mount: nat, ino: nat, keep: set<string>, depth: nat)
    requires ino in t
  {
    exists name :: name in t[ino].entries && name !in keep && HeldAgainst(t, mount, ino, t[ino].entries[name], depth)
  }

  /**
   Exactly when True means that the listing ended and nothing but kept entries survives: unless the
   listing ends, some entry is passed over and none is held against the result.
   */
  lemma {:induction false} TrueIffNothingElseSurvives(
    t: Table, u: Table, mount: nat, ino: nat, keep: set<string>, depth: nat)
    requires IsTree(t, mount, ino, keep, depth) && IsPruned(t, u, mount, ino, keep, depth)
    ensures (OutcomeOf(t, mount, ino, keep, depth) == Returned(true) <==>
             t[ino].listingFault == Works && u[ino].entries.Keys <= keep)
            <==>
            (t[ino].listingFault == Works && SomePassedOver(t, mount, ino, keep, depth) ==>
               SomeHeldAgainst(t, mount, ino, keep, depth))
  {
    if t[ino].listingFault == Works {
      forall name | name in t[ino].entries && name !in keep
        ensures name in u[ino].entries <==> FateOf(t, mount, ino, name, depth) != Gone
        ensures FateOf(t, mount, ino, name, depth) == Skipped <==> PassedOver(t, mount, ino, t[ino].entries[name], depth)
        ensures FateOf(t, mount, ino, name, depth) == Blocked <==> HeldAgainst(t, mount, ino, t[ino].entries[name], depth)
      {
        FatesAre(t, mount, ino, keep, depth, name);
      }
    }
  }

  /** When that fails: a subdirectory whose `fdinfo` is not found survives, full, and the result is True. */
  lemma {:induction false} TrueWithASurvivor(mount: nat)
    ensures var t: Table :=
              map[1 := Directory(0, map["sub" := Sub(2, mount, Works, Works, Missing, Works)], ["sub"], Works),
                  2 := Directory(0, map["file" := Leaf(Works, Works)], ["file"], Works)];
            && IsTree(t, mount, 1, {}, 1)
            && PassedOver(t, mount, 1, t[1].entries["sub"], 1) && !SomeHeldAgainst(t, mount, 1, {}, 1)
            && OutcomeOf(t, mount, 1, {}, 1) == Returned(true)
            && Stays(t, mount, 1, {}, "sub", 1)
  {
    var t: Table :=
      map[1 := Directory(0, map["sub" := Sub(2, mount, Works, Works, Missing, Works)], ["sub"], Works),
          2 := Directory(0, map["file" := Leaf(Works, Works)], ["file"], Works)];
    assert t[1].entries["sub"].fdinfo == Missing;
    assert Visits(t, mount, 1, {}) == {};
    assert FateOf(t, mount, 1, "sub", 1) == Skipped;
  }

  // ----- Running it again --------------------------------------------------------------------------

  lemma {:induction false} VisitsShrink(
    t: Table, u: Table, mount: nat, ino: nat, keep: set<string>, depth: nat, name: string)
    requires SameShape(t, u) && IsPruned(t, u, mount, ino, keep, depth) && name in Visits(u, mount, ino, keep)
    ensures name in Visits(t, mount, ino, keep) && Child(u, ino, name) == Child(t, ino, name)
  {
  }

  lemma {:induction false} ReachShrinks(t: Table, u: Table, mount: nat, ino: nat, keep: set<string>, depth: nat, d: nat)
    requires SameShape(t, u) && IsPruned(t, u, mount, ino, keep, depth) && InReach(u, mount, ino, keep, depth, d)
    ensures InReach(t, mount, ino, keep, depth, d)
    decreases depth
  {
    if d != ino {
      var name :| name in Visits(u, mount, ino, keep) && InReach(u, mount, Child(u, ino, name), {}, depth - 1, d);
      VisitsShrink(t, u, mount, ino, keep, depth, name);
      ReachShrinks(t, u, mount, Child(t, ino, name), {}, depth - 1, d);
    }
  }

  /** The pruned table is again a tree. */
  lemma {:induction false} PrunedIsTree(t: Table, u: Table, mount: nat, ino: nat, keep: set<string>, depth: nat)
    requires SameShape(t, u) && IsTree(t, mount, ino, keep, depth) && IsPruned(t, u, mount, ino, keep, depth)
    ensures IsTree(u, mount, ino, keep, depth)
    decreases depth
  {
    forall name | name in Visits(u, mount, ino, keep)
      ensures name in Visits(t, mount, ino, keep)
      ensures IsTree(u, mount, Child(u, ino, name), {}, depth - 1)
      ensures forall d :: Below(u, mount, ino, name, depth, d) ==> Below(t, mount, ino, name, depth, d)
    {
      VisitsShrink(t, u, mount, ino, keep, depth, name);
      PrunedIsTree(t, u, mount, Child(t, ino, name), {}, depth - 1);
      forall d | Below(u, mount, ino, name, depth, d) ensures Below(t, mount, ino, name, depth, d) {
        ReachShrinks(t, u, mount, Child(t, ino, name), {}, depth - 1, d);
      }
    }
  }

  /** A survivor meets the same fate again. */
  lemma {:induction false} FateAgain(t: Table, u: Table, mount: nat, ino: nat, keep: set<string>, depth: nat, name: string)
    requires SameShape(t, u) && IsTree(t, mount, ino, keep, depth) && IsPruned(t, u, mount, ino, keep, depth)
    requires name in u[ino].entries && name in u[ino].listing && name !in keep
    ensures FateOf(u, mount, ino, name, depth) == FateOf(t, mount, ino, name, depth)
    decreases depth, 0
  {
    if name in Visits(t, mount, ino, keep) {
      var child := Child(t, ino, name);
      OutcomeAgain(t, u, mount, child, {}, depth - 1);
      EmptiedIffHoldsNothing(t, u, mount, child, {}, depth - 1);
    }
  }

  lemma {:induction false} OutcomeAgain(t: Table, u: Table, mount: nat, ino: nat, keep: set<string>, depth: nat)
    requires SameShape(t, u) && IsTree(t, mount, ino, keep, depth) && IsPruned(t, u, mount, ino, keep, depth)
    ensures forall name :: name in u[ino].entries ==> Stays(u, mount, ino, keep, name, depth)
    ensures OutcomeOf(u, mount, ino, keep, depth) == OutcomeOf(t, mount, ino, keep, depth)
    decreases depth, 1
  {
    forall name | name in u[ino].entries && name in u[ino].listing && name !in keep
      ensures FateOf(u, mount, ino, name, depth) == FateOf(t, mount, ino, name, depth)
    {
      FateAgain(t, u, mount, ino, keep, depth, name);
    }
  }

  lemma {:induction false} SecondRunAt(
    t: Table, u: Table, w: Table, mount: nat, ino: nat, keep: set<string>, depth: nat, d: nat)
    requires SameShape(t, u) && IsTree(t, mount, ino, keep, depth) && IsPruned(t, u, mount, ino, keep, depth)
    requires SameShape(u, w) && IsPruned(u, w, mount, ino, keep, depth)
    requires d in u && InReach(u, mount, ino, keep, depth, d)
    ensures w[d].entries == u[d].entries
    decreases depth
  {
    if d == ino {
      OutcomeAgain(t, u, mount, ino, keep, depth);
    } else {
      var name :| name in Visits(u, mount, ino, keep) && InReach(u, mount, Child(u, ino, name), {}, depth - 1, d);
      VisitsShrink(t, u, mount, ino, keep, depth, name);
      SecondRunAt(t, u, w, mount, Child(t, ino, name), {}, depth - 1, d);
    }
  }

  /**
   Pruning a second time, with the same faults, changes no directory anywhere and returns the same
   result: `u` is the table after the first run on `t`, `w` the one after the second.
   */
  lemma {:induction false} PruningAgainChangesNothing(
    t: Table, u: Table, w: Table, mount: nat, ino: nat, keep: set<string>, depth: nat)
    requires IsTree(t, mount, ino, keep, depth)
    requires IsPruned(t, u, mount, ino, keep, depth) && Framed(t, u, mount, ino, keep, depth)
    requires IsPruned(u, w, mount, ino, keep, depth) && Framed(u, w, mount, ino, keep, depth)
    ensures IsTree(u, mount, ino, keep, depth)
    ensures OutcomeOf(u, mount, ino, keep, depth) == OutcomeOf(t, mount, ino, keep, depth)
    ensures forall d :: d in u ==> w[d].entries == u[d].entries && w[d].device == u[d].device
  {
    PrunedIsTree(t, u, mount, ino, keep, depth);
    OutcomeAgain(t, u, mount, ino, keep, depth);
    forall d | d in u ensures w[d].entries == u[d].entries {
      if InReach(u, mount, ino, keep, depth, d) {
        SecondRunAt(t, u, w, mount, ino, keep, depth, d);
      }
    }
  }
}
