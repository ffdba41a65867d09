/**
 What the prune of docker/runner-post-job-workspace-prune.py should leave of a quiet file system, read
 off the original table, and what each of its steps contributes to that.
 */
module PrunedTables {
  import opened Wrappers
  import opened FileSystems

  /** How `empty_directory` leaves: a result, an exception it let through, or Python's recursion limit. */
  datatype Outcome = Returned(complete: bool) | Raised(fault: Fault) | Overflow

  // ----- What should survive, read off the original table ------------------------------------

  /** The link leads, without a fault, to a directory on the same device and the expected mount. */
  predicate Enterable(t: Table, mount: nat, ino: nat, name: string) {
    && LinkAt(t, ino, name).Some?
    && var l := t[ino].entries[name];
    && l.Sub? && l.stat == Works && l.open == Works && l.fdinfo == Works && l.mount == mount
    && l.ino in t && t[l.ino].device == t[ino].device
  }

  /** The subdirectories the prune descends into. */
  function Visits(t: Table, mount: nat, ino: nat, keep: set<string>): set<string>
    requires ino in t
  {
    set name | name in t[ino].entries && name in t[ino].listing && name !in keep && Enterable(t, mount, ino, name)
  }

  function Child(t: Table, ino: nat, name: string): nat
    requires ino in t && name in t[ino].entries && t[ino].entries[name].Sub?
  {
    t[ino].entries[name].ino
  }

  /** The directories the prune may change: the root and whatever lies below a visited subdirectory. */
  ghost predicate InReach(t: Table, mount: nat, ino: nat, keep: set<string>, depth: nat, d: nat)
    decreases depth
  {
    || d == ino
    || (depth > 0 && ino in t &&
        exists name :: name in Visits(t, mount, ino, keep) && InReach(t, mount, Child(t, ino, name), {}, depth - 1, d))
  }

  /** Directory `d` may be changed on behalf of the subdirectory `name`. */
  ghost predicate Below(t: Table, mount: nat, ino: nat, name: string, depth: nat, d: nat)
    requires depth > 0 && ino in t && name in t[ino].entries && t[ino].entries[name].Sub?
  {
    InReach(t, mount, Child(t, ino, name), {}, depth - 1, d)
  }

  ghost predicate Distinct(names: seq<string>) {
    forall i, j :: 0 <= i < j < |names| ==> names[i] != names[j]
  }

  /** A listing that ends without a fault has named every entry, and none twice. */
  ghost predicate GoodListing(t: Table, ino: nat)
    requires ino in t
  {
    && (t[ino].listingFault == Works ==> forall name :: name in t[ino].entries ==> name in t[ino].listing)
    && Distinct(t[ino].listing)
    && (forall name :: name in t[ino].entries && t[ino].entries[name].Sub? ==> t[ino].entries[name].ino in t)
  }

  /** The visited directories form a tree that fits the recursion limit `depth`. */
  ghost predicate IsTree(t: Table, mount: nat, ino: nat, keep: set<string>, depth: nat)
    decreases depth
  {
    && depth > 0 && ino in t && GoodListing(t, ino)
    && (forall name :: name in Visits(t, mount, ino, keep) ==>
          && IsTree(t, mount, Child(t, ino, name), {}, depth - 1)
          && !Below(t, mount, ino, name, depth, ino))
    && (forall a, b, d :: a in Visits(t, mount, ino, keep) && b in Visits(t, mount, ino, keep) && a != b ==>
          !(Below(t, mount, ino, a, depth, d) && Below(t, mount, ino, b, depth, d)))
  }

  /** What happens to one listed, non-kept entry. */
  datatype Fate =
    | Gone
    | Skipped   // reported as not found: left alone and not held against the result
    | Blocked   // left alone, and the result is incomplete

  function FateOfFault(f: Fault): Fate {
    match f
    case Works => Gone
    case Missing => Skipped
    case Refused => Blocked
  }

  function FateOf(t: Table, mount: nat, ino: nat, name: string, depth: nat): Fate
    requires ino in t && name in t[ino].entries
    decreases depth, 0
  {
    var l := t[ino].entries[name];
    if l.stat != Works then FateOfFault(l.stat)
    else if l.Leaf? then FateOfFault(l.unlink)
    else if l.open != Works then FateOfFault(l.open)
    else if DeviceOf(t, l.ino) != t[ino].device then Blocked
    else if l.fdinfo != Works then FateOfFault(l.fdinfo)
    else if l.mount != mount then Blocked
    else if depth == 0 || l.ino !in t then Blocked
    else
      match OutcomeOf(t, mount, l.ino, {}, depth - 1)
      case Raised(fault) => FateOfFault(fault)
      case Overflow => Blocked
      case Returned(complete) =>
        if !complete || !IsEmptied(t, mount, l.ino, {}, depth - 1) then Blocked else FateOfFault(l.rmdir)
  }

  /** The entry is still there afterwards: kept, never listed, skipped or blocked. */
  predicate Stays(t: Table, mount: nat, ino: nat, keep: set<string>, name: string, depth: nat)
    requires ino in t && name in t[ino].entries
    decreases depth, 1
  {
    name in keep || name !in t[ino].listing || FateOf(t, mount, ino, name, depth) != Gone
  }

  predicate IsEmptied(t: Table, mount: nat, ino: nat, keep: set<string>, depth: nat)
    requires ino in t
    decreases depth, 2
  {
    forall name :: name in t[ino].entries ==> !Stays(t, mount, ino, keep, name, depth)
  }

  function OutcomeOf(t: Table, mount: nat, ino: nat, keep: set<string>, depth: nat): Outcome
    requires ino in t
    decreases depth, 2
  {
    if t[ino].listingFault != Works then Raised(t[ino].listingFault)
    else Returned(forall name :: name in t[ino].entries && name in t[ino].listing && name !in keep ==>
                                   FateOf(t, mount, ino, name, depth) != Blocked)
  }

  // ----- What each of these depends on ----------------------------------------------------------

  ghost predicate SameShape(t: Table, u: Table) {
    t.Keys == u.Keys && forall d :: d in t ==> t[d].device == u[d].device
  }

  ghost predicate AgreeOn(t: Table, u: Table, mount: nat, ino: nat, keep: set<string>, depth: nat) {
    && SameShape(t, u) && ino in t
    && forall d :: d in t && InReach(t, mount, ino, keep, depth, d) ==> t[d] == u[d]
  }

  lemma AgreeOnChild(t: Table, u: Table, mount: nat, ino: nat, keep: set<string>, depth: nat, name: string)
    requires depth > 0 && AgreeOn(t, u, mount, ino, keep, depth) && name in Visits(t, mount, ino, keep)
    ensures AgreeOn(t, u, mount, Child(t, ino, name), {}, depth - 1)
  {
  }

  lemma {:induction false} ReachFrame(t: Table, u: Table, mount: nat, ino: nat, keep: set<string>, depth: nat, d: nat)
    requires AgreeOn(t, u, mount, ino, keep, depth)
    ensures Visits(u, mount, ino, keep) == Visits(t, mount, ino, keep)
    ensures InReach(u, mount, ino, keep, depth, d) <==> InReach(t, mount, ino, keep, depth, d)
    decreases depth
  {
    assert t[ino] == u[ino];
    if depth > 0 {
      forall name | name in Visits(t, mount, ino, keep)
        ensures InReach(u, mount, Child(t, ino, name), {}, depth - 1, d)
                <==> InReach(t, mount, Child(t, ino, name), {}, depth - 1, d)
      {
        AgreeOnChild(t, u, mount, ino, keep, depth, name);
        ReachFrame(t, u, mount, Child(t, ino, name), {}, depth - 1, d);
      }
    }
  }

  lemma {:induction false} TreeFrame(t: Table, u: Table, mount: nat, ino: nat, keep: set<string>, depth: nat)
    requires AgreeOn(t, u, mount, ino, keep, depth) && IsTree(t, mount, ino, keep, depth)
    ensures IsTree(u, mount, ino, keep, depth)
    decreases depth
  {
    assert t[ino] == u[ino];
    ReachFrame(t, u, mount, ino, keep, depth, ino);
    forall name | name in Visits(t, mount, ino, keep)
      ensures IsTree(u, mount, Child(t, ino, name), {}, depth - 1)
      ensures forall d :: Below(u, mount, ino, name, depth, d) <==> Below(t, mount, ino, name, depth, d)
    {
      AgreeOnChild(t, u, mount, ino, keep, depth, name);
      TreeFrame(t, u, mount, Child(t, ino, name), {}, depth - 1);
      forall d ensures Below(u, mount, ino, name, depth, d) <==> Below(t, mount, ino, name, depth, d) {
        ReachFrame(t, u, mount, Child(t, ino, name), {}, depth - 1, d);
      }
    }
  }

  /** A fate depends only on the link, on devices, and on what lies below a directory that is entered. */
  ghost predicate SameEntry(t: Table, u: Table, mount: nat, ino: nat, name: string, depth: nat) {
    && depth > 0 && SameShape(t, u) && ino in t
    && LinkAt(t, ino, name) == LinkAt(u, ino, name)
    && (name in t[ino].entries && t[ino].entries[name].Sub? ==> t[ino].entries[name].ino in t)
    && (Enterable(t, mount, ino, name) ==>
          AgreeOn(t, u, mount, Child(t, ino, name), {}, depth - 1) && IsTree(t, mount, Child(t, ino, name), {}, depth - 1))
  }

  lemma {:induction false} FateFrame(t: Table, u: Table, mount: nat, ino: nat, depth: nat, name: string)
    requires SameEntry(t, u, mount, ino, name, depth) && name in t[ino].entries
    ensures name in u[ino].entries && FateOf(u, mount, ino, name, depth) == FateOf(t, mount, ino, name, depth)
    decreases depth, 0
  {
    if Enterable(t, mount, ino, name) {
      OutcomeFrame(t, u, mount, Child(t, ino, name), {}, depth - 1);
    }
  }

  lemma {:induction false} SameEntryWithin(
    t: Table, u: Table, mount: nat, ino: nat, keep: set<string>, depth: nat, name: string)
    requires AgreeOn(t, u, mount, ino, keep, depth) && IsTree(t, mount, ino, keep, depth)
    requires name in t[ino].entries && name in t[ino].listing && name !in keep
    ensures SameEntry(t, u, mount, ino, name, depth)
  {
    assert t[ino] == u[ino];
    if Enterable(t, mount, ino, name) {
      AgreeOnChild(t, u, mount, ino, keep, depth, name);
    }
  }

  lemma {:induction false} StaysFrame(t: Table, u: Table, mount: nat, ino: nat, keep: set<string>, depth: nat, name: string)
    requires AgreeOn(t, u, mount, ino, keep, depth) && IsTree(t, mount, ino, keep, depth) && name in t[ino].entries
    ensures ino in u && name in u[ino].entries
    ensures Stays(u, mount, ino, keep, name, depth) <==> Stays(t, mount, ino, keep, name, depth)
    decreases depth, 1
  {
    assert t[ino] == u[ino];
    if name in t[ino].listing && name !in keep {
      SameEntryWithin(t, u, mount, ino, keep, depth, name);
      FateFrame(t, u, mount, ino, depth, name);
    }
  }

  lemma {:induction false} OutcomeFrame(t: Table, u: Table, mount: nat, ino: nat, keep: set<string>, depth: nat)
    requires AgreeOn(t, u, mount, ino, keep, depth) && IsTree(t, mount, ino, keep, depth)
    ensures ino in u && OutcomeOf(u, mount, ino, keep, depth) == OutcomeOf(t, mount, ino, keep, depth)
    ensures IsEmptied(u, mount, ino, keep, depth) <==> IsEmptied(t, mount, ino, keep, depth)
    decreases depth, 2
  {
    assert t[ino] == u[ino];
    forall name | name in t[ino].entries
      ensures Stays(u, mount, ino, keep, name, depth) <==> Stays(t, mount, ino, keep, name, depth)
      ensures name in t[ino].listing && name !in keep ==>
                FateOf(u, mount, ino, name, depth) == FateOf(t, mount, ino, name, depth)
    {
      StaysFrame(t, u, mount, ino, keep, depth, name);
      if name in t[ino].listing && name !in keep {
        SameEntryWithin(t, u, mount, ino, keep, depth, name);
        FateFrame(t, u, mount, ino, depth, name);
      }
    }
  }

  // ----- The pruned table ----------------------------------------------------------------------

  /** Directory `ino` of `u` holds exactly the entries of `t` that stay, and its listing has shrunk with it. */
  ghost predicate HoldsSurvivors(t: Table, u: Table, mount: nat, ino: nat, keep: set<string>, depth: nat) {
    && ino in t && ino in u && u[ino].listingFault == t[ino].listingFault
    && u[ino].entries == (map name | name in t[ino].entries && Stays(t, mount, ino, keep, name, depth) :: t[ino].entries[name])
    && (forall name :: name in u[ino].listing <==>
          name in t[ino].listing && (name in t[ino].entries ==> Stays(t, mount, ino, keep, name, depth)))
    && (Distinct(t[ino].listing) ==> Distinct(u[ino].listing))
  }

  ghost predicate IsPruned(t: Table, u: Table, mount: nat, ino: nat, keep: set<string>, depth: nat)
    decreases depth
  {
    && depth > 0 && HoldsSurvivors(t, u, mount, ino, keep, depth)
    && forall name :: name in Visits(t, mount, ino, keep) ==> IsPruned(t, u, mount, Child(t, ino, name), {}, depth - 1)
  }

  lemma {:induction false} PrunedFrom(t: Table, u: Table, x: Table, mount: nat, ino: nat, keep: set<string>, depth: nat)
    requires AgreeOn(t, u, mount, ino, keep, depth) && IsTree(t, mount, ino, keep, depth)
    requires IsPruned(u, x, mount, ino, keep, depth)
    ensures IsPruned(t, x, mount, ino, keep, depth)
    decreases depth
  {
    assert t[ino] == u[ino];
    forall name | name in t[ino].entries
      ensures Stays(u, mount, ino, keep, name, depth) <==> Stays(t, mount, ino, keep, name, depth)
    {
      StaysFrame(t, u, mount, ino, keep, depth, name);
    }
    ReachFrame(t, u, mount, ino, keep, depth, ino);
    forall name | name in Visits(t, mount, ino, keep)
      ensures IsPruned(t, x, mount, Child(t, ino, name), {}, depth - 1)
    {
      AgreeOnChild(t, u, mount, ino, keep, depth, name);
      PrunedFrom(t, u, x, mount, Child(t, ino, name), {}, depth - 1);
    }
  }

  lemma {:induction false} PrunedTo(t: Table, x: Table, y: Table, mount: nat, ino: nat, keep: set<string>, depth: nat)
    requires IsPruned(t, x, mount, ino, keep, depth)
    requires forall d :: d in x && InReach(t, mount, ino, keep, depth, d) ==> d in y && y[d] == x[d]
    ensures IsPruned(t, y, mount, ino, keep, depth)
    decreases depth
  {
    forall name | name in Visits(t, mount, ino, keep)
      ensures IsPruned(t, y, mount, Child(t, ino, name), {}, depth - 1)
    {
      PrunedTo(t, x, y, mount, Child(t, ino, name), {}, depth - 1);
    }
  }

  /** Nothing outside the reach of the prune has changed. */
  ghost predicate Framed(t: Table, u: Table, mount: nat, ino: nat, keep: set<string>, depth: nat) {
    SameShape(t, u) && forall d :: d in t && !InReach(t, mount, ino, keep, depth, d) ==> u[d] == t[d]
  }

  // ----- One entry --------------------------------------------------------------------------------

  datatype EntryResult = Settled | Incomplete | HitLimit

  function ResultOfFault(f: Fault): EntryResult {
    if f == Refused then Incomplete else Settled
  }

  ghost predicate EntryReady(t: Table, mount: nat, ino: nat, name: string, depth: nat) {
    && depth > 0 && ino in t && GoodListing(t, ino)
    && (Enterable(t, mount, ino, name) ==>
          IsTree(t, mount, Child(t, ino, name), {}, depth - 1) && !Below(t, mount, ino, name, depth, ino))
  }

  /** What removing one entry does to a quiet table. */
  ghost predicate EntryRemoved(t: Table, u: Table, mount: nat, ino: nat, name: string, depth: nat, r: EntryResult)
    requires EntryReady(t, mount, ino, name, depth)
  {
    && SameShape(t, u)
    && (r == Incomplete <==> name in t[ino].entries && FateOf(t, mount, ino, name, depth) == Blocked)
    && r != HitLimit
    && u[ino] == (if name in t[ino].entries && FateOf(t, mount, ino, name, depth) == Gone
                  then Shrunk(t[ino], name) else t[ino])
    && (forall d :: d in t && d != ino && !(Enterable(t, mount, ino, name) && Below(t, mount, ino, name, depth, d)) ==>
          u[d] == t[d])
    && (Enterable(t, mount, ino, name) ==> IsPruned(t, u, mount, Child(t, ino, name), {}, depth - 1))
  }

  lemma {:induction false} EntryLeft(t: Table, mount: nat, ino: nat, name: string, depth: nat, r: EntryResult)
    requires EntryReady(t, mount, ino, name, depth) && !Enterable(t, mount, ino, name) && r != HitLimit
    requires name in t[ino].entries ==> FateOf(t, mount, ino, name, depth) == if r == Incomplete then Blocked else Skipped
    requires name !in t[ino].entries ==> r == Settled
    ensures EntryRemoved(t, t, mount, ino, name, depth, r)
  {
  }

  lemma LeafUnlinked(t: Table, mount: nat, ino: nat, name: string, depth: nat)
    requires EntryReady(t, mount, ino, name, depth)
    requires name in t[ino].entries && t[ino].entries[name].Leaf? && t[ino].entries[name].stat == Works
    ensures var (u, fault) := UnlinkOf(t, ino, name);
            EntryRemoved(t, u, mount, ino, name, depth, ResultOfFault(fault))
  {
  }

  /** The descent ended without permission to remove the directory itself. */
  lemma ChildLeft(t: Table, u: Table, mount: nat, ino: nat, name: string, depth: nat, outcome: Outcome)
    requires EntryReady(t, mount, ino, name, depth) && Enterable(t, mount, ino, name)
    requires IsPruned(t, u, mount, Child(t, ino, name), {}, depth - 1)
    requires Framed(t, u, mount, Child(t, ino, name), {}, depth - 1)
    requires outcome == OutcomeOf(t, mount, Child(t, ino, name), {}, depth - 1) && outcome != Returned(true)
    ensures EntryRemoved(t, u, mount, ino, name, depth,
                         if outcome.Raised? then ResultOfFault(outcome.fault) else Incomplete)
  {
  }

  lemma {:induction false} EmptiedIffHoldsNothing(t: Table, u: Table, mount: nat, ino: nat, keep: set<string>, depth: nat)
    requires HoldsSurvivors(t, u, mount, ino, keep, depth)
    ensures u[ino].entries == map[] <==> IsEmptied(t, mount, ino, keep, depth)
  {
    if !IsEmptied(t, mount, ino, keep, depth) {
      var name :| name in t[ino].entries && Stays(t, mount, ino, keep, name, depth);
      assert name in u[ino].entries;
    } else {
      assert forall name :: name !in u[ino].entries;
    }
  }

  lemma RmdirChangesOneDirectory(u: Table, ino: nat, name: string)
    requires ino in u && name in u[ino].entries && u[ino].entries[name].Sub? && u[ino].entries[name].ino in u
    ensures var (v, fault) := RmdirOf(u, ino, name);
            var child := u[ino].entries[name].ino;
            && SameShape(u, v) && (forall d :: d in u && d != ino ==> v[d] == u[d])
            && v[ino] == (if fault == Works then Shrunk(u[ino], name) else u[ino])
            && fault == if u[child].entries != map[] then Refused else u[ino].entries[name].rmdir
  {
  }

  lemma {:induction false} ChildRemoved(t: Table, u: Table, mount: nat, ino: nat, name: string, depth: nat)
    requires EntryReady(t, mount, ino, name, depth) && Enterable(t, mount, ino, name)
    requires IsPruned(t, u, mount, Child(t, ino, name), {}, depth - 1)
    requires Framed(t, u, mount, Child(t, ino, name), {}, depth - 1)
    requires OutcomeOf(t, mount, Child(t, ino, name), {}, depth - 1) == Returned(true)
    ensures var (v, fault) := RmdirOf(u, ino, name);
            EntryRemoved(t, v, mount, ino, name, depth, ResultOfFault(fault))
  {
    var child := Child(t, ino, name);
    assert u[ino] == t[ino] by {
      assert !Below(t, mount, ino, name, depth, ino);
    }
    EmptiedIffHoldsNothing(t, u, mount, child, {}, depth - 1);
    RmdirChangesOneDirectory(u, ino, name);
    var v := RmdirOf(u, ino, name).0;
    PrunedTo(t, u, v, mount, child, {}, depth - 1);
    assert forall d :: d in t && d != ino && !Below(t, mount, ino, name, depth, d) ==> v[d] == t[d];
  }

  // ----- The loop over one directory -------------------------------------------------------------

  /** Directory `ino` when the entries in `done` have been dealt with. */
  ghost predicate PartlyPruned(t: Table, u: Table, mount: nat, ino: nat, keep: set<string>, depth: nat, done: set<string>) {
    && ino in t && ino in u && u[ino].listingFault == t[ino].listingFault
    && u[ino].entries == (map name | name in t[ino].entries
                                     && (name in done ==> Stays(t, mount, ino, keep, name, depth)) :: t[ino].entries[name])
    && (forall name :: name in u[ino].listing <==>
          name in t[ino].listing
          && (name in t[ino].entries && name in done ==> Stays(t, mount, ino, keep, name, depth)))
    && Distinct(u[ino].listing)
  }

  /** Subdirectory `name` is finished if it is done, and untouched otherwise. */
  ghost predicate ChildProgress(t: Table, u: Table, mount: nat, ino: nat, depth: nat, done: set<string>, name: string)
    requires depth > 0 && SameShape(t, u) && ino in t && name in t[ino].entries && t[ino].entries[name].Sub?
  {
    if name in done then IsPruned(t, u, mount, Child(t, ino, name), {}, depth - 1)
    else forall d :: d in t && Below(t, mount, ino, name, depth, d) ==> u[d] == t[d]
  }

  ghost predicate Progress(t: Table, u: Table, mount: nat, ino: nat, keep: set<string>, depth: nat, done: set<string>) {
    && depth > 0 && Framed(t, u, mount, ino, keep, depth) && PartlyPruned(t, u, mount, ino, keep, depth, done)
    && forall name :: name in Visits(t, mount, ino, keep) ==> ChildProgress(t, u, mount, ino, depth, done, name)
  }

  lemma {:induction false} NoProgress(t: Table, mount: nat, ino: nat, keep: set<string>, depth: nat)
    requires IsTree(t, mount, ino, keep, depth)
    ensures Progress(t, t, mount, ino, keep, depth, {})
  {
  }

  lemma {:induction false} ProgressIsDone(
    t: Table, u: Table, mount: nat, ino: nat, keep: set<string>, depth: nat, done: set<string>)
    requires Progress(t, u, mount, ino, keep, depth, done) && forall name :: name in done <==> name in t[ino].listing
    ensures IsPruned(t, u, mount, ino, keep, depth)
  {
  }

  lemma KeptIsProgress(
    t: Table, u: Table, mount: nat, ino: nat, keep: set<string>, depth: nat, done: set<string>, name: string)
    requires Progress(t, u, mount, ino, keep, depth, done) && name in keep
    ensures Progress(t, u, mount, ino, keep, depth, done + {name})
  {
    forall other | other in Visits(t, mount, ino, keep) ensures ChildProgress(t, u, mount, ino, depth, done + {name}, other) {
      assert ChildProgress(t, u, mount, ino, depth, done, other);
    }
  }

  lemma {:induction false} NextEntryReady(
    t: Table, u: Table, mount: nat, ino: nat, keep: set<string>, depth: nat, done: set<string>, name: string)
    requires IsTree(t, mount, ino, keep, depth) && Progress(t, u, mount, ino, keep, depth, done)
    requires name in t[ino].listing && name !in done && name !in keep
    ensures SameEntry(t, u, mount, ino, name, depth) && EntryReady(u, mount, ino, name, depth)
    ensures Enterable(t, mount, ino, name) <==> Enterable(u, mount, ino, name)
    ensures Enterable(t, mount, ino, name) ==>
              forall d :: Below(u, mount, ino, name, depth, d) <==> Below(t, mount, ino, name, depth, d)
  {
    if Enterable(t, mount, ino, name) {
      var child := Child(t, ino, name);
      assert ChildProgress(t, u, mount, ino, depth, done, name);
      assert AgreeOn(t, u, mount, child, {}, depth - 1) by {
        assert forall d :: d in t && Below(t, mount, ino, name, depth, d) ==> u[d] == t[d];
        assert forall d :: InReach(t, mount, child, {}, depth - 1, d) ==> Below(t, mount, ino, name, depth, d);
      }
      TreeFrame(t, u, mount, child, {}, depth - 1);
      forall d ensures Below(u, mount, ino, name, depth, d) <==> Below(t, mount, ino, name, depth, d) {
        ReachFrame(t, u, mount, child, {}, depth - 1, d);
      }
    }
  }

  lemma {:induction false} EntrySparesOthers(
    t: Table, u: Table, w: Table, mount: nat, ino: nat, keep: set<string>, depth: nat, done: set<string>,
    name: string, r: EntryResult, other: string, d: nat)
    requires IsTree(t, mount, ino, keep, depth) && Progress(t, u, mount, ino, keep, depth, done)
    requires name in t[ino].listing && name !in done && name !in keep
    requires EntryReady(u, mount, ino, name, depth) && EntryRemoved(u, w, mount, ino, name, depth, r)
    requires other in Visits(t, mount, ino, keep) && other != name
    requires d in t && Below(t, mount, ino, other, depth, d)
    ensures d in w && w[d] == u[d]
  {
    NextEntryReady(t, u, mount, ino, keep, depth, done, name);
    assert d != ino;
    if Enterable(t, mount, ino, name) {
      assert name in Visits(t, mount, ino, keep);
      assert !Below(t, mount, ino, name, depth, d);
    }
  }

  lemma {:induction false} EnteredChildIsPruned(
    t: Table, u: Table, w: Table, mount: nat, ino: nat, keep: set<string>, depth: nat, done: set<string>,
    name: string, r: EntryResult)
    requires IsTree(t, mount, ino, keep, depth) && Progress(t, u, mount, ino, keep, depth, done)
    requires name in Visits(t, mount, ino, keep) && name !in done
    requires EntryReady(u, mount, ino, name, depth) && EntryRemoved(u, w, mount, ino, name, depth, r)
    ensures IsPruned(t, w, mount, Child(t, ino, name), {}, depth - 1)
  {
    NextEntryReady(t, u, mount, ino, keep, depth, done, name);
    PrunedFrom(t, u, w, mount, Child(t, ino, name), {}, depth - 1);
  }

  lemma {:induction false} OthersKeepProgress(
    t: Table, u: Table, w: Table, mount: nat, ino: nat, keep: set<string>, depth: nat, done: set<string>,
    name: string, r: EntryResult, other: string)
    requires IsTree(t, mount, ino, keep, depth) && Progress(t, u, mount, ino, keep, depth, done)
    requires name in t[ino].listing && name !in done && name !in keep
    requires EntryReady(u, mount, ino, name, depth) && EntryRemoved(u, w, mount, ino, name, depth, r)
    requires other in Visits(t, mount, ino, keep) && other != name
    ensures SameShape(t, w) && ChildProgress(t, w, mount, ino, depth, done + {name}, other)
  {
    assert ChildProgress(t, u, mount, ino, depth, done, other);
    var child := Child(t, ino, other);
    forall d | d in t && Below(t, mount, ino, other, depth, d) ensures d in w && w[d] == u[d] {
      EntrySparesOthers(t, u, w, mount, ino, keep, depth, done, name, r, other, d);
    }
    if other in done {
      assert forall d :: d in u && InReach(t, mount, child, {}, depth - 1, d) ==> Below(t, mount, ino, other, depth, d);
      PrunedTo(t, u, w, mount, child, {}, depth - 1);
    }
  }

  lemma {:induction false} RootKeepsProgress(
    t: Table, u: Table, w: Table, mount: nat, ino: nat, keep: set<string>, depth: nat, done: set<string>,
    name: string, r: EntryResult)
    requires IsTree(t, mount, ino, keep, depth) && Progress(t, u, mount, ino, keep, depth, done)
    requires name in t[ino].listing && name !in done && name !in keep
    requires EntryReady(u, mount, ino, name, depth) && EntryRemoved(u, w, mount, ino, name, depth, r)
    ensures PartlyPruned(t, w, mount, ino, keep, depth, done + {name})
    ensures r == Incomplete <==> name in t[ino].entries && FateOf(t, mount, ino, name, depth) == Blocked
  {
    NextEntryReady(t, u, mount, ino, keep, depth, done, name);
    if name in t[ino].entries {
      FateFrame(t, u, mount, ino, depth, name);
      assert name in u[ino].entries && u[ino].entries[name] == t[ino].entries[name];
      DistinctWithout(u[ino].listing, name);
      assert Stays(t, mount, ino, keep, name, depth) <==> FateOf(t, mount, ino, name, depth) != Gone;
    }
  }

  lemma {:induction false} DistinctWithout(names: seq<string>, name: string)
    requires Distinct(names)
    ensures Distinct(Without(names, name))
  {
    if names != [] {
      var front := names[..|names| - 1];
      DistinctWithout(front, name);
      var last := names[|names| - 1];
      assert last !in front;
      assert last !in Without(front, name);
    }
  }

  lemma {:induction false} FrameKeepsProgress(
    t: Table, u: Table, w: Table, mount: nat, ino: nat, keep: set<string>, depth: nat, done: set<string>,
    name: string, r: EntryResult)
    requires IsTree(t, mount, ino, keep, depth) && Progress(t, u, mount, ino, keep, depth, done)
    requires name in t[ino].listing && name !in done && name !in keep
    requires EntryReady(u, mount, ino, name, depth) && EntryRemoved(u, w, mount, ino, name, depth, r)
    ensures Framed(t, w, mount, ino, keep, depth)
  {
    NextEntryReady(t, u, mount, ino, keep, depth, done, name);
    forall d | d in t && !InReach(t, mount, ino, keep, depth, d) ensures w[d] == t[d] {
      if Enterable(t, mount, ino, name) {
        assert name in Visits(t, mount, ino, keep);
        assert !Below(t, mount, ino, name, depth, d);
      }
    }
  }

  lemma {:induction false} EntryIsProgress(
    t: Table, u: Table, w: Table, mount: nat, ino: nat, keep: set<string>, depth: nat, done: set<string>,
    name: string, r: EntryResult)
    requires IsTree(t, mount, ino, keep, depth) && Progress(t, u, mount, ino, keep, depth, done)
    requires name in t[ino].listing && name !in done && name !in keep
    requires EntryReady(u, mount, ino, name, depth) && EntryRemoved(u, w, mount, ino, name, depth, r)
    ensures Progress(t, w, mount, ino, keep, depth, done + {name})
    ensures r == Incomplete <==> name in t[ino].entries && FateOf(t, mount, ino, name, depth) == Blocked
  {
    FrameKeepsProgress(t, u, w, mount, ino, keep, depth, done, name, r);
    RootKeepsProgress(t, u, w, mount, ino, keep, depth, done, name, r);
    forall other | other in Visits(t, mount, ino, keep)
      ensures ChildProgress(t, w, mount, ino, depth, done + {name}, other)
    {
      if other == name {
        EnteredChildIsPruned(t, u, w, mount, ino, keep, depth, done, name, r);
      } else {
        OthersKeepProgress(t, u, w, mount, ino, keep, depth, done, name, r, other);
      }
    }
  }

  /** None of these names is blocked. */
  ghost predicate NoneBlocked(t: Table, mount: nat, ino: nat, keep: set<string>, depth: nat, names: set<string>)
    requires ino in t
  {
    forall name :: name in names && name in t[ino].entries && name !in keep ==>
                     FateOf(t, mount, ino, name, depth) != Blocked
  }

  function Names(names: seq<string>): (s: set<string>)
    ensures forall name :: name in s <==> name in names
  {
    set name | name in names
  }

  ghost predicate LoopState(t: Table, u: Table, mount: nat, ino: nat, keep: set<string>, depth: nat,
                            done: set<string>, complete: bool)
  {
    && Progress(t, u, mount, ino, keep, depth, done)
    && (complete <==> NoneBlocked(t, mount, ino, keep, depth, done))
  }

  lemma NextName(names: seq<string>, i: nat)
    requires Distinct(names) && i < |names|
    ensures names[i] !in Names(names[..i]) && Names(names[..i + 1]) == Names(names[..i]) + {names[i]}
  {
  }

  lemma {:induction false} LoopReady(
    t: Table, u: Table, mount: nat, ino: nat, keep: set<string>, depth: nat, i: nat, complete: bool)
    requires IsTree(t, mount, ino, keep, depth) && i < |t[ino].listing|
    requires LoopState(t, u, mount, ino, keep, depth, Names(t[ino].listing[..i]), complete)
    ensures var name := t[ino].listing[i];
            if name in keep then LoopState(t, u, mount, ino, keep, depth, Names(t[ino].listing[..i + 1]), complete)
            else EntryReady(u, mount, ino, name, depth) && u[ino].device == t[ino].device
  {
    var name := t[ino].listing[i];
    var done := Names(t[ino].listing[..i]);
    NextName(t[ino].listing, i);
    if name in keep {
      KeptIsProgress(t, u, mount, ino, keep, depth, done, name);
    } else {
      NextEntryReady(t, u, mount, ino, keep, depth, done, name);
    }
  }

  lemma {:induction false} NoneBlockedGrows(
    t: Table, mount: nat, ino: nat, keep: set<string>, depth: nat, done: set<string>, name: string)
    requires ino in t && name !in keep
    ensures NoneBlocked(t, mount, ino, keep, depth, done + {name}) <==>
            && NoneBlocked(t, mount, ino, keep, depth, done)
            && !(name in t[ino].entries && FateOf(t, mount, ino, name, depth) == Blocked)
  {
  }

  /** One turn of the loop: a kept name is passed over, any other is dealt with if it was ready to be. */
  ghost predicate LoopTurn(u: Table, w: Table, mount: nat, ino: nat, keep: set<string>, depth: nat, device: nat,
                           name: string, r: EntryResult)
  {
    if name in keep then w == u && r == Settled
    else EntryReady(u, mount, ino, name, depth) && u[ino].device == device ==> EntryRemoved(u, w, mount, ino, name, depth, r)
  }

  lemma {:induction false} LoopStep(
    t: Table, u: Table, w: Table, mount: nat, ino: nat, keep: set<string>, depth: nat, i: nat, complete: bool,
    r: EntryResult)
    requires IsTree(t, mount, ino, keep, depth) && i < |t[ino].listing|
    requires LoopState(t, u, mount, ino, keep, depth, Names(t[ino].listing[..i]), complete)
    requires LoopTurn(u, w, mount, ino, keep, depth, t[ino].device, t[ino].listing[i], r)
    ensures LoopState(t, w, mount, ino, keep, depth, Names(t[ino].listing[..i + 1]), complete && r != Incomplete)
    ensures r != HitLimit
  {
    var name := t[ino].listing[i];
    var done := Names(t[ino].listing[..i]);
    LoopReady(t, u, mount, ino, keep, depth, i, complete);
    if name !in keep {
      NextName(t[ino].listing, i);
      EntryIsProgress(t, u, w, mount, ino, keep, depth, done, name, r);
      NoneBlockedGrows(t, mount, ino, keep, depth, done, name);
    }
  }

  /** What the loop did to a quiet table, turn by turn: the tables it went through and each turn's result. */
  ghost predicate AreTurns(us: seq<Table>, rs: seq<EntryResult>, mount: nat, ino: nat, keep: set<string>, depth: nat,
                           device: nat, names: seq<string>)
  {
    && |us| == |rs| + 1 && |rs| <= |names|
    && forall k :: 0 <= k < |rs| ==> LoopTurn(us[k], us[k + 1], mount, ino, keep, depth, device, names[k], rs[k])
  }

  predicate NoneIncomplete(rs: seq<EntryResult>) {
    rs == [] || (NoneIncomplete(rs[..|rs| - 1]) && rs[|rs| - 1] != Incomplete)
  }

  /** The loop state after the first `n` turns. */
  ghost predicate AtTurn(t: Table, us: seq<Table>, rs: seq<EntryResult>, mount: nat, ino: nat, keep: set<string>, depth: nat,
                         n: nat)
  {
    && ino in t && n <= |rs| < |us| && n <= |t[ino].listing|
    && LoopState(t, us[n], mount, ino, keep, depth, Names(t[ino].listing[..n]), NoneIncomplete(rs[..n]))
  }

  lemma {:induction false} NextTurn(
    t: Table, us: seq<Table>, rs: seq<EntryResult>, mount: nat, ino: nat, keep: set<string>, depth: nat, n: nat)
    requires IsTree(t, mount, ino, keep, depth) && n < |rs| < |us| && n < |t[ino].listing|
    requires AtTurn(t, us, rs, mount, ino, keep, depth, n)
    requires LoopTurn(us[n], us[n + 1], mount, ino, keep, depth, t[ino].device, t[ino].listing[n], rs[n])
    ensures AtTurn(t, us, rs, mount, ino, keep, depth, n + 1) && rs[n] != HitLimit
  {
    LoopStep(t, us[n], us[n + 1], mount, ino, keep, depth, n, NoneIncomplete(rs[..n]), rs[n]);
    assert rs[..n + 1][..n] == rs[..n];
  }

  lemma {:induction false} TurnsKeepLoopState(t: Table, us: seq<Table>, rs: seq<EntryResult>, mount: nat, ino: nat,
                                              keep: set<string>, depth: nat, n: nat)
    requires IsTree(t, mount, ino, keep, depth) && n <= |rs|
    requires AreTurns(us, rs, mount, ino, keep, depth, t[ino].device, t[ino].listing) && us[0] == t
    ensures AtTurn(t, us, rs, mount, ino, keep, depth, n)
    ensures n > 0 ==> rs[n - 1] != HitLimit
  {
    if n == 0 {
      NoProgress(t, mount, ino, keep, depth);
    } else {
      TurnsKeepLoopState(t, us, rs, mount, ino, keep, depth, n - 1);
      NextTurn(t, us, rs, mount, ino, keep, depth, n - 1);
    }
  }

  lemma {:induction false} LastTurn(
    t: Table, us: seq<Table>, rs: seq<EntryResult>, mount: nat, ino: nat, keep: set<string>, depth: nat)
    requires IsTree(t, mount, ino, keep, depth) && AtTurn(t, us, rs, mount, ino, keep, depth, |rs|)
    requires |rs| == |t[ino].listing|
    ensures IsPruned(t, us[|rs|], mount, ino, keep, depth) && Framed(t, us[|rs|], mount, ino, keep, depth)
    ensures t[ino].listingFault == Works ==> OutcomeOf(t, mount, ino, keep, depth) == Returned(NoneIncomplete(rs))
  {
    assert rs[..|rs|] == rs && t[ino].listing[..|rs|] == t[ino].listing;
    ProgressIsDone(t, us[|rs|], mount, ino, keep, depth, Names(t[ino].listing));
  }
}
