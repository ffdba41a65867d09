/**
 The post-job workspace prune (docker/runner-post-job-workspace-prune.py): recursive deletion
 relative to pinned directory descriptors.

 What a run of `empty_directory` may do is a predicate on its system calls, for every answer they may
 get. That such a run is safe whatever the environment does, and what it leaves of a quiet file system,
 are theorems about those calls.
 */
module WorkspacePrune {
  import opened Wrappers
  import opened FileSystems
  import opened PrunedTables

  // ----- Every run of the prune, call by call ----------------------------------------------------

  function Flatten(segs: seq<seq<Call>>): seq<Call> {
    if segs == [] then [] else Flatten(segs[..|segs| - 1]) + segs[|segs| - 1]
  }

  predicate EndsAtLimit(rs: seq<EntryResult>) {
    rs != [] && rs[|rs| - 1] == HitLimit
  }

  /** A run of `empty_directory` on the open directory `fd`: every listed name, or as many as came before the limit. */
  ghost predicate IsEmptying(c: seq<Call>, fd: Fd, mount: nat, keep: set<string>, depth: nat, out: Outcome)
    decreases depth, 3
  {
    if depth == 0 then c == [] && out == Overflow
    else
      && |c| >= 2 && c[0].FstatCall? && c[0].fd == fd && c[1].ScanCall? && c[1].fd == fd
      && exists segs, rs ::
        && AreEntries(segs, rs, fd, c[0].held.device, c[1].names, mount, keep, depth)
        && (EndsAtLimit(rs) || |rs| == |c[1].names|)
        && c[2..] == Flatten(segs) && out == OutcomeFrom(rs, c[1].fault)
  }

  function OutcomeFrom(rs: seq<EntryResult>, fault: Fault): Outcome {
    if EndsAtLimit(rs) then Overflow else if fault != Works then Raised(fault) else Returned(NoneIncomplete(rs))
  }

  /** The first listed names, in order. */
  ghost predicate AreEntries(segs: seq<seq<Call>>, rs: seq<EntryResult>, fd: Fd, device: nat, names: seq<string>,
                             mount: nat, keep: set<string>, depth: nat)
    requires depth > 0
    decreases depth, 2
  {
    && |segs| == |rs| <= |names|
    && forall k :: 0 <= k < |rs| ==>
                     if names[k] in keep then segs[k] == [] && rs[k] == Settled
                     else IsEntry(segs[k], fd, device, names[k], mount, depth, rs[k])
  }

  lemma {:induction false} OneMoreEntry(
    segs: seq<seq<Call>>, rs: seq<EntryResult>, fd: Fd, device: nat, names: seq<string>, mount: nat,
    keep: set<string>, depth: nat, seg: seq<Call>, r: EntryResult)
    requires depth > 0 && AreEntries(segs, rs, fd, device, names, mount, keep, depth) && |rs| < |names|
    requires if names[|rs|] in keep then seg == [] && r == Settled
             else IsEntry(seg, fd, device, names[|rs|], mount, depth, r)
    ensures AreEntries(segs + [seg], rs + [r], fd, device, names, mount, keep, depth)
    ensures Flatten(segs + [seg]) == Flatten(segs) + seg
    ensures NoneIncomplete(rs + [r]) <==> NoneIncomplete(rs) && r != Incomplete
    ensures EndsAtLimit(rs + [r]) <==> r == HitLimit
  {
    assert (segs + [seg])[..|segs|] == segs && (rs + [r])[..|rs|] == rs;
  }

  /** One entry. */
  ghost predicate IsEntry(c: seq<Call>, fd: Fd, device: nat, name: string, mount: nat, depth: nat, r: EntryResult)
    requires depth > 0
    decreases depth, 1
  {
    && c != [] && c[0].StatCall? && c[0].dir == fd && c[0].name == name
    && var seen := c[0].seen;
    if seen.Err? then |c| == 1 && r == ResultOfFault(seen.error)
    else if !seen.value.isDirectory then
      |c| == 2 && c[1].UnlinkCall? && c[1].dir == fd && c[1].name == name && r == ResultOfFault(c[1].fault)
    else IsSubdirectory(c[1..], fd, device, seen.value, name, mount, depth, r)
  }

  /** One subdirectory: refused, or entered and removed only if the descent says it is empty. */
  ghost predicate IsSubdirectory(c: seq<Call>, fd: Fd, device: nat, seen: Metadata, name: string, mount: nat, depth: nat,
                                 r: EntryResult)
    requires depth > 0
    decreases depth, 0
  {
    || IsRefused(c, fd, device, seen, name, mount, r)
    || (&& |c| >= 3 && IsOpened(c[..3], fd, device, seen, name, mount)
        && exists inner, out ::
             IsEmptying(inner, c[0].child.value, mount, {}, depth - 1, out) && IsDescent(c[3..], inner, fd, name, out, r))
  }

  /** It does not open, is not what was seen, is on another device or mount, or its mount cannot be read. */
  predicate IsRefused(c: seq<Call>, fd: Fd, device: nat, seen: Metadata, name: string, mount: nat, r: EntryResult) {
    && 1 <= |c| <= 3 && c[0].OpenCall? && c[0].dir == fd && c[0].name == name
    && if c[0].child.Err? then |c| == 1 && r == ResultOfFault(c[0].child.error)
       else
         && |c| >= 2 && c[1].FstatCall? && c[1].fd == c[0].child.value
         && if !IsSame(c[1].held, seen, device) then |c| == 2 && r == Incomplete
            else
              && |c| == 3 && c[2].MountIdCall? && c[2].fd == c[0].child.value
              && if c[2].mount.Err? then r == ResultOfFault(c[2].mount.error)
                 else c[2].mount.value != mount && r == Incomplete
  }

  /** What it opened is what was seen, on this device and on the expected mount. */
  predicate IsOpened(c: seq<Call>, fd: Fd, device: nat, seen: Metadata, name: string, mount: nat) {
    && |c| == 3
    && c[0].OpenCall? && c[0].dir == fd && c[0].name == name && c[0].child.Ok?
    && c[1].FstatCall? && c[1].fd == c[0].child.value && IsSame(c[1].held, seen, device)
    && c[2].MountIdCall? && c[2].fd == c[0].child.value && c[2].mount == Ok(mount)
  }

  predicate IsSame(held: Metadata, seen: Metadata, device: nat) {
    held.device == seen.device && held.ino == seen.ino && held.device == device
  }

  /** The descent, and what follows it. */
  predicate IsDescent(c: seq<Call>, inner: seq<Call>, fd: Fd, name: string, out: Outcome, r: EntryResult) {
    if out == Returned(true) then
      && |c| == |inner| + 1 && c[..|inner|] == inner
      && var last := c[|inner|];
      && last.RmdirCall? && last.dir == fd && last.name == name && r == ResultOfFault(last.fault)
    else
      c == inner && r == match out
                         case Overflow => HitLimit
                         case Raised(fault) => ResultOfFault(fault)
                         case Returned(_) => Incomplete
  }

  // ----- Safety, whatever the environment does ----------------------------------------------------

  /** Every deletion is relative to a descriptor on this mount. */
  predicate OnlyThrough(c: seq<Call>, mount: nat) {
    forall i :: 0 <= i < |c| && c[i].IsDeletion() ==> c[i].dir.mount == mount
  }

  /**
   Calls `k` to `k + 3` see a directory, open it, find the very one that was seen, and read its mount
   as the expected one; `d` is the descriptor.
   */
  predicate IsEntered(c: seq<Call>, k: nat, mount: nat, d: Fd)
    requires k + 4 <= |c|
  {
    && c[k].StatCall? && c[k].seen.Ok? && c[k].seen.value.isDirectory
    && c[k + 1].OpenCall? && c[k + 1].dir == c[k].dir && c[k + 1].name == c[k].name && c[k + 1].child == Ok(d)
    && c[k + 2].FstatCall? && c[k + 2].fd == d
    && c[k + 2].held.device == c[k].seen.value.device && c[k + 2].held.ino == c[k].seen.value.ino
    && c[k + 3].MountIdCall? && c[k + 3].fd == d && c[k + 3].mount == Ok(mount)
  }

  /** By call `i`, descriptor `d` is `top` or was entered from one that was reached before. */
  ghost predicate IsReached(c: seq<Call>, i: nat, top: Fd, mount: nat, d: Fd)
    requires i <= |c|
    decreases i
  {
    d == top || exists k: nat :: k + 4 <= i && IsEntered(c, k, mount, d) && IsReached(c, k, top, mount, c[k].dir)
  }

  ghost predicate AllReached(c: seq<Call>, top: Fd, mount: nat) {
    forall i :: 0 <= i < |c| && c[i].IsDeletion() ==> IsReached(c, i, top, mount, c[i].dir)
  }

  lemma {:induction false} ReachedLater(c: seq<Call>, c': seq<Call>, i: nat, i': nat, top: Fd, mount: nat, d: Fd)
    requires i <= |c| && i <= i' <= |c'| && (forall k :: 0 <= k < i ==> c[k] == c'[k])
    requires IsReached(c, i, top, mount, d)
    ensures IsReached(c', i', top, mount, d)
    decreases i
  {
    if d != top {
      var k: nat :| k + 4 <= i && IsEntered(c, k, mount, d) && IsReached(c, k, top, mount, c[k].dir);
      ReachedLater(c, c', k, k, top, mount, c[k].dir);
      assert IsEntered(c', k, mount, d);
    }
  }

  /** What is reached from `child` in the middle is reached from `top` if `child` was reached before. */
  lemma {:induction false} ReachedWithin(
    a: seq<Call>, b: seq<Call>, z: seq<Call>, i: nat, top: Fd, mount: nat, child: Fd, d: Fd)
    requires i <= |b| && IsReached(b, i, child, mount, d) && IsReached(a, |a|, top, mount, child)
    ensures IsReached(a + b + z, |a| + i, top, mount, d)
    decreases i
  {
    var c := a + b + z;
    if d == child {
      ReachedLater(a, c, |a|, |a| + i, top, mount, d);
    } else {
      var k: nat :| k + 4 <= i && IsEntered(b, k, mount, d) && IsReached(b, k, child, mount, b[k].dir);
      ReachedWithin(a, b, z, k, top, mount, child, b[k].dir);
      assert forall j :: 0 <= j < |b| ==> c[|a| + j] == b[j];
      assert IsEntered(c, |a| + k, mount, d);
    }
  }

  lemma {:induction false} AllReachedWithin(a: seq<Call>, b: seq<Call>, z: seq<Call>, top: Fd, mount: nat, child: Fd)
    requires AllReached(a, top, mount) && AllReached(b, child, mount) && IsReached(a, |a|, top, mount, child)
    requires forall i :: 0 <= i < |z| && z[i].IsDeletion() ==> z[i].dir == top
    ensures AllReached(a + b + z, top, mount)
  {
    var c := a + b + z;
    forall i | 0 <= i < |c| && c[i].IsDeletion() ensures IsReached(c, i, top, mount, c[i].dir) {
      if i < |a| {
        ReachedLater(a, c, i, i, top, mount, c[i].dir);
      } else if i < |a| + |b| {
        ReachedWithin(a, b, z, i - |a|, top, mount, child, c[i].dir);
      } else {
        assert c[i] == z[i - |a| - |b|];
      }
    }
  }

  lemma {:induction false} FlattenReached(segs: seq<seq<Call>>, top: Fd, mount: nat)
    requires forall k :: 0 <= k < |segs| ==> AllReached(segs[k], top, mount)
    ensures AllReached(Flatten(segs), top, mount)
  {
    if segs != [] {
      var a, b := Flatten(segs[..|segs| - 1]), segs[|segs| - 1];
      FlattenReached(segs[..|segs| - 1], top, mount);
      AllReachedWithin(a, b, [], top, mount, top);
      assert a + b + [] == a + b;
    }
  }

  /**
   For every answer of every call: whatever is deleted is deleted relative to the target's descriptor,
   or one reached from it through directories that were the ones seen, never a symbolic link, and on
   the expected mount.
   */
  lemma {:induction false} DeletionsAreReached(c: seq<Call>, fd: Fd, mount: nat, keep: set<string>, depth: nat, out: Outcome)
    requires IsEmptying(c, fd, mount, keep, depth, out)
    ensures AllReached(c, fd, mount)
    decreases depth, 2
  {
    if depth > 0 {
      var segs, rs :| AreEntries(segs, rs, fd, c[0].held.device, c[1].names, mount, keep, depth)
                      && (EndsAtLimit(rs) || |rs| == |c[1].names|)
                    && c[2..] == Flatten(segs) && out == OutcomeFrom(rs, c[1].fault);
      forall k | 0 <= k < |segs| ensures AllReached(segs[k], fd, mount) {
        if c[1].names[k] !in keep {
          EntryDeletionsAreReached(segs[k], fd, c[0].held.device, c[1].names[k], mount, depth, rs[k]);
        }
      }
      FlattenReached(segs, fd, mount);
      AllReachedWithin(c[..2], c[2..], [], fd, mount, fd);
      assert c[..2] + c[2..] + [] == c;
    }
  }

  lemma {:induction false} EntryDeletionsAreReached(
    c: seq<Call>, fd: Fd, device: nat, name: string, mount: nat, depth: nat, r: EntryResult)
    requires depth > 0 && IsEntry(c, fd, device, name, mount, depth, r)
    ensures AllReached(c, fd, mount)
    decreases depth, 1
  {
    if c[0].seen.Ok? && c[0].seen.value.isDirectory && !IsRefused(c[1..], fd, device, c[0].seen.value, name, mount, r) {
      var sub := c[1..];
      var child := sub[0].child.value;
      var inner, out :| IsEmptying(inner, child, mount, {}, depth - 1, out) && IsDescent(sub[3..], inner, fd, name, out, r);
      DeletionsAreReached(inner, child, mount, {}, depth - 1, out);
      DescentIsReached(c[0], sub[..3], sub[3..], inner, fd, device, name, mount, out, r);
      assert [c[0]] + sub[..3] + sub[3..] == c;
    }
  }

  lemma {:induction false} DescentIsReached(
    stat: Call, opening: seq<Call>, c: seq<Call>, inner: seq<Call>, fd: Fd, device: nat, name: string, mount: nat,
    out: Outcome, r: EntryResult)
    requires stat.StatCall? && stat.dir == fd && stat.name == name && stat.seen.Ok? && stat.seen.value.isDirectory
    requires IsOpened(opening, fd, device, stat.seen.value, name, mount) && AllReached(inner, opening[0].child.value, mount)
    requires IsDescent(c, inner, fd, name, out, r)
    ensures AllReached([stat] + opening + c, fd, mount)
  {
    var a, z := [stat] + opening, c[|inner|..];
    assert a[0] == stat && a[1] == opening[0] && a[2] == opening[1] && a[3] == opening[2];
    assert IsEntered(a, 0, mount, opening[0].child.value);
    AllReachedWithin(a, inner, z, fd, mount, opening[0].child.value);
    assert c == inner + z;
    assert [stat] + opening + c == a + inner + z;
  }

  /** A reached descriptor is on the expected mount if the target is. */
  lemma {:induction false} ReachedIsOnMount(c: seq<Call>, i: nat, top: Fd, mount: nat, d: Fd)
    requires AllAnswer(c) && i <= |c| && IsReached(c, i, top, mount, d) && top.mount == mount
    ensures d.mount == mount
  {
    if d != top {
      var k: nat :| k + 4 <= i && IsEntered(c, k, mount, d);
      assert Answers(c[k + 3]);
    }
  }

  lemma {:induction false} EmptyingIsSafe(c: seq<Call>, fd: Fd, mount: nat, keep: set<string>, depth: nat, out: Outcome)
    requires IsEmptying(c, fd, mount, keep, depth, out) && AllAnswer(c) && fd.mount == mount
    ensures OnlyThrough(c, mount)
  {
    DeletionsAreReached(c, fd, mount, keep, depth, out);
    forall i | 0 <= i < |c| && c[i].IsDeletion() ensures c[i].dir.mount == mount {
      ReachedIsOnMount(c, i, fd, mount, c[i].dir);
    }
  }

  // ----- What a run leaves of a quiet file system ---------------------------------------------------

  lemma {:induction false} ChainOfSegments(segs: seq<seq<Call>>, t: Table, u: Table) returns (us: seq<Table>)
    requires Chained(Flatten(segs), t, u)
    ensures |us| == |segs| + 1 && us[0] == t && us[|segs|] == u
    ensures forall k :: 0 <= k < |segs| ==> Chained(segs[k], us[k], us[k + 1])
  {
    if segs == [] {
      us := [t];
    } else {
      var n := |segs| - 1;
      var m := ChainSplit(Flatten(segs[..n]), segs[n], t, u);
      var front := ChainOfSegments(segs[..n], t, m);
      us := front + [u];
      forall k | 0 <= k < |segs| ensures Chained(segs[k], us[k], us[k + 1]) {
        if k < n {
          assert Chained(segs[..n][k], front[k], front[k + 1]);
        }
      }
    }
  }

  lemma {:induction false} FlattenAnswers(segs: seq<seq<Call>>)
    requires AllAnswer(Flatten(segs))
    ensures forall k :: 0 <= k < |segs| ==> AllAnswer(segs[k])
  {
    if segs != [] {
      var a, b := Flatten(segs[..|segs| - 1]), segs[|segs| - 1];
      AnswersOfParts(a, b);
      FlattenAnswers(segs[..|segs| - 1]);
    }
  }

  lemma {:induction false} OneCall(c: seq<Call>, t: Table, u: Table)
    requires |c| == 1 && Chained(c, t, u)
    ensures c[0].at == t && u == AfterCall(c[0])
  {
    assert c[..0] == [];
  }

  /** One entry of a quiet directory. */
  lemma {:induction false} EntryIsExact(
    c: seq<Call>, t: Table, u: Table, fd: Fd, device: nat, name: string, mount: nat, depth: nat, r: EntryResult)
    requires depth > 0 && IsEntry(c, fd, device, name, mount, depth, r) && AllAnswer(c) && Chained(c, t, u)
    requires EntryReady(t, mount, fd.ino, name, depth) && device == t[fd.ino].device
    ensures EntryRemoved(t, u, mount, fd.ino, name, depth, r)
    decreases depth, 1
  {
    ChainHead(c, t, u);
    assert Answers(c[0]);
    var seen := c[0].seen;
    if seen.Err? {
      assert c[1..] == [];
      EntryLeft(t, mount, fd.ino, name, depth, r);
    } else if !seen.value.isDirectory {
      OneCall(c[1..], t, u);
      assert Answers(c[1]);
      LeafUnlinked(t, mount, fd.ino, name, depth);
    } else {
      assert forall i :: 0 <= i < |c[1..]| ==> c[1..][i] == c[i + 1];
      SubdirectoryIsExact(c[1..], t, u, fd, device, seen.value, name, mount, depth, r);
    }
  }

  lemma {:induction false} SubdirectoryIsExact(
    c: seq<Call>, t: Table, u: Table, fd: Fd, device: nat, seen: Metadata, name: string, mount: nat, depth: nat,
    r: EntryResult)
    requires depth > 0 && IsSubdirectory(c, fd, device, seen, name, mount, depth, r) && AllAnswer(c) && Chained(c, t, u)
    requires EntryReady(t, mount, fd.ino, name, depth) && device == t[fd.ino].device
    requires StatOf(t, fd.ino, name) == Ok(seen) && seen.isDirectory
    ensures EntryRemoved(t, u, mount, fd.ino, name, depth, r)
    decreases depth, 0
  {
    if IsRefused(c, fd, device, seen, name, mount, r) {
      RefusalIsExact(c, t, u, fd, device, seen, name, mount, depth, r);
    } else {
      var inner, out :| IsEmptying(inner, c[0].child.value, mount, {}, depth - 1, out)
                        && IsDescent(c[3..], inner, fd, name, out, r);
      OpeningIsExact(c, t, u, fd, device, seen, name, mount);
      assert forall i :: 0 <= i < |c[3..]| ==> c[3..][i] == c[i + 3];
      DescentIsExact(c[3..], inner, t, u, fd, name, mount, depth, out, r);
    }
  }

  /** The first calls, which delete nothing, are answered by the table at the start. */
  lemma {:induction false} StillAt(c: seq<Call>, n: nat, t: Table, u: Table)
    requires n <= |c| && Chained(c, t, u) && forall k :: 0 <= k < n ==> !c[k].IsDeletion()
    ensures (forall k :: 0 <= k < n ==> c[k].at == t) && Chained(c[n..], t, u)
  {
    if n == 0 {
      assert c[0..] == c;
    } else {
      StillAt(c, n - 1, t, u);
      ChainHead(c[n - 1..], t, u);
      assert c[n - 1..][1..] == c[n..];
    }
  }

  lemma {:induction false} RefusalIsExact(
    c: seq<Call>, t: Table, u: Table, fd: Fd, device: nat, seen: Metadata, name: string, mount: nat, depth: nat,
    r: EntryResult)
    requires IsRefused(c, fd, device, seen, name, mount, r) && AllAnswer(c) && Chained(c, t, u)
    requires EntryReady(t, mount, fd.ino, name, depth) && device == t[fd.ino].device
    requires StatOf(t, fd.ino, name) == Ok(seen) && seen.isDirectory
    ensures EntryRemoved(t, u, mount, fd.ino, name, depth, r)
  {
    StillAt(c, |c|, t, u);
    assert c[|c|..] == [];
    assert Answers(c[0]);
    assert |c| > 1 ==> Answers(c[1]);
    assert |c| > 2 ==> Answers(c[2]);
    EntryLeft(t, mount, fd.ino, name, depth, r);
  }

  lemma {:induction false} OpeningIsExact(
    c: seq<Call>, t: Table, u: Table, fd: Fd, device: nat, seen: Metadata, name: string, mount: nat)
    requires |c| >= 3 && IsOpened(c[..3], fd, device, seen, name, mount) && AllAnswer(c) && Chained(c, t, u)
    requires fd.ino in t && device == t[fd.ino].device && StatOf(t, fd.ino, name) == Ok(seen) && seen.isDirectory
    requires forall l :: l in t[fd.ino].entries && t[fd.ino].entries[l].Sub? ==> t[fd.ino].entries[l].ino in t
    ensures OpenOf(t, fd.ino, name) == c[0].child && Enterable(t, mount, fd.ino, name) && Chained(c[3..], t, u)
  {
    assert c[..3][0] == c[0] && c[..3][1] == c[1] && c[..3][2] == c[2];
    StillAt(c, 3, t, u);
    assert Answers(c[0]) && Answers(c[1]) && Answers(c[2]);
  }

  lemma {:induction false} DescentIsExact(
    c: seq<Call>, inner: seq<Call>, t: Table, u: Table, fd: Fd, name: string, mount: nat, depth: nat, out: Outcome,
    r: EntryResult)
    requires depth > 0 && EntryReady(t, mount, fd.ino, name, depth) && Enterable(t, mount, fd.ino, name)
    requires OpenOf(t, fd.ino, name).Ok?
    requires IsEmptying(inner, OpenOf(t, fd.ino, name).value, mount, {}, depth - 1, out)
    requires IsDescent(c, inner, fd, name, out, r) && AllAnswer(c) && Chained(c, t, u)
    ensures EntryRemoved(t, u, mount, fd.ino, name, depth, r)
    decreases depth - 1, 4
  {
    var child := OpenOf(t, fd.ino, name).value;
    assert child.ino == Child(t, fd.ino, name);
    var rest := c[|inner|..];
    assert c == inner + rest;
    var m := ChainSplit(inner, rest, t, u);
    assert forall i :: 0 <= i < |inner| ==> inner[i] == c[i];
    EmptyingIsExact(inner, t, m, child, mount, {}, depth - 1, out);
    if out != Returned(true) {
      assert rest == [];
      ChildLeft(t, u, mount, fd.ino, name, depth, out);
    } else {
      assert rest[0] == c[|inner|];
      OneCall(rest, m, u);
      assert Answers(rest[0]);
      ChildRemoved(t, m, mount, fd.ino, name, depth);
    }
  }

  /** The result, the table left behind and its frame, on a quiet file system, for every tree. */
  lemma {:induction false} EmptyingIsExact(
    c: seq<Call>, t: Table, u: Table, fd: Fd, mount: nat, keep: set<string>, depth: nat, out: Outcome)
    requires IsEmptying(c, fd, mount, keep, depth, out) && AllAnswer(c) && Chained(c, t, u)
    requires IsTree(t, mount, fd.ino, keep, depth)
    ensures out == OutcomeOf(t, mount, fd.ino, keep, depth)
    ensures IsPruned(t, u, mount, fd.ino, keep, depth) && Framed(t, u, mount, fd.ino, keep, depth)
    decreases depth, 3
  {
    StillAt(c, 2, t, u);
    assert Answers(c[0]) && Answers(c[1]) && c[..2] + c[2..] == c;
    AnswersOfParts(c[..2], c[2..]);
    var segs, rs :| AreEntries(segs, rs, fd, c[0].held.device, c[1].names, mount, keep, depth)
                    && (EndsAtLimit(rs) || |rs| == |c[1].names|)
                    && c[2..] == Flatten(segs) && out == OutcomeFrom(rs, c[1].fault);
    EntriesAreExact(segs, rs, t, u, fd, mount, keep, depth);
  }

  lemma {:induction false} EntriesAreExact(
    segs: seq<seq<Call>>, rs: seq<EntryResult>, t: Table, u: Table, fd: Fd, mount: nat, keep: set<string>, depth: nat)
    requires IsTree(t, mount, fd.ino, keep, depth)
    requires AreEntries(segs, rs, fd, t[fd.ino].device, t[fd.ino].listing, mount, keep, depth)
    requires EndsAtLimit(rs) || |rs| == |t[fd.ino].listing|
    requires AllAnswer(Flatten(segs)) && Chained(Flatten(segs), t, u)
    ensures OutcomeFrom(rs, t[fd.ino].listingFault) == OutcomeOf(t, mount, fd.ino, keep, depth)
    ensures IsPruned(t, u, mount, fd.ino, keep, depth) && Framed(t, u, mount, fd.ino, keep, depth)
    decreases depth, 2, 1
  {
    FlattenAnswers(segs);
    var us := ChainOfSegments(segs, t, u);
    EntriesAreTurns(segs, rs, us, fd, t[fd.ino].device, t[fd.ino].listing, mount, keep, depth);
    TurnsKeepLoopState(t, us, rs, mount, fd.ino, keep, depth, |rs|);
    LastTurn(t, us, rs, mount, fd.ino, keep, depth);
  }

  lemma {:induction false} EntriesAreTurns(
    segs: seq<seq<Call>>, rs: seq<EntryResult>, us: seq<Table>, fd: Fd, device: nat, names: seq<string>, mount: nat,
    keep: set<string>, depth: nat)
    requires depth > 0 && AreEntries(segs, rs, fd, device, names, mount, keep, depth)
    requires |us| == |segs| + 1 && forall k :: 0 <= k < |segs| ==> AllAnswer(segs[k]) && Chained(segs[k], us[k], us[k + 1])
    ensures AreTurns(us, rs, mount, fd.ino, keep, depth, device, names)
    decreases depth, 2, 0
  {
    forall k | 0 <= k < |rs|
      ensures LoopTurn(us[k], us[k + 1], mount, fd.ino, keep, depth, device, names[k], rs[k])
    {
      assert AllAnswer(segs[k]) && Chained(segs[k], us[k], us[k + 1]);
      if names[k] !in keep && EntryReady(us[k], mount, fd.ino, names[k], depth) && us[k][fd.ino].device == device {
        EntryIsExact(segs[k], us[k], us[k + 1], fd, device, names[k], mount, depth, rs[k]);
      }
    }
  }

  // ----- The prune itself ------------------------------------------------------------------------

  /** The body of the loop of `empty_directory`: one entry, its exceptions caught. */
  method RemoveEntry(fs: FileSystem, fd: Fd, device: nat, name: string, expectedMount: nat, depth: nat)
    returns (r: EntryResult, ghost c: seq<Call>)
    requires fs.Valid() && depth > 0
    modifies fs
    ensures fs.Valid() && fs.calls == old(fs.calls) + c
    ensures IsEntry(c, fd, device, name, expectedMount, depth, r)
    decreases depth, 1
  {
    ghost var call, sub;
    var seen, unlinked;
    seen, call := fs.Stat(fd, name);
    c := [call];
    if seen.Err? {
      return ResultOfFault(seen.error), c;
    }
    if !seen.value.isDirectory {
      unlinked, call := fs.Unlink(fd, name);
      return ResultOfFault(unlinked), c + [call];
    }
    r, sub := RemoveSubdirectory(fs, fd, device, seen.value, name, expectedMount, depth);
    c := [call] + sub;
    assert c[1..] == sub;
  }

  /** The same for a directory, from opening it on. */
  method RemoveSubdirectory(
    fs: FileSystem, fd: Fd, device: nat, seen: Metadata, name: string, expectedMount: nat, depth: nat)
    returns (r: EntryResult, ghost c: seq<Call>)
    requires fs.Valid() && depth > 0
    modifies fs
    ensures fs.Valid() && fs.calls == old(fs.calls) + c
    ensures IsSubdirectory(c, fd, device, seen, name, expectedMount, depth, r)
    decreases depth, 0
  {
    var child;
    ghost var rest, inner, out;
    child, r, c := OpenSubdirectory(fs, fd, device, seen, name, expectedMount);
    if child.Some? {
      r, rest, inner, out := Descend(fs, fd, child.value, name, expectedMount, depth - 1);
      assert (c + rest)[..3] == c && (c + rest)[3..] == rest;
      c := c + rest;
    }
  }

  method OpenSubdirectory(fs: FileSystem, fd: Fd, device: nat, seen: Metadata, name: string, expectedMount: nat)
    returns (child: Option<Fd>, r: EntryResult, ghost c: seq<Call>)
    requires fs.Valid()
    modifies fs
    ensures fs.Valid() && fs.calls == old(fs.calls) + c
    ensures if child.None? then IsRefused(c, fd, device, seen, name, expectedMount, r)
            else IsOpened(c, fd, device, seen, name, expectedMount) && c[0].child.value == child.value
  {
    ghost var call;
    var opening, held, mount;
    opening, call := fs.Open(fd, name);
    c := [call];
    if opening.Err? {
      return None, ResultOfFault(opening.error), c;
    }
    held, call := fs.Fstat(opening.value);
    c := c + [call];
    if held.device != seen.device || held.ino != seen.ino || held.device != device {
      return None, Incomplete, c;
    }
    mount, call := fs.MountId(opening.value);
    c := c + [call];
    if mount.Err? {
      return None, ResultOfFault(mount.error), c;
    }
    if mount.value != expectedMount {
      return None, Incomplete, c;
    }
    return Some(opening.value), Settled, c;
  }

  /** The descent, and the removal of the directory itself if that left it empty. */
  method Descend(fs: FileSystem, fd: Fd, child: Fd, name: string, expectedMount: nat, depth: nat)
    returns (r: EntryResult, ghost c: seq<Call>, ghost inner: seq<Call>, ghost out: Outcome)
    requires fs.Valid()
    modifies fs
    ensures fs.Valid() && fs.calls == old(fs.calls) + c
    ensures IsEmptying(inner, child, expectedMount, {}, depth, out) && IsDescent(c, inner, fd, name, out, r)
    decreases depth, 5
  {
    var outcome;
    outcome, inner := EmptyDirectory(fs, child, expectedMount, {}, depth);
    c, out := inner, outcome;
    if outcome.Overflow? {
      return HitLimit, c, inner, out;
    }
    if outcome.Raised? {
      return ResultOfFault(outcome.fault), c, inner, out;
    }
    if !outcome.complete {
      return Incomplete, c, inner, out;
    }
    var removed;
    ghost var call;
    removed, call := fs.Rmdir(fd, name);
    return ResultOfFault(removed), inner + [call], inner, out;
  }

  /** The loop of `empty_directory`, over the names the directory was found to list. */
  method RemoveEntries(
    fs: FileSystem, fd: Fd, device: nat, names: seq<string>, expectedMount: nat, keep: set<string>, depth: nat)
    returns (complete: bool, hitLimit: bool, ghost segs: seq<seq<Call>>, ghost rs: seq<EntryResult>)
    requires fs.Valid() && depth > 0
    modifies fs
    ensures fs.Valid() && fs.calls == old(fs.calls) + Flatten(segs)
    ensures AreEntries(segs, rs, fd, device, names, expectedMount, keep, depth) && (EndsAtLimit(rs) || |rs| == |names|)
    ensures complete <==> NoneIncomplete(rs)
    ensures hitLimit <==> EndsAtLimit(rs)
    decreases depth, 2
  {
    complete, hitLimit, segs, rs := true, false, [], [];
    for i := 0 to |names|
      invariant fs.Valid() && fs.calls == old(fs.calls) + Flatten(segs)
      invariant |segs| == |rs| == i && !EndsAtLimit(rs)
      invariant AreEntries(segs, rs, fd, device, names, expectedMount, keep, depth)
      invariant complete <==> NoneIncomplete(rs)
    {
      var r := Settled;
      ghost var seg := [];
      if names[i] !in keep {
        r, seg := RemoveEntry(fs, fd, device, names[i], expectedMount, depth);
      }
      OneMoreEntry(segs, rs, fd, device, names, expectedMount, keep, depth, seg, r);
      segs, rs := segs + [seg], rs + [r];
      if r.Incomplete? {
        complete := false;
      }
      if r.HitLimit? {
        return complete, true, segs, rs;
      }
    }
  }

  /**
   `empty_directory`: what it does, for every answer of the system; that it is safe, whatever the
   environment does; and on a quiet tree exactly its outcome, the table left behind and its frame.
   */
  method EmptyDirectory(fs: FileSystem, fd: Fd, expectedMount: nat, keep: set<string>, depth: nat)
    returns (outcome: Outcome, ghost c: seq<Call>)
    requires fs.Valid()
    modifies fs
    ensures fs.Valid() && fs.calls == old(fs.calls) + c
    ensures IsEmptying(c, fd, expectedMount, keep, depth, outcome)
    ensures AllReached(c, fd, expectedMount)
    ensures fd.mount == expectedMount ==> OnlyThrough(c, expectedMount)
    ensures fs.quiet && IsTree(old(fs.dirs), expectedMount, fd.ino, keep, depth) ==>
              && outcome == OutcomeOf(old(fs.dirs), expectedMount, fd.ino, keep, depth)
              && IsPruned(old(fs.dirs), fs.dirs, expectedMount, fd.ino, keep, depth)
              && Framed(old(fs.dirs), fs.dirs, expectedMount, fd.ino, keep, depth)
    decreases depth, 4
  {
    outcome, c := RunEmptying(fs, fd, expectedMount, keep, depth);
    AnswersOfParts(old(fs.calls), c);
    DeletionsAreReached(c, fd, expectedMount, keep, depth, outcome);
    if fd.mount == expectedMount {
      EmptyingIsSafe(c, fd, expectedMount, keep, depth, outcome);
    }
    if fs.quiet && IsTree(old(fs.dirs), expectedMount, fd.ino, keep, depth) {
      ChainTail(old(fs.calls), c, fs.start, old(fs.dirs), fs.dirs);
      EmptyingIsExact(c, old(fs.dirs), fs.dirs, fd, expectedMount, keep, depth, outcome);
    }
  }

  method RunEmptying(fs: FileSystem, fd: Fd, expectedMount: nat, keep: set<string>, depth: nat)
    returns (outcome: Outcome, ghost c: seq<Call>)
    requires fs.Valid()
    modifies fs
    ensures fs.Valid() && fs.calls == old(fs.calls) + c
    ensures IsEmptying(c, fd, expectedMount, keep, depth, outcome)
    decreases depth, 3
  {
    if depth == 0 {
      return Overflow, [];
    }
    var held, names, fault, complete, hitLimit;
    ghost var fstat, scan, segs, rs;
    held, fstat := fs.Fstat(fd);
    names, fault, scan := fs.ScanDir(fd);
    complete, hitLimit, segs, rs := RemoveEntries(fs, fd, held.device, names, expectedMount, keep, depth);
    c := [fstat, scan] + Flatten(segs);
    assert c[2..] == Flatten(segs);
    if hitLimit {
      return Overflow, c;
    }
    if fault != Works {
      return Raised(fault), c;
    }
    return Returned(complete), c;
  }
}
