/**
 Which directories the post-job hook empties, and through which mounts, under any interference:
 `open_directory`, `clean_target` and the root selection of `main` in
 docker/runner-post-job-workspace-prune.py. Each is a predicate on its system calls, for every answer
 they may get; safety, and what happens on a quiet file system, are theorems about those calls.
 Paths are sequences of components below `/`, which the descriptor `root` has open.
 */
module PruneTargets {
  import opened Wrappers
  import opened FileSystems
  import opened PrunedTables
  import opened WorkspacePrune
  import opened Mountinfo

  type Path = seq<string>

  const WORK_ROOT: Path := ["home", "runner", "_work"]
  const CACHE_NAMES: seq<string> := ["_actions", "_temp", "_tool"]
  const TEMP_KEEP: set<string> := {"_runner_file_commands", "_github_workflow"}

  function Text(path: Path): string {
    if path == [] then "" else Text(path[..|path| - 1]) + "/" + path[|path| - 1]
  }

  // ----- Opening a path ----------------------------------------------------------------------------

  /** Every component opened relative to the one before, ending at `d`. */
  predicate LeadsTo(c: seq<Call>, fd: Fd, path: Path, d: Fd) {
    if c == [] then path == [] && d == fd
    else
      var n := |c| - 1;
      && |path| == n + 1 && c[n].OpenCall? && c[n].name == path[n] && c[n].child == Ok(d)
      && LeadsTo(c[..n], fd, path[..n], c[n].dir)
  }

  /** The same, or as far as the first component that does not open. */
  predicate IsWalk(c: seq<Call>, fd: Fd, path: Path, r: Result<Fd, Fault>) {
    if r.Ok? then LeadsTo(c, fd, path, r.value)
    else
      && 0 < |c| <= |path|
      && var n := |c| - 1;
      && c[n].OpenCall? && c[n].name == path[n] && c[n].child == r
      && LeadsTo(c[..n], fd, path[..n], c[n].dir)
  }

  /** `open_directory`. */
  method OpenDirectory(fs: FileSystem, root: Fd, path: Path) returns (r: Result<Fd, Fault>, ghost c: seq<Call>)
    requires fs.Valid()
    modifies fs
    ensures fs.Valid() && fs.calls == old(fs.calls) + c
    ensures IsWalk(c, root, path, r)
  {
    var fd := root;
    c := [];
    for i := 0 to |path|
      invariant fs.Valid() && fs.calls == old(fs.calls) + c
      invariant |c| == i && LeadsTo(c, root, path[..i], fd)
    {
      ghost var call;
      r, call := fs.Open(fd, path[i]);
      assert (c + [call])[..i] == c && path[..i + 1][..i] == path[..i];
      c := c + [call];
      if r.Err? {
        return;
      }
      fd := r.value;
    }
    assert path[..|path|] == path;
    return Ok(fd), c;
  }

  /** Where a path leads on a quiet file system. */
  function Walk(t: Table, fd: Fd, path: Path): Result<Fd, Fault> {
    if path == [] then Ok(fd)
    else
      var dir := Walk(t, fd, path[..|path| - 1]);
      if dir.Err? then dir else OpenOf(t, dir.value.ino, path[|path| - 1])
  }

  lemma {:induction false} LeadsToWalk(c: seq<Call>, t: Table, u: Table, fd: Fd, path: Path, d: Fd)
    requires LeadsTo(c, fd, path, d) && AllAnswer(c) && Chained(c, t, u)
    ensures u == t && Walk(t, fd, path) == Ok(d)
  {
    if c != [] {
      var n := |c| - 1;
      LeadsToWalk(c[..n], t, c[n].at, fd, path[..n], c[n].dir);
      assert Answers(c[n]);
    }
  }

  lemma {:induction false} WalkStopsEarly(t: Table, fd: Fd, path: Path, n: nat)
    requires n <= |path| && Walk(t, fd, path[..n]).Err?
    ensures Walk(t, fd, path) == Walk(t, fd, path[..n])
  {
    if n == |path| {
      assert path[..n] == path;
    } else {
      assert path[..|path| - 1][..n] == path[..n];
      WalkStopsEarly(t, fd, path[..|path| - 1], n);
    }
  }

  lemma {:induction false} WalkIsExact(c: seq<Call>, t: Table, u: Table, fd: Fd, path: Path, r: Result<Fd, Fault>)
    requires IsWalk(c, fd, path, r) && AllAnswer(c) && Chained(c, t, u)
    ensures u == t && r == Walk(t, fd, path)
  {
    if r.Ok? {
      LeadsToWalk(c, t, u, fd, path, r.value);
    } else {
      var n := |c| - 1;
      LeadsToWalk(c[..n], t, c[n].at, fd, path[..n], c[n].dir);
      assert Answers(c[n]) && path[..n + 1][..n] == path[..n];
      WalkStopsEarly(t, fd, path, n + 1);
    }
  }

  lemma {:induction false} WalkDeletesNothing(c: seq<Call>, fd: Fd, path: Path, r: Result<Fd, Fault>)
    requires IsWalk(c, fd, path, r)
    ensures DeletesNothing(c)
    decreases |c|
  {
    if c != [] {
      WalkDeletesNothing(c[..|c| - 1], fd, path[..|c| - 1], Ok(c[|c| - 1].dir));
    }
  }

  // ----- Cleaning one target -------------------------------------------------------------------------

  datatype Target = Target(path: Path, cache: bool, keep: set<string>)

  /** The mount entry a cache root may be emptied through: its own fresh tmpfs, whole. */
  function FreshTmpfs(path: Path): MountPoint {
    MountPoint(Text(path), "tmpfs", "/")
  }

  predicate IsAccepted(mount: nat, tg: Target, mounts: map<int, MountPoint>, workMount: nat) {
    mount == workMount || (tg.cache && mount in mounts && mounts[mount] == FreshTmpfs(tg.path))
  }

  /** A run of `clean_target`. */
  ghost predicate IsCleaning(c: seq<Call>, root: Fd, tg: Target, mounts: map<int, MountPoint>, workMount: nat, depth: nat,
                             out: Outcome)
  {
    exists walk, rest, dir ::
      && c == walk + rest && IsWalk(walk, root, tg.path, dir)
      && IsCleaningOf(rest, dir, tg, mounts, workMount, depth, out)
  }

  /** What follows the opening: the mount is read, and if it is accepted the directory is emptied. */
  ghost predicate IsCleaningOf(c: seq<Call>, dir: Result<Fd, Fault>, tg: Target, mounts: map<int, MountPoint>,
                               workMount: nat, depth: nat, out: Outcome)
  {
    if dir.Err? then c == [] && out == Returned(dir.error == Missing)
    else
      && c != [] && c[0].MountIdCall? && c[0].fd == dir.value
      && var mount := c[0].mount;
      if mount.Err? then |c| == 1 && out == Returned(mount.error == Missing)
      else if !IsAccepted(mount.value, tg, mounts, workMount) then |c| == 1 && out == Returned(false)
      else exists inner ::
             IsEmptying(c[1..], dir.value, mount.value, tg.keep, depth, inner) && out == Caught(inner)
  }

  /** `FileNotFoundError` means there was nothing to clean, any other `OSError` that it is not clean. */
  function Caught(o: Outcome): Outcome {
    if o.Raised? then Returned(o.fault == Missing) else o
  }

  /**
   Nothing is deleted, or only what is reached from a descriptor that the target's path led to, and
   only through its mount, which is an accepted one.
   */
  ghost predicate IsSafe(c: seq<Call>, root: Fd, tg: Target, mounts: map<int, MountPoint>, workMount: nat) {
    DeletesNothing(c)
    || exists walk, rest, fd ::
         && c == walk + rest && LeadsTo(walk, root, tg.path, fd) && DeletesNothing(walk)
         && IsSafeOf(rest, fd, tg, mounts, workMount)
  }

  predicate DeletesNothing(c: seq<Call>) {
    forall i :: 0 <= i < |c| ==> !c[i].IsDeletion()
  }

  ghost predicate IsSafeOf(c: seq<Call>, fd: Fd, tg: Target, mounts: map<int, MountPoint>, workMount: nat) {
    IsAccepted(fd.mount, tg, mounts, workMount) && AllReached(c, fd, fd.mount) && OnlyThrough(c, fd.mount)
  }

  lemma {:induction false} CleaningOfIsSafe(
    c: seq<Call>, dir: Result<Fd, Fault>, tg: Target, mounts: map<int, MountPoint>, workMount: nat, depth: nat, out: Outcome)
    requires IsCleaningOf(c, dir, tg, mounts, workMount, depth, out) && AllAnswer(c)
    ensures DeletesNothing(c) || (dir.Ok? && IsSafeOf(c, dir.value, tg, mounts, workMount))
  {
    if dir.Ok? && |c| >= 1 && c[0].mount.Ok? && IsAccepted(c[0].mount.value, tg, mounts, workMount) {
      var fd := dir.value;
      assert Answers(c[0]) && c[0].mount.value == fd.mount;
      var inner :| IsEmptying(c[1..], fd, fd.mount, tg.keep, depth, inner);
      assert [c[0]] + c[1..] == c;
      AnswersOfParts([c[0]], c[1..]);
      DeletionsAreReached(c[1..], fd, fd.mount, tg.keep, depth, inner);
      EmptyingIsSafe(c[1..], fd, fd.mount, tg.keep, depth, inner);
      AllReachedWithin([c[0]], c[1..], [], fd, fd.mount, fd);
      assert [c[0]] + c[1..] + [] == c;
    }
  }

  lemma {:induction false} CleaningIsSafe(
    c: seq<Call>, root: Fd, tg: Target, mounts: map<int, MountPoint>, workMount: nat, depth: nat, out: Outcome)
    requires IsCleaning(c, root, tg, mounts, workMount, depth, out) && AllAnswer(c)
    ensures IsSafe(c, root, tg, mounts, workMount)
  {
    var walk, rest, dir :|
      c == walk + rest && IsWalk(walk, root, tg.path, dir) && IsCleaningOf(rest, dir, tg, mounts, workMount, depth, out);
    AnswersOfParts(walk, rest);
    WalkDeletesNothing(walk, root, tg.path, dir);
    CleaningOfIsSafe(rest, dir, tg, mounts, workMount, depth, out);
  }

  /** The target may be emptied: it is there, its mount can be read, and it is an accepted one. */
  predicate MayEmpty(t: Table, root: Fd, tg: Target, mounts: map<int, MountPoint>, workMount: nat) {
    && Walk(t, root, tg.path).Ok?
    && Walk(t, root, tg.path).value.fdinfo == Works
    && IsAccepted(Walk(t, root, tg.path).value.mount, tg, mounts, workMount)
  }

  /** A target that may be emptied is a tree that fits the recursion limit. */
  ghost predicate IsTreeTarget(t: Table, root: Fd, tg: Target, mounts: map<int, MountPoint>, workMount: nat, depth: nat) {
    MayEmpty(t, root, tg, mounts, workMount) ==>
      IsTree(t, Walk(t, root, tg.path).value.mount, Walk(t, root, tg.path).value.ino, tg.keep, depth)
  }

  /** True iff the target is not found, or it may be emptied and its prune is complete. */
  ghost predicate IsClean(t: Table, root: Fd, tg: Target, mounts: map<int, MountPoint>, workMount: nat, depth: nat)
    requires IsTreeTarget(t, root, tg, mounts, workMount, depth)
  {
    match Walk(t, root, tg.path)
    case Err(fault) => fault == Missing
    case Ok(fd) =>
      || fd.fdinfo == Missing
      || (MayEmpty(t, root, tg, mounts, workMount)
          && Caught(OutcomeOf(t, fd.mount, fd.ino, tg.keep, depth)) == Returned(true))
  }

  /** The target is pruned, and nothing beyond its reach has changed; or nothing has. */
  ghost predicate IsCleaned(
    t: Table, u: Table, root: Fd, tg: Target, mounts: map<int, MountPoint>, workMount: nat, depth: nat)
  {
    if MayEmpty(t, root, tg, mounts, workMount)
    then
      var fd := Walk(t, root, tg.path).value;
      IsPruned(t, u, fd.mount, fd.ino, tg.keep, depth) && Framed(t, u, fd.mount, fd.ino, tg.keep, depth)
    else u == t
  }

  lemma {:induction false} CleaningOfIsExact(
    c: seq<Call>, t: Table, u: Table, root: Fd, tg: Target, mounts: map<int, MountPoint>, workMount: nat, depth: nat,
    out: Outcome)
    requires IsCleaningOf(c, Walk(t, root, tg.path), tg, mounts, workMount, depth, out) && AllAnswer(c) && Chained(c, t, u)
    requires IsTreeTarget(t, root, tg, mounts, workMount, depth)
    ensures out == Returned(IsClean(t, root, tg, mounts, workMount, depth))
    ensures IsCleaned(t, u, root, tg, mounts, workMount, depth)
  {
    var dir := Walk(t, root, tg.path);
    if dir.Ok? {
      ChainHead(c, t, u);
      assert Answers(c[0]);
      if MayEmpty(t, root, tg, mounts, workMount) {
        EmptiedIsExact(c, t, u, dir.value, tg.keep, depth, out);
      } else {
        assert c[1..] == [];
      }
    }
  }

  lemma {:induction false} EmptiedIsExact(
    c: seq<Call>, t: Table, u: Table, fd: Fd, keep: set<string>, depth: nat, out: Outcome)
    requires c != [] && AllAnswer(c) && Chained(c[1..], t, u) && IsTree(t, fd.mount, fd.ino, keep, depth)
    requires exists inner :: IsEmptying(c[1..], fd, fd.mount, keep, depth, inner) && out == Caught(inner)
    ensures out == Caught(OutcomeOf(t, fd.mount, fd.ino, keep, depth)) && !out.Overflow?
    ensures IsPruned(t, u, fd.mount, fd.ino, keep, depth) && Framed(t, u, fd.mount, fd.ino, keep, depth)
  {
    var inner :| IsEmptying(c[1..], fd, fd.mount, keep, depth, inner) && out == Caught(inner);
    assert [c[0]] + c[1..] == c;
    AnswersOfParts([c[0]], c[1..]);
    EmptyingIsExact(c[1..], t, u, fd, fd.mount, keep, depth, inner);
  }

  lemma {:induction false} CleaningIsExact(
    c: seq<Call>, t: Table, u: Table, root: Fd, tg: Target, mounts: map<int, MountPoint>, workMount: nat, depth: nat,
    out: Outcome)
    requires IsCleaning(c, root, tg, mounts, workMount, depth, out) && AllAnswer(c) && Chained(c, t, u)
    requires IsTreeTarget(t, root, tg, mounts, workMount, depth)
    ensures out == Returned(IsClean(t, root, tg, mounts, workMount, depth))
    ensures IsCleaned(t, u, root, tg, mounts, workMount, depth)
  {
    var walk, rest, dir :|
      c == walk + rest && IsWalk(walk, root, tg.path, dir) && IsCleaningOf(rest, dir, tg, mounts, workMount, depth, out);
    AnswersOfParts(walk, rest);
    var m := ChainSplit(walk, rest, t, u);
    WalkIsExact(walk, t, m, root, tg.path, dir);
    CleaningOfIsExact(rest, t, u, root, tg, mounts, workMount, depth, out);
  }

  /** `clean_target`; `Overflow` is a `RecursionError`, which it lets through. */
  method CleanTarget(fs: FileSystem, root: Fd, tg: Target, mounts: map<int, MountPoint>, workMount: nat, depth: nat)
    returns (out: Outcome, ghost c: seq<Call>)
    requires fs.Valid()
    modifies fs
    ensures fs.Valid() && fs.calls == old(fs.calls) + c && !out.Raised?
    ensures IsCleaning(c, root, tg, mounts, workMount, depth, out)
    ensures IsSafe(c, root, tg, mounts, workMount)
    ensures fs.quiet && IsTreeTarget(old(fs.dirs), root, tg, mounts, workMount, depth) ==>
              && out == Returned(IsClean(old(fs.dirs), root, tg, mounts, workMount, depth))
              && IsCleaned(old(fs.dirs), fs.dirs, root, tg, mounts, workMount, depth)
  {
    out, c := RunCleaning(fs, root, tg, mounts, workMount, depth);
    AnswersOfParts(old(fs.calls), c);
    CleaningIsSafe(c, root, tg, mounts, workMount, depth, out);
    if fs.quiet && IsTreeTarget(old(fs.dirs), root, tg, mounts, workMount, depth) {
      ChainTail(old(fs.calls), c, fs.start, old(fs.dirs), fs.dirs);
      CleaningIsExact(c, old(fs.dirs), fs.dirs, root, tg, mounts, workMount, depth, out);
    }
  }

  method RunCleaning(fs: FileSystem, root: Fd, tg: Target, mounts: map<int, MountPoint>, workMount: nat, depth: nat)
    returns (out: Outcome, ghost c: seq<Call>)
    requires fs.Valid()
    modifies fs
    ensures fs.Valid() && fs.calls == old(fs.calls) + c && !out.Raised?
    ensures IsCleaning(c, root, tg, mounts, workMount, depth, out)
  {
    var dir;
    ghost var walk, rest;
    dir, walk := OpenDirectory(fs, root, tg.path);
    out, rest := CleanOpened(fs, dir, tg, mounts, workMount, depth);
    c := walk + rest;
  }

  method CleanOpened(
    fs: FileSystem, dir: Result<Fd, Fault>, tg: Target, mounts: map<int, MountPoint>, workMount: nat, depth: nat)
    returns (out: Outcome, ghost c: seq<Call>)
    requires fs.Valid()
    modifies fs
    ensures fs.Valid() && fs.calls == old(fs.calls) + c && !out.Raised?
    ensures IsCleaningOf(c, dir, tg, mounts, workMount, depth, out)
  {
    if dir.Err? {
      return Returned(dir.error == Missing), [];
    }
    var mount, inner;
    ghost var call, rest;
    mount, call := fs.MountId(dir.value);
    if mount.Err? {
      return Returned(mount.error == Missing), [call];
    }
    if mount.value != workMount && !(tg.cache && mount.value in mounts && mounts[mount.value] == FreshTmpfs(tg.path)) {
      return Returned(false), [call];
    }
    inner, rest := EmptyDirectory(fs, dir.value, mount.value, tg.keep, depth);
    c := [call] + rest;
    assert c[1..] == rest;
    return Caught(inner), c;
  }

  // ----- Pinning the work mount ------------------------------------------------------------------------

  /** What `mount_points` makes of the table's text. */
  function ReadFrom(text: Result<string, Fault>): Snapshot {
    if text.Err? then Err(Unreadable) else ReadTable(text.value)
  }

  /**
   The first half of `main`: open the work root, read its mount, only then read the mount table, match
   the two, and see that the workspace can be opened.
   */
  ghost predicate IsPinning(c: seq<Call>, root: Fd, repo: Option<string>, read: Snapshot, pinned: Option<nat>) {
    if repo.None? then c == [] && pinned == None
    else exists walk, rest, work ::
           && c == walk + rest && IsWalk(walk, root, WORK_ROOT, work)
           && IsPinningOf(rest, work, root, WorkspaceOf(repo.value), read, pinned)
  }

  ghost predicate IsPinningOf(
    c: seq<Call>, work: Result<Fd, Fault>, root: Fd, path: Path, read: Snapshot, pinned: Option<nat>)
  {
    if work.Err? then c == [] && pinned == None
    else
      && c != [] && c[0].MountIdCall? && c[0].fd == work.value
      && if c[0].mount.Err? then |c| == 1 && pinned == None
         else IsMatching(c[1..], c[0].mount.value, root, path, read, pinned)
  }

  /** The checkout that `job_workspace` names. */
  function WorkspaceOf(repo: string): Path {
    WORK_ROOT + [repo, repo]
  }

  /** The mount table is read and knows the mount, and the workspace can be opened. */
  ghost predicate IsMatching(c: seq<Call>, mount: nat, root: Fd, path: Path, read: Snapshot, pinned: Option<nat>) {
    && c != [] && c[0].TableCall? && read == ReadFrom(c[0].text)
    && if read.Err? || mount !in read.value then |c| == 1 && pinned == None
       else IsLastCheck(c[1..], root, path, mount, pinned)
  }

  ghost predicate IsLastCheck(c: seq<Call>, root: Fd, path: Path, mount: nat, pinned: Option<nat>) {
    exists workspace ::
      IsWalk(c, root, path, workspace) && pinned == if workspace.Ok? then Some(mount) else None
  }

  /**
   The pinned mount is the one the work root was opened through, read before the mount table was, and
   the table knows it.
   */
  ghost predicate IsPinned(c: seq<Call>, root: Fd, read: Snapshot, mount: nat) {
    && read.Ok? && mount in read.value
    && exists walk: seq<Call>, rest: seq<Call>, fd ::
         && c == walk + rest && LeadsTo(walk, root, WORK_ROOT, fd) && fd.fdinfo == Works && fd.mount == mount
         && |rest| >= 2 && rest[0].MountIdCall? && rest[0].fd == fd
         && rest[1].TableCall? && read == ReadFrom(rest[1].text)
  }

  lemma {:induction false} MatchingIsSafe(
    c: seq<Call>, mount: nat, root: Fd, path: Path, read: Snapshot, pinned: Option<nat>)
    requires IsMatching(c, mount, root, path, read, pinned)
    ensures DeletesNothing(c)
    ensures pinned.Some? ==> read.Ok? && pinned.value == mount && mount in read.value
  {
    if read.Ok? && mount in read.value {
      var workspace :| IsWalk(c[1..], root, path, workspace)
                       && pinned == if workspace.Ok? then Some(mount) else None;
      WalkDeletesNothing(c[1..], root, path, workspace);
      assert [c[0]] + c[1..] == c;
    }
  }

  lemma {:induction false} PinningOfIsSafe(
    c: seq<Call>, work: Result<Fd, Fault>, root: Fd, path: Path, read: Snapshot, pinned: Option<nat>)
    requires IsPinningOf(c, work, root, path, read, pinned) && AllAnswer(c)
    ensures DeletesNothing(c)
    ensures pinned.Some? ==>
              && work.Ok? && read.Ok? && MountOf(work.value) == Ok(pinned.value) && pinned.value in read.value
              && |c| >= 2 && c[0].MountIdCall? && c[0].fd == work.value
              && c[1].TableCall? && read == ReadFrom(c[1].text)
  {
    if work.Ok? {
      assert Answers(c[0]);
      if c[0].mount.Ok? {
        MatchingIsSafe(c[1..], c[0].mount.value, root, path, read, pinned);
        assert [c[0]] + c[1..] == c && c[1..][0] == c[1];
      }
    }
  }

  lemma {:induction false} PinningIsSafe(c: seq<Call>, root: Fd, repo: Option<string>, read: Snapshot, pinned: Option<nat>)
    requires IsPinning(c, root, repo, read, pinned) && AllAnswer(c)
    ensures DeletesNothing(c)
    ensures pinned.Some? ==> repo.Some? && IsPinned(c, root, read, pinned.value)
  {
    if repo.Some? {
      var walk, rest, work :| c == walk + rest && IsWalk(walk, root, WORK_ROOT, work)
                              && IsPinningOf(rest, work, root, WorkspaceOf(repo.value), read, pinned);
      AnswersOfParts(walk, rest);
      WalkDeletesNothing(walk, root, WORK_ROOT, work);
      PinningOfIsSafe(rest, work, root, WorkspaceOf(repo.value), read, pinned);
    }
  }

  /** What is pinned on a quiet file system. */
  function QuietPin(t: Table, root: Fd, repo: Option<string>, read: Snapshot): Option<nat> {
    if repo.None? || Walk(t, root, WORK_ROOT).Err? || read.Err? then None
    else
      var mount := MountOf(Walk(t, root, WORK_ROOT).value);
      if mount.Err? || mount.value !in read.value || Walk(t, root, WorkspaceOf(repo.value)).Err? then None
      else Some(mount.value)
  }

  lemma {:induction false} MatchingIsExact(
    c: seq<Call>, t: Table, u: Table, mount: nat, root: Fd, path: Path, read: Snapshot, pinned: Option<nat>)
    requires IsMatching(c, mount, root, path, read, pinned) && AllAnswer(c) && Chained(c, t, u)
    ensures u == t
    ensures pinned == if read.Err? || mount !in read.value || Walk(t, root, path).Err? then None
                      else Some(mount)
  {
    ChainHead(c, t, u);
    assert [c[0]] + c[1..] == c;
    AnswersOfParts([c[0]], c[1..]);
    if read.Ok? && mount in read.value {
      var workspace :| IsWalk(c[1..], root, path, workspace)
                       && pinned == if workspace.Ok? then Some(mount) else None;
      WalkIsExact(c[1..], t, u, root, path, workspace);
    } else {
      assert c[1..] == [];
    }
  }

  lemma {:induction false} PinningOfIsExact(
    c: seq<Call>, t: Table, u: Table, root: Fd, repo: string, read: Snapshot, pinned: Option<nat>)
    requires IsPinningOf(c, Walk(t, root, WORK_ROOT), root, WorkspaceOf(repo), read, pinned) && AllAnswer(c) && Chained(c, t, u)
    ensures u == t && pinned == QuietPin(t, root, Some(repo), read)
  {
    if Walk(t, root, WORK_ROOT).Ok? {
      ChainHead(c, t, u);
      assert Answers(c[0]) && [c[0]] + c[1..] == c;
      AnswersOfParts([c[0]], c[1..]);
      if c[0].mount.Err? {
        assert c[1..] == [];
      } else {
        MatchingIsExact(c[1..], t, u, c[0].mount.value, root, WorkspaceOf(repo), read, pinned);
      }
    }
  }

  lemma {:induction false} PinningIsExact(
    c: seq<Call>, t: Table, u: Table, root: Fd, repo: Option<string>, read: Snapshot, pinned: Option<nat>)
    requires IsPinning(c, root, repo, read, pinned) && AllAnswer(c) && Chained(c, t, u)
    ensures u == t && pinned == QuietPin(t, root, repo, read)
  {
    if repo.Some? {
      var walk, rest, work :| c == walk + rest && IsWalk(walk, root, WORK_ROOT, work)
                              && IsPinningOf(rest, work, root, WorkspaceOf(repo.value), read, pinned);
      AnswersOfParts(walk, rest);
      var m := ChainSplit(walk, rest, t, u);
      WalkIsExact(walk, t, m, root, WORK_ROOT, work);
      PinningOfIsExact(rest, t, u, root, repo.value, read, pinned);
    }
  }

  method PinWorkMount(fs: FileSystem, root: Fd, repo: Option<string>)
    returns (pinned: Option<nat>, read: Snapshot, ghost c: seq<Call>)
    requires fs.Valid()
    modifies fs
    ensures fs.Valid() && fs.calls == old(fs.calls) + c
    ensures IsPinning(c, root, repo, read, pinned)
    ensures pinned.Some? ==> repo.Some? && IsPinned(c, root, read, pinned.value)
  {
    if repo.None? {
      return None, Err(Unreadable), [];
    }
    var work;
    ghost var walk, rest;
    work, walk := OpenDirectory(fs, root, WORK_ROOT);
    pinned, read, rest := PinOpened(fs, work, root, WorkspaceOf(repo.value));
    c := walk + rest;
    Regroup(old(fs.calls), walk, rest);
    AnswersOfParts(old(fs.calls), c);
    PinningIsSafe(c, root, repo, read, pinned);
  }

  lemma PinningAfterMount(
    call: Call, rest: seq<Call>, fd: Fd, root: Fd, path: Path, read: Snapshot, pinned: Option<nat>)
    requires call.MountIdCall? && call.fd == fd && call.mount.Ok?
    requires IsMatching(rest, call.mount.value, root, path, read, pinned)
    ensures IsPinningOf([call] + rest, Ok(fd), root, path, read, pinned)
  {
    assert ([call] + rest)[1..] == rest;
  }

  method PinOpened(fs: FileSystem, work: Result<Fd, Fault>, root: Fd, path: Path)
    returns (pinned: Option<nat>, read: Snapshot, ghost c: seq<Call>)
    requires fs.Valid()
    modifies fs
    ensures fs.Valid() && fs.calls == old(fs.calls) + c
    ensures IsPinningOf(c, work, root, path, read, pinned)
  {
    read := Err(Unreadable);
    if work.Err? {
      return None, read, [];
    }
    var mount;
    ghost var call, rest;
    mount, call := fs.MountId(work.value);
    if mount.Err? {
      return None, read, [call];
    }
    pinned, read, rest := MatchTable(fs, mount.value, root, path);
    PinningAfterMount(call, rest, work.value, root, path, read, pinned);
    Regroup(old(fs.calls), [call], rest);
    c := [call] + rest;
  }

  lemma MatchingAfterTable(
    call: Call, walk: seq<Call>, mount: nat, root: Fd, path: Path, read: Snapshot, workspace: Result<Fd, Fault>)
    requires call.TableCall? && read == ReadFrom(call.text) && read.Ok? && mount in read.value
    requires IsWalk(walk, root, path, workspace)
    ensures IsMatching([call] + walk, mount, root, path, read, if workspace.Ok? then Some(mount) else None)
  {
    assert ([call] + walk)[1..] == walk;
  }

  method MatchTable(fs: FileSystem, mount: nat, root: Fd, path: Path)
    returns (pinned: Option<nat>, read: Snapshot, ghost c: seq<Call>)
    requires fs.Valid()
    modifies fs
    ensures fs.Valid() && fs.calls == old(fs.calls) + c
    ensures IsMatching(c, mount, root, path, read, pinned)
  {
    var text, workspace;
    ghost var call, walk;
    text, call := fs.ReadMountinfo();
    if text.Err? {
      return None, Err(Unreadable), [call];
    }
    read := MountPoints(text.value);
    if read.Err? || mount !in read.value {
      return None, read, [call];
    }
    workspace, walk := OpenDirectory(fs, root, path);
    MatchingAfterTable(call, walk, mount, root, path, read, workspace);
    Regroup(old(fs.calls), [call], walk);
    c := [call] + walk;
    pinned := if workspace.Ok? then Some(mount) else None;
  }

  // ----- The hook ------------------------------------------------------------------------------------------

  datatype Status = Unverified | Completed | Partial | Interrupted

  /** The pipeline directory of the repository, then the caches; a tool cache elsewhere is left alone. */
  function Targets(repo: string, toolCacheIsDefault: bool): seq<Target> {
    [Target(WORK_ROOT + [repo], false, {}),
     Target(WORK_ROOT + ["_actions"], true, {}),
     Target(WORK_ROOT + ["_temp"], true, TEMP_KEEP)]
    + if toolCacheIsDefault then [Target(WORK_ROOT + ["_tool"], true, {})] else []
  }

  predicate IsInterrupted(outs: seq<Outcome>) {
    outs != [] && outs[|outs| - 1].Overflow?
  }

  predicate AllTrue(outs: seq<Outcome>) {
    forall k :: 0 <= k < |outs| ==> outs[k] == Returned(true)
  }

  function StatusOf(outs: seq<Outcome>, toolCacheIsDefault: bool): Status {
    if IsInterrupted(outs) then Interrupted else if toolCacheIsDefault && AllTrue(outs) then Completed else Partial
  }

  /** The first targets cleaned, each by its own run, none of them interrupted but perhaps the last. */
  ghost predicate AreCleanings(segs: seq<seq<Call>>, outs: seq<Outcome>, targets: seq<Target>, root: Fd,
                               mounts: map<int, MountPoint>, workMount: nat, depth: nat)
  {
    && |segs| == |outs| <= |targets|
    && (forall k :: 0 <= k < |outs| ==> IsCleaning(segs[k], root, targets[k], mounts, workMount, depth, outs[k]))
    && (forall k :: 0 <= k < |outs| - 1 ==> !outs[k].Overflow?)
  }

  /** A run of `main`: what was pinned, and if anything, every target cleaned in order up to an interruption. */
  ghost predicate IsHook(pin: seq<Call>, pinned: Option<nat>, segs: seq<seq<Call>>, outs: seq<Outcome>, root: Fd,
                         repo: Option<string>, read: Snapshot, toolCacheIsDefault: bool,
                         depth: nat, status: Status)
  {
    && IsPinning(pin, root, repo, read, pinned)
    && if pinned.None? || repo.None? || read.Err? then pinned.None? && segs == [] && outs == [] && status == Unverified
       else
         var targets := Targets(repo.value, toolCacheIsDefault);
         && AreCleanings(segs, outs, targets, root, read.value, pinned.value, depth)
         && (IsInterrupted(outs) || |outs| == |targets|)
         && status == StatusOf(outs, toolCacheIsDefault)
  }

  /** Nothing is deleted while pinning, and then only safely, through the mount pinned or the cache's own tmpfs. */
  ghost predicate IsSafeHook(pin: seq<Call>, pinned: Option<nat>, segs: seq<seq<Call>>, root: Fd, repo: Option<string>,
                             read: Snapshot, toolCacheIsDefault: bool)
  {
    && DeletesNothing(pin)
    && (pinned.None? ==> segs == [])
    && (pinned.Some? ==>
          && repo.Some? && IsPinned(pin, root, read, pinned.value)
          && var targets := Targets(repo.value, toolCacheIsDefault);
          && |segs| <= |targets|
          && forall k :: 0 <= k < |segs| ==> IsSafe(segs[k], root, targets[k], read.value, pinned.value))
  }

  lemma {:induction false} HookIsSafe(
    pin: seq<Call>, pinned: Option<nat>, segs: seq<seq<Call>>, outs: seq<Outcome>, root: Fd, repo: Option<string>,
    read: Snapshot, toolCacheIsDefault: bool, depth: nat, status: Status)
    requires IsHook(pin, pinned, segs, outs, root, repo, read, toolCacheIsDefault, depth, status)
    requires AllAnswer(pin) && AllAnswer(Flatten(segs))
    ensures IsSafeHook(pin, pinned, segs, root, repo, read, toolCacheIsDefault)
  {
    PinningIsSafe(pin, root, repo, read, pinned);
    if pinned.Some? {
      FlattenAnswers(segs);
      var targets := Targets(repo.value, toolCacheIsDefault);
      forall k | 0 <= k < |segs| ensures IsSafe(segs[k], root, targets[k], read.value, pinned.value) {
        CleaningIsSafe(segs[k], root, targets[k], read.value, pinned.value, depth, outs[k]);
      }
    }
  }

  lemma {:induction false} OneMoreCleaning(
    segs: seq<seq<Call>>, outs: seq<Outcome>, targets: seq<Target>, root: Fd, mounts: map<int, MountPoint>,
    workMount: nat, depth: nat, seg: seq<Call>, out: Outcome)
    requires AreCleanings(segs, outs, targets, root, mounts, workMount, depth)
    requires !IsInterrupted(outs) && |outs| < |targets|
    requires IsCleaning(seg, root, targets[|outs|], mounts, workMount, depth, out)
    ensures AreCleanings(segs + [seg], outs + [out], targets, root, mounts, workMount, depth)
    ensures Flatten(segs + [seg]) == Flatten(segs) + seg
    ensures AllTrue(outs + [out]) <==> AllTrue(outs) && out == Returned(true)
  {
    assert (segs + [seg])[..|segs|] == segs;
    var more := outs + [out];
    assert more[|outs|] == out;
    assert forall k :: 0 <= k < |outs| ==> more[k] == outs[k];
  }

  /** One turn of the second half of `main`. */
  method CleanNext(fs: FileSystem, root: Fd, tg: Target, mounts: map<int, MountPoint>, workMount: nat, depth: nat,
                   ghost targets: seq<Target>, ghost before: seq<Call>, ghost segs: seq<seq<Call>>, ghost outs: seq<Outcome>)
    returns (out: Outcome, ghost segs': seq<seq<Call>>, ghost outs': seq<Outcome>)
    requires fs.Valid() && fs.calls == before + Flatten(segs)
    requires AreCleanings(segs, outs, targets, root, mounts, workMount, depth)
    requires !IsInterrupted(outs) && |outs| < |targets| && tg == targets[|outs|]
    modifies fs
    ensures fs.Valid() && fs.calls == before + Flatten(segs')
    ensures AreCleanings(segs', outs', targets, root, mounts, workMount, depth)
    ensures outs' == outs + [out] && !out.Raised? && (IsInterrupted(outs') <==> out.Overflow?)
    ensures AllTrue(outs') <==> AllTrue(outs) && out == Returned(true)
  {
    ghost var seg;
    out, seg := RunCleaning(fs, root, tg, mounts, workMount, depth);
    OneMoreCleaning(segs, outs, targets, root, mounts, workMount, depth, seg, out);
    segs', outs' := segs + [seg], outs + [out];
    Regroup(before, Flatten(segs), seg);
  }

  lemma Regroup(a: seq<Call>, b: seq<Call>, c: seq<Call>)
    ensures (a + b) + c == a + (b + c)
  {
  }

  lemma CacheTarget(repo: string, toolCacheIsDefault: bool, i: nat)
    requires i < 2 || (i == 2 && toolCacheIsDefault)
    ensures |Targets(repo, toolCacheIsDefault)| > 1 + i
    ensures Targets(repo, toolCacheIsDefault)[1 + i]
            == Target(WORK_ROOT + [CACHE_NAMES[i]], true, if CACHE_NAMES[i] == "_temp" then TEMP_KEEP else {})
  {
  }

  /** The second half of `main`. */
  method CleanTargets(fs: FileSystem, root: Fd, repo: string, mounts: map<int, MountPoint>, workMount: nat,
                      toolCacheIsDefault: bool, depth: nat)
    returns (status: Status, ghost segs: seq<seq<Call>>, ghost outs: seq<Outcome>)
    requires fs.Valid()
    modifies fs
    ensures fs.Valid() && fs.calls == old(fs.calls) + Flatten(segs)
    ensures AreCleanings(segs, outs, Targets(repo, toolCacheIsDefault), root, mounts, workMount, depth)
    ensures IsInterrupted(outs) || |outs| == |Targets(repo, toolCacheIsDefault)|
    ensures status == StatusOf(outs, toolCacheIsDefault)
  {
    ghost var targets := Targets(repo, toolCacheIsDefault);
    ghost var before := fs.calls;
    assert before + Flatten([]) == before;
    var out;
    out, segs, outs := CleanNext(fs, root, Target(WORK_ROOT + [repo], false, {}), mounts, workMount, depth,
                                 targets, before, [], []);
    if out.Overflow? {
      return Interrupted, segs, outs;
    }
    var complete := out.complete;
    for i := 0 to |CACHE_NAMES|
      invariant fs.Valid() && fs.calls == before + Flatten(segs)
      invariant AreCleanings(segs, outs, targets, root, mounts, workMount, depth) && !IsInterrupted(outs)
      invariant |outs| == if i < 3 || toolCacheIsDefault then 1 + i else 3
      invariant complete <==> (i < 3 || toolCacheIsDefault) && AllTrue(outs)
    {
      var name := CACHE_NAMES[i];
      assert name == "_tool" <==> i == 2;
      if name == "_tool" && !toolCacheIsDefault {
        complete := false;
        continue;
      }
      var tg := Target(WORK_ROOT + [name], true, if name == "_temp" then TEMP_KEEP else {});
      CacheTarget(repo, toolCacheIsDefault, i);
      out, segs, outs := CleanNext(fs, root, tg, mounts, workMount, depth, targets, before, segs, outs);
      if out.Overflow? {
        return Interrupted, segs, outs;
      }
      complete := out.complete && complete;
    }
    status := if complete then Completed else Partial;
  }

  // ----- The hook on a quiet file system ---------------------------------------------------------------------

  /** A directory to be emptied. */
  datatype Job = Job(fd: Fd, keep: set<string>)

  function JobOf(t: Table, root: Fd, tg: Target, mounts: map<int, MountPoint>, workMount: nat): Option<Job> {
    if MayEmpty(t, root, tg, mounts, workMount) then Some(Job(Walk(t, root, tg.path).value, tg.keep)) else None
  }

  function JobsOf(t: Table, root: Fd, targets: seq<Target>, mounts: map<int, MountPoint>, workMount: nat): (jobs: seq<Option<Job>>)
    ensures |jobs| == |targets|
    ensures forall k :: 0 <= k < |jobs| ==> jobs[k] == JobOf(t, root, targets[k], mounts, workMount)
  {
    if targets == [] then []
    else JobsOf(t, root, targets[..|targets| - 1], mounts, workMount)
         + [JobOf(t, root, targets[|targets| - 1], mounts, workMount)]
  }

  /** Directory `d` may be changed by the job. */
  ghost predicate Touches(t: Table, job: Option<Job>, depth: nat, d: nat) {
    job.Some? && InReach(t, job.value.fd.mount, job.value.fd.ino, job.value.keep, depth, d)
  }

  ghost predicate IsTreeJob(t: Table, job: Option<Job>, depth: nat) {
    job.Some? ==> IsTree(t, job.value.fd.mount, job.value.fd.ino, job.value.keep, depth)
  }

  ghost predicate IsDone(t: Table, w: Table, job: Option<Job>, depth: nat) {
    job.Some? ==> IsPruned(t, w, job.value.fd.mount, job.value.fd.ino, job.value.keep, depth)
  }

  ghost predicate AreApart(t: Table, a: Option<Job>, b: Option<Job>, depth: nat) {
    forall d :: Touches(t, a, depth, d) ==> !Touches(t, b, depth, d)
  }

  ghost predicate Untouched(t: Table, jobs: seq<Option<Job>>, n: nat, depth: nat, d: nat)
    requires n <= |jobs|
  {
    forall j :: 0 <= j < n ==> !Touches(t, jobs[j], depth, d)
  }

  /** After `n` jobs: each is done as the original table says, and nothing else has changed. */
  ghost predicate AfterJobs(t: Table, w: Table, jobs: seq<Option<Job>>, n: nat, depth: nat)
    requires n <= |jobs|
  {
    && SameShape(t, w)
    && (forall j :: 0 <= j < n ==> IsDone(t, w, jobs[j], depth))
    && (forall d :: d in t && Untouched(t, jobs, n, depth, d) ==> w[d] == t[d])
  }

  /** Jobs that do not overlap leave each other's directories alone. */
  ghost predicate ArePlanned(t: Table, jobs: seq<Option<Job>>, depth: nat) {
    && (forall k :: 0 <= k < |jobs| ==> IsTreeJob(t, jobs[k], depth))
    && (forall j, k :: 0 <= j < |jobs| && 0 <= k < |jobs| && j != k ==> AreApart(t, jobs[j], jobs[k], depth))
  }

  lemma {:induction false} NextJobIsUntouched(t: Table, w: Table, jobs: seq<Option<Job>>, n: nat, depth: nat)
    requires ArePlanned(t, jobs, depth) && n < |jobs| && AfterJobs(t, w, jobs, n, depth) && jobs[n].Some?
    ensures var job := jobs[n].value;
            AgreeOn(t, w, job.fd.mount, job.fd.ino, job.keep, depth)
  {
    var job := jobs[n].value;
    assert IsTreeJob(t, jobs[n], depth);
    forall d | d in t && InReach(t, job.fd.mount, job.fd.ino, job.keep, depth, d) ensures t[d] == w[d] {
      assert Touches(t, jobs[n], depth, d);
      forall j | 0 <= j < n ensures !Touches(t, jobs[j], depth, d) {
        assert AreApart(t, jobs[j], jobs[n], depth);
      }
      assert Untouched(t, jobs, n, depth, d);
    }
  }

  /** A job run on a table that agrees with the original where it reaches. */
  lemma {:induction false} JobIsDone(t: Table, w: Table, x: Table, job: Job, depth: nat)
    requires AgreeOn(t, w, job.fd.mount, job.fd.ino, job.keep, depth) && IsTreeJob(t, Some(job), depth)
    requires IsPruned(w, x, job.fd.mount, job.fd.ino, job.keep, depth)
    requires Framed(w, x, job.fd.mount, job.fd.ino, job.keep, depth)
    ensures IsDone(t, x, Some(job), depth) && SameShape(w, x)
    ensures forall d :: d in t && !Touches(t, Some(job), depth, d) ==> x[d] == w[d]
  {
    PrunedFrom(t, w, x, job.fd.mount, job.fd.ino, job.keep, depth);
    forall d | d in t && !Touches(t, Some(job), depth, d) ensures x[d] == w[d] {
      ReachFrame(t, w, job.fd.mount, job.fd.ino, job.keep, depth, d);
    }
  }

  lemma {:induction false} JobStaysDone(t: Table, w: Table, x: Table, job: Option<Job>, next: Option<Job>, depth: nat)
    requires IsDone(t, w, job, depth) && AreApart(t, job, next, depth) && SameShape(t, w) && SameShape(w, x)
    requires forall d :: d in t && !Touches(t, next, depth, d) ==> x[d] == w[d]
    ensures IsDone(t, x, job, depth)
  {
    if job.Some? {
      var fd, keep := job.value.fd, job.value.keep;
      forall d | d in w && InReach(t, fd.mount, fd.ino, keep, depth, d) ensures d in x && x[d] == w[d] {
        assert Touches(t, job, depth, d);
      }
      PrunedTo(t, w, x, fd.mount, fd.ino, keep, depth);
    }
  }

  lemma {:induction false} NextJob(t: Table, w: Table, x: Table, jobs: seq<Option<Job>>, n: nat, depth: nat)
    requires ArePlanned(t, jobs, depth) && n < |jobs| && AfterJobs(t, w, jobs, n, depth)
    requires SameShape(w, x) && IsDone(t, x, jobs[n], depth)
    requires forall d :: d in t && !Touches(t, jobs[n], depth, d) ==> x[d] == w[d]
    ensures AfterJobs(t, x, jobs, n + 1, depth)
  {
    forall j | 0 <= j < n ensures IsDone(t, x, jobs[j], depth) {
      assert AreApart(t, jobs[j], jobs[n], depth);
      JobStaysDone(t, w, x, jobs[j], jobs[n], depth);
    }
    forall d | d in t && Untouched(t, jobs, n + 1, depth, d) ensures x[d] == t[d] {
      assert Untouched(t, jobs, n, depth, d);
    }
  }

  /** Directory `d` is opened on the way along the path. */
  ghost predicate OnWalk(t: Table, fd: Fd, path: Path, d: nat) {
    exists k: nat :: k < |path| && Walk(t, fd, path[..k]).Ok? && Walk(t, fd, path[..k]).value.ino == d
  }

  lemma {:induction false} WalkFrame(t: Table, w: Table, fd: Fd, path: Path)
    requires SameShape(t, w) && forall d :: d in t && OnWalk(t, fd, path, d) ==> w[d] == t[d]
    ensures Walk(w, fd, path) == Walk(t, fd, path)
  {
    if path != [] {
      var front := path[..|path| - 1];
      forall d | d in t && OnWalk(t, fd, front, d) ensures w[d] == t[d] {
        var k: nat :| k < |front| && Walk(t, fd, front[..k]).Ok? && Walk(t, fd, front[..k]).value.ino == d;
        assert front[..k] == path[..k];
        assert OnWalk(t, fd, path, d);
      }
      WalkFrame(t, w, fd, front);
      var dir := Walk(t, fd, front);
      if dir.Ok? && dir.value.ino in t {
        assert OnWalk(t, fd, path, dir.value.ino);
      }
    }
  }

  /** The targets are trees that do not overlap, and none holds a directory on the way to any. */
  ghost predicate IsLayout(
    t: Table, root: Fd, targets: seq<Target>, mounts: map<int, MountPoint>, workMount: nat, depth: nat)
  {
    var jobs := JobsOf(t, root, targets, mounts, workMount);
    && ArePlanned(t, jobs, depth)
    && forall j, k, d :: 0 <= j < |jobs| && 0 <= k < |jobs| && Touches(t, jobs[j], depth, d) ==>
                           !OnWalk(t, root, targets[k].path, d)
  }

  /** The next target still leads where it led. */
  lemma {:induction false} NextWalk(
    t: Table, w: Table, root: Fd, targets: seq<Target>, n: nat, mounts: map<int, MountPoint>, workMount: nat, depth: nat)
    requires IsLayout(t, root, targets, mounts, workMount, depth) && n < |targets|
    requires AfterJobs(t, w, JobsOf(t, root, targets, mounts, workMount), n, depth)
    ensures Walk(w, root, targets[n].path) == Walk(t, root, targets[n].path)
  {
    var jobs := JobsOf(t, root, targets, mounts, workMount);
    forall d | d in t && OnWalk(t, root, targets[n].path, d) ensures w[d] == t[d] {
      forall j | 0 <= j < n ensures !Touches(t, jobs[j], depth, d) {}
      assert Untouched(t, jobs, n, depth, d);
    }
    WalkFrame(t, w, root, targets[n].path);
  }

  /** What a target would return at the start. */
  ghost predicate WasClean(
    t: Table, root: Fd, targets: seq<Target>, k: nat, mounts: map<int, MountPoint>, workMount: nat, depth: nat)
    requires IsLayout(t, root, targets, mounts, workMount, depth) && k < |targets|
  {
    assert IsTreeJob(t, JobsOf(t, root, targets, mounts, workMount)[k], depth);
    IsClean(t, root, targets[k], mounts, workMount, depth)
  }

  /** The next run of `clean_target` returns what it would have returned at the start, and does its job. */
  lemma {:induction false} NextTarget(
    c: seq<Call>, t: Table, w: Table, x: Table, root: Fd, targets: seq<Target>, n: nat, mounts: map<int, MountPoint>,
    workMount: nat, depth: nat, out: Outcome)
    requires IsLayout(t, root, targets, mounts, workMount, depth) && n < |targets|
    requires AfterJobs(t, w, JobsOf(t, root, targets, mounts, workMount), n, depth)
    requires IsCleaning(c, root, targets[n], mounts, workMount, depth, out) && AllAnswer(c) && Chained(c, w, x)
    ensures AfterJobs(t, x, JobsOf(t, root, targets, mounts, workMount), n + 1, depth)
    ensures out == Returned(WasClean(t, root, targets, n, mounts, workMount, depth))
  {
    var jobs := JobsOf(t, root, targets, mounts, workMount);
    var tg := targets[n];
    assert IsTreeJob(t, jobs[n], depth) && jobs[n] == JobOf(t, root, tg, mounts, workMount);
    NextWalk(t, w, root, targets, n, mounts, workMount, depth);
    if jobs[n].Some? {
      NextJobIsUntouched(t, w, jobs, n, depth);
      SameResult(t, w, root, tg, mounts, workMount, depth);
    }
    CleaningIsExact(c, w, x, root, tg, mounts, workMount, depth, out);
    if jobs[n].Some? {
      JobIsDone(t, w, x, jobs[n].value, depth);
    }
    NextJob(t, w, x, jobs, n, depth);
  }

  lemma {:induction false} SameResult(
    t: Table, w: Table, root: Fd, tg: Target, mounts: map<int, MountPoint>, workMount: nat, depth: nat)
    requires MayEmpty(t, root, tg, mounts, workMount) && IsTreeTarget(t, root, tg, mounts, workMount, depth)
    requires Walk(w, root, tg.path) == Walk(t, root, tg.path)
    requires var fd := Walk(t, root, tg.path).value;
             AgreeOn(t, w, fd.mount, fd.ino, tg.keep, depth)
    ensures IsTreeTarget(w, root, tg, mounts, workMount, depth)
    ensures IsClean(w, root, tg, mounts, workMount, depth) <==> IsClean(t, root, tg, mounts, workMount, depth)
  {
    var fd := Walk(t, root, tg.path).value;
    TreeFrame(t, w, fd.mount, fd.ino, tg.keep, depth);
    OutcomeFrame(t, w, fd.mount, fd.ino, tg.keep, depth);
  }

  ghost predicate AllClean(
    t: Table, root: Fd, targets: seq<Target>, mounts: map<int, MountPoint>, workMount: nat, depth: nat)
    requires IsLayout(t, root, targets, mounts, workMount, depth)
  {
    forall k :: 0 <= k < |targets| ==> WasClean(t, root, targets, k, mounts, workMount, depth)
  }

  lemma {:induction false} CleaningsAreExact(
    segs: seq<seq<Call>>, outs: seq<Outcome>, us: seq<Table>, t: Table, root: Fd, targets: seq<Target>, n: nat,
    mounts: map<int, MountPoint>, workMount: nat, depth: nat)
    requires AreCleanings(segs, outs, targets, root, mounts, workMount, depth) && n <= |outs|
    requires |us| == |segs| + 1 && us[0] == t
    requires forall k :: 0 <= k < |segs| ==> AllAnswer(segs[k]) && Chained(segs[k], us[k], us[k + 1])
    requires IsLayout(t, root, targets, mounts, workMount, depth)
    ensures AfterJobs(t, us[n], JobsOf(t, root, targets, mounts, workMount), n, depth)
    ensures forall k :: 0 <= k < n ==> outs[k] == Returned(WasClean(t, root, targets, k, mounts, workMount, depth))
    decreases n
  {
    if n > 0 {
      var k := n - 1;
      CleaningsAreExact(segs, outs, us, t, root, targets, k, mounts, workMount, depth);
      assert AllAnswer(segs[k]) && Chained(segs[k], us[k], us[k + 1]);
      NextTarget(segs[k], t, us[k], us[n], root, targets, k, mounts, workMount, depth, outs[k]);
    }
  }

  /**
   What the hook does to a quiet file system. It is unverified exactly when nothing can be pinned, and
   then changes nothing. Otherwise, for targets laid out apart, every one that may be emptied is pruned
   exactly, nothing else changes, and the status says whether every one was complete.
   */
  ghost predicate IsQuietHook(
    t: Table, u: Table, root: Fd, repo: Option<string>, read: Snapshot,
    toolCacheIsDefault: bool, depth: nat, status: Status)
  {
    var pinned := QuietPin(t, root, repo, read);
    && (status == Unverified <==> pinned.None?)
    && (pinned.None? ==> u == t)
    && (pinned.Some? ==>
          var targets, mounts := Targets(repo.value, toolCacheIsDefault), read.value;
          IsLayout(t, root, targets, mounts, pinned.value, depth) ==>
            && AfterJobs(t, u, JobsOf(t, root, targets, mounts, pinned.value), |targets|, depth)
            && status == if toolCacheIsDefault && AllClean(t, root, targets, mounts, pinned.value, depth)
                         then Completed else Partial)
  }

  lemma {:induction false} TargetsAreExact(
    segs: seq<seq<Call>>, outs: seq<Outcome>, t: Table, u: Table, root: Fd, targets: seq<Target>,
    mounts: map<int, MountPoint>, workMount: nat, depth: nat)
    requires AreCleanings(segs, outs, targets, root, mounts, workMount, depth)
    requires IsInterrupted(outs) || |outs| == |targets|
    requires AllAnswer(Flatten(segs)) && Chained(Flatten(segs), t, u)
    requires IsLayout(t, root, targets, mounts, workMount, depth)
    ensures |outs| == |targets| && !IsInterrupted(outs)
    ensures AfterJobs(t, u, JobsOf(t, root, targets, mounts, workMount), |targets|, depth)
    ensures AllTrue(outs) <==> AllClean(t, root, targets, mounts, workMount, depth)
  {
    FlattenAnswers(segs);
    var us := ChainOfSegments(segs, t, u);
    CleaningsAreExact(segs, outs, us, t, root, targets, |outs|, mounts, workMount, depth);
  }

  lemma {:induction false} HookIsExact(
    pin: seq<Call>, pinned: Option<nat>, segs: seq<seq<Call>>, outs: seq<Outcome>, t: Table, u: Table, root: Fd,
    repo: Option<string>, read: Snapshot, toolCacheIsDefault: bool, depth: nat,
    status: Status)
    requires IsHook(pin, pinned, segs, outs, root, repo, read, toolCacheIsDefault, depth, status)
    requires AllAnswer(pin) && AllAnswer(Flatten(segs)) && Chained(pin + Flatten(segs), t, u)
    ensures pinned == QuietPin(t, root, repo, read)
    ensures IsQuietHook(t, u, root, repo, read, toolCacheIsDefault, depth, status)
  {
    var m := ChainSplit(pin, Flatten(segs), t, u);
    PinningIsExact(pin, t, m, root, repo, read, pinned);
    if pinned.Some? {
      var targets, mounts := Targets(repo.value, toolCacheIsDefault), read.value;
      if IsLayout(t, root, targets, mounts, pinned.value, depth) {
        TargetsAreExact(segs, outs, t, u, root, targets, mounts, pinned.value, depth);
      }
    }
  }

  /**
   `main`: `repo` is the directory `job_workspace` vouches for, if it does. What it does for every
   answer of every call; that it is safe, whatever the environment renames, replaces or mounts in
   between; and exactly what it does when nothing interferes.
   */
  method Hook(fs: FileSystem, root: Fd, repo: Option<string>, toolCacheIsDefault: bool, depth: nat)
    returns (status: Status, ghost pin: seq<Call>, ghost read: Snapshot, ghost pinned: Option<nat>,
             ghost segs: seq<seq<Call>>, ghost outs: seq<Outcome>)
    requires fs.Valid()
    modifies fs
    ensures fs.Valid() && fs.calls == old(fs.calls) + (pin + Flatten(segs))
    ensures IsHook(pin, pinned, segs, outs, root, repo, read, toolCacheIsDefault, depth, status)
    ensures IsSafeHook(pin, pinned, segs, root, repo, read, toolCacheIsDefault)
    ensures fs.quiet ==> IsQuietHook(old(fs.dirs), fs.dirs, root, repo, read, toolCacheIsDefault, depth, status)
  {
    status, pin, read, pinned, segs, outs := RunHook(fs, root, repo, toolCacheIsDefault, depth);
    AnswersOfParts(old(fs.calls), pin + Flatten(segs));
    AnswersOfParts(pin, Flatten(segs));
    HookIsSafe(pin, pinned, segs, outs, root, repo, read, toolCacheIsDefault, depth, status);
    if fs.quiet {
      ChainTail(old(fs.calls), pin + Flatten(segs), fs.start, old(fs.dirs), fs.dirs);
      HookIsExact(pin, pinned, segs, outs, old(fs.dirs), fs.dirs, root, repo, read, toolCacheIsDefault, depth, status);
    }
  }

  method RunHook(fs: FileSystem, root: Fd, repo: Option<string>, toolCacheIsDefault: bool, depth: nat)
    returns (status: Status, ghost pin: seq<Call>, ghost read: Snapshot, ghost pinned: Option<nat>,
             ghost segs: seq<seq<Call>>, ghost outs: seq<Outcome>)
    requires fs.Valid()
    modifies fs
    ensures fs.Valid() && fs.calls == old(fs.calls) + (pin + Flatten(segs))
    ensures IsHook(pin, pinned, segs, outs, root, repo, read, toolCacheIsDefault, depth, status)
  {
    var mount, mounts;
    mount, mounts, pin := PinWorkMount(fs, root, repo);
    read, pinned, segs, outs := mounts, mount, [], [];
    if mount.None? {
      assert pin + [] == pin;
      return Unverified, pin, read, pinned, segs, outs;
    }
    status, segs, outs := CleanTargets(fs, root, repo.value, mounts.value, mount.value, toolCacheIsDefault, depth);
    Regroup(old(fs.calls), pin, Flatten(segs));
  }
}
