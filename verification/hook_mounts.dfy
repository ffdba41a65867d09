/**
 Which mounts the post-job hook deletes through, and which targets it prunes, written out: the work
 mount, or for a cache a mount that the table lists as a whole tmpfs at exactly the cache's own path.
 */
module HookMounts {
  import opened Wrappers
  import opened FileSystems
  import opened PrunedTables
  import opened WorkspacePrune
  import opened Mountinfo
  import opened PruneTargets

  /** The directory name of target `k` below the work root. */
  function NameOf(repo: string, k: nat): string
    requires k < 4
  {
    if k == 0 then repo else if k == 1 then "_actions" else if k == 2 then "_temp" else "_tool"
  }

  /** The cache path of target `k`, as the mount table has it. */
  function CachePath(k: nat): string
    requires 1 <= k < 4
  {
    if k == 1 then "/home/runner/_work/_actions"
    else if k == 2 then "/home/runner/_work/_temp"
    else "/home/runner/_work/_tool"
  }

  /** Target `k` may be emptied through this mount. */
  predicate IsOwnMount(k: nat, mount: nat, mounts: map<int, MountPoint>, workMount: nat)
    requires k < 4
  {
    || mount == workMount
    || (&& k >= 1 && mount in mounts
        && mounts[mount].fstype == "tmpfs" && mounts[mount].root == "/" && mounts[mount].path == CachePath(k))
  }

  function KeptIn(k: nat): set<string> {
    if k == 2 then {"_runner_file_commands", "_github_workflow"} else {}
  }

  /** The names of the targets, and what is kept in each. */
  lemma {:induction false} TargetsAre(repo: string, toolCacheIsDefault: bool)
    ensures var targets := Targets(repo, toolCacheIsDefault);
            && |targets| == (if toolCacheIsDefault then 4 else 3)
            && forall k :: 0 <= k < |targets| ==>
                 && targets[k].path == ["home", "runner", "_work", NameOf(repo, k)]
                 && (targets[k].cache <==> k >= 1)
                 && targets[k].keep == KeptIn(k)
  {
  }

  lemma {:induction false} TextStep(path: Path, name: string)
    ensures Text(path + [name]) == Text(path) + "/" + name
  {
    assert (path + [name])[..|path|] == path;
  }

  lemma {:induction false} TextOfWorkRoot()
    ensures Text(["home", "runner", "_work"]) == "/home/runner/_work"
  {
    TextStep([], "home");
    assert [] + ["home"] == ["home"];
    TextStep(["home"], "runner");
    assert ["home"] + ["runner"] == ["home", "runner"];
    TextStep(["home", "runner"], "_work");
    assert ["home", "runner"] + ["_work"] == ["home", "runner", "_work"];
  }

  lemma {:induction false} TextOf(name: string)
    ensures Text(["home", "runner", "_work", name]) == "/home/runner/_work/" + name
  {
    TextOfWorkRoot();
    TextStep(["home", "runner", "_work"], name);
    assert ["home", "runner", "_work"] + [name] == ["home", "runner", "_work", name];
    assert "/home/runner/_work" + "/" == "/home/runner/_work/";
  }

  /** The mounts that `clean_target` accepts for each target are exactly these. */
  lemma {:induction false} AcceptedIff(
    repo: string, toolCacheIsDefault: bool, k: nat, mount: nat, mounts: map<int, MountPoint>, workMount: nat)
    requires k < |Targets(repo, toolCacheIsDefault)|
    ensures k < 4
    ensures IsAccepted(mount, Targets(repo, toolCacheIsDefault)[k], mounts, workMount) <==>
            IsOwnMount(k, mount, mounts, workMount)
  {
    TargetsAre(repo, toolCacheIsDefault);
    TextOf(NameOf(repo, k));
    assert "/home/runner/_work/" + "_actions" == "/home/runner/_work/_actions";
    assert "/home/runner/_work/" + "_temp" == "/home/runner/_work/_temp";
    assert "/home/runner/_work/" + "_tool" == "/home/runner/_work/_tool";
  }

  // ----- Safety ----------------------------------------------------------------------------------

  /** The first calls of a run open this directory component by component, each in the one before, ending at `fd`. */
  predicate OpensTarget(c: seq<Call>, root: Fd, name: string, fd: Fd) {
    && |c| >= 4 && (forall i :: 0 <= i < 4 ==> c[i].OpenCall? && c[i].child.Ok?)
    && c[0].dir == root && c[0].name == "home"
    && c[1].dir == c[0].child.value && c[1].name == "runner"
    && c[2].dir == c[1].child.value && c[2].name == "_work"
    && c[3].dir == c[2].child.value && c[3].name == name
    && c[3].child.value == fd
  }

  lemma {:induction false} LastStep(c: seq<Call>, root: Fd, path: Path, name: string, fd: Fd)
    requires LeadsTo(c, root, path + [name], fd)
    ensures |c| == |path| + 1
    ensures var n := |path|;
            && c[n].OpenCall? && c[n].name == name && c[n].child == Ok(fd)
            && LeadsTo(c[..n], root, path, c[n].dir)
  {
    assert (path + [name])[..|path|] == path;
  }

  lemma {:induction false} LeadsToOpens(c: seq<Call>, rest: seq<Call>, root: Fd, name: string, fd: Fd)
    requires LeadsTo(c, root, ["home", "runner", "_work", name], fd)
    ensures OpensTarget(c + rest, root, name, fd)
  {
    assert ["home", "runner", "_work", name] == ["home", "runner", "_work"] + [name];
    LastStep(c, root, ["home", "runner", "_work"], name, fd);
    assert ["home", "runner", "_work"] == ["home", "runner"] + ["_work"];
    LastStep(c[..3], root, ["home", "runner"], "_work", c[3].dir);
    assert ["home", "runner"] == ["home"] + ["runner"];
    LastStep(c[..3][..2], root, ["home"], "runner", c[..3][2].dir);
    assert ["home"] == [] + ["home"];
    LastStep(c[..3][..2][..1], root, [], "home", c[..3][..2][1].dir);
  }

  /**
   Whatever the environment does, every deletion of a hook run is in the run of some target: below the
   directory that the target's path led to, and through the descriptor's mount, which is the mount that
   was pinned or, for a cache, in the table as a whole tmpfs at the cache's own path.
   */
  lemma {:induction false} HookDeletesOnlyThroughOwnMounts(
    pin: seq<Call>, pinned: Option<nat>, segs: seq<seq<Call>>, outs: seq<Outcome>, root: Fd, repo: Option<string>,
    read: Snapshot, toolCacheIsDefault: bool, depth: nat, status: Status, k: nat, i: nat)
    requires IsHook(pin, pinned, segs, outs, root, repo, read, toolCacheIsDefault, depth, status)
    requires AllAnswer(pin) && AllAnswer(Flatten(segs))
    requires k < |segs| && i < |segs[k]| && segs[k][i].IsDeletion()
    ensures k < 4 && (k == 3 ==> toolCacheIsDefault) && pinned.Some? && repo.Some? && read.Ok?
    ensures IsOwnMount(k, segs[k][i].dir.mount, read.value, pinned.value)
    ensures exists fd: Fd :: OpensTarget(segs[k], root, NameOf(repo.value, k), fd) && fd.mount == segs[k][i].dir.mount
  {
    HookIsSafe(pin, pinned, segs, outs, root, repo, read, toolCacheIsDefault, depth, status);
    TargetsAre(repo.value, toolCacheIsDefault);
    var tg := Targets(repo.value, toolCacheIsDefault)[k];
    DeletionIsAccepted(segs[k], root, tg, NameOf(repo.value, k), read.value, pinned.value, i);
    AcceptedIff(repo.value, toolCacheIsDefault, k, segs[k][i].dir.mount, read.value, pinned.value);
  }

  lemma {:induction false} DeletionIsAccepted(
    c: seq<Call>, root: Fd, tg: Target, name: string, mounts: map<int, MountPoint>, workMount: nat, i: nat)
    requires IsSafe(c, root, tg, mounts, workMount) && tg.path == ["home", "runner", "_work", name]
    requires i < |c| && c[i].IsDeletion()
    ensures IsAccepted(c[i].dir.mount, tg, mounts, workMount)
    ensures exists fd: Fd :: OpensTarget(c, root, name, fd) && fd.mount == c[i].dir.mount
  {
    var walk, rest, fd :| c == walk + rest && LeadsTo(walk, root, tg.path, fd) && DeletesNothing(walk)
                          && IsSafeOf(rest, fd, tg, mounts, workMount);
    assert i >= |walk| && c[i] == rest[i - |walk|];
    LeadsToOpens(walk, rest, root, name, fd);
  }

  /** Nothing else of a hook run deletes: pinning does not. */
  lemma {:induction false} PinningDeletesNothing(
    pin: seq<Call>, pinned: Option<nat>, segs: seq<seq<Call>>, outs: seq<Outcome>, root: Fd, repo: Option<string>,
    read: Snapshot, toolCacheIsDefault: bool, depth: nat, status: Status)
    requires IsHook(pin, pinned, segs, outs, root, repo, read, toolCacheIsDefault, depth, status)
    requires AllAnswer(pin) && AllAnswer(Flatten(segs))
    ensures forall i :: 0 <= i < |pin| ==> !pin[i].IsDeletion()
  {
    HookIsSafe(pin, pinned, segs, outs, root, repo, read, toolCacheIsDefault, depth, status);
  }

  // ----- What is pruned --------------------------------------------------------------------------

  /** On this table the path of the work root leads to `work`, and from there `name` opens as `fd`. */
  ghost predicate LeadsBelow(t: Table, root: Fd, name: string, fd: Fd) {
    exists home, runner, work ::
      && OpenOf(t, root.ino, "home") == Ok(home) && OpenOf(t, home.ino, "runner") == Ok(runner)
      && OpenOf(t, runner.ino, "_work") == Ok(work) && OpenOf(t, work.ino, name) == Ok(fd)
  }

  lemma {:induction false} WalkStep(t: Table, root: Fd, path: Path, name: string)
    ensures Walk(t, root, path + [name]) ==
            if Walk(t, root, path).Err? then Walk(t, root, path) else OpenOf(t, Walk(t, root, path).value.ino, name)
  {
    assert (path + [name])[..|path|] == path;
  }

  lemma {:induction false} WalkBelow(t: Table, root: Fd, name: string, fd: Fd)
    ensures Walk(t, root, ["home", "runner", "_work", name]) == Ok(fd) <==> LeadsBelow(t, root, name, fd)
  {
    assert [] + ["home"] == ["home"] && ["home"] + ["runner"] == ["home", "runner"];
    assert ["home", "runner"] + ["_work"] == ["home", "runner", "_work"];
    assert ["home", "runner", "_work"] + [name] == ["home", "runner", "_work", name];
    WalkStep(t, root, [], "home");
    WalkStep(t, root, ["home"], "runner");
    WalkStep(t, root, ["home", "runner"], "_work");
    WalkStep(t, root, ["home", "runner", "_work"], name);
  }

  /** One target on a quiet file system: pruned through its own mount, refused and untouched through any other. */
  lemma {:induction false} QuietCleaningIsPruningIff(
    c: seq<Call>, t: Table, u: Table, root: Fd, repo: string, toolCacheIsDefault: bool, k: nat, fd: Fd,
    mounts: map<int, MountPoint>, workMount: nat, depth: nat, out: Outcome)
    requires k < |Targets(repo, toolCacheIsDefault)|
    requires IsCleaning(c, root, Targets(repo, toolCacheIsDefault)[k], mounts, workMount, depth, out)
    requires AllAnswer(c) && Chained(c, t, u)
    requires k < 4 && LeadsBelow(t, root, NameOf(repo, k), fd) && fd.fdinfo == Works
    requires IsTree(t, fd.mount, fd.ino, KeptIn(k), depth)
    ensures if IsOwnMount(k, fd.mount, mounts, workMount)
            then IsPruned(t, u, fd.mount, fd.ino, KeptIn(k), depth) && Framed(t, u, fd.mount, fd.ino, KeptIn(k), depth)
            else u == t && out == Returned(false)
  {
    TargetsAre(repo, toolCacheIsDefault);
    WalkBelow(t, root, NameOf(repo, k), fd);
    AcceptedIff(repo, toolCacheIsDefault, k, fd.mount, mounts, workMount);
    CleaningIsExact(c, t, u, root, Targets(repo, toolCacheIsDefault)[k], mounts, workMount, depth, out);
  }

  /**
   The whole hook on a quiet file system, for targets laid out apart: a target that is there with a
   readable mount is pruned if that is the pinned mount or the cache's own whole tmpfs, and otherwise
   the hook reports that something was left.
   */
  lemma {:induction false} QuietHookPrunesIff(
    t: Table, u: Table, root: Fd, repo: string, read: Snapshot, toolCacheIsDefault: bool, depth: nat, status: Status,
    workMount: nat, k: nat, fd: Fd)
    requires IsQuietHook(t, u, root, Some(repo), read, toolCacheIsDefault, depth, status)
    requires QuietPin(t, root, Some(repo), read) == Some(workMount)
    requires IsLayout(t, root, Targets(repo, toolCacheIsDefault), read.value, workMount, depth)
    requires k < (if toolCacheIsDefault then 4 else 3)
    requires LeadsBelow(t, root, NameOf(repo, k), fd) && fd.fdinfo == Works
    ensures if IsOwnMount(k, fd.mount, read.value, workMount)
            then IsPruned(t, u, fd.mount, fd.ino, KeptIn(k), depth)
            else status == Partial
  {
    TargetsAre(repo, toolCacheIsDefault);
    WalkBelow(t, root, NameOf(repo, k), fd);
    AcceptedIff(repo, toolCacheIsDefault, k, fd.mount, read.value, workMount);
    var targets := Targets(repo, toolCacheIsDefault);
    var jobs := JobsOf(t, root, targets, read.value, workMount);
    assert jobs[k] == JobOf(t, root, targets[k], read.value, workMount);
    if IsOwnMount(k, fd.mount, read.value, workMount) {
      assert IsDone(t, u, jobs[k], depth);
    } else {
      assert !WasClean(t, root, targets, k, read.value, workMount, depth);
    }
  }

  /**
   What is pinned on a quiet file system: the mount of the work root, if it can be opened and its mount
   read, the mount table is accepted and lists it, and the checkout opens.
   */
  lemma {:induction false} QuietlyPinnedIff(t: Table, root: Fd, repo: string, read: Snapshot, mount: nat, work: Fd)
    requires Walk(t, root, ["home", "runner", "_work"]) == Ok(work)
    ensures QuietPin(t, root, Some(repo), read) == Some(mount) <==>
            && work.fdinfo == Works && work.mount == mount && read.Ok? && mount in read.value
            && Walk(t, root, ["home", "runner", "_work", repo, repo]).Ok?
  {
    assert WORK_ROOT + [repo, repo] == ["home", "runner", "_work", repo, repo];
  }

  /**
   On a quiet file system a target counts as clean iff it is not there, or its mount is its own and the
   prune ends True or with the directory itself not found.
   */
  lemma {:induction false} TargetIsCleanIff(
    t: Table, root: Fd, repo: string, toolCacheIsDefault: bool, k: nat, mounts: map<int, MountPoint>,
    workMount: nat, depth: nat)
    requires k < 4 && k < |Targets(repo, toolCacheIsDefault)|
    requires IsTreeTarget(t, root, Targets(repo, toolCacheIsDefault)[k], mounts, workMount, depth)
    ensures var walk := Walk(t, root, ["home", "runner", "_work", NameOf(repo, k)]);
            IsClean(t, root, Targets(repo, toolCacheIsDefault)[k], mounts, workMount, depth) <==>
            if walk.Err? then walk.error == Missing
            else
              var fd := walk.value;
              || fd.fdinfo == Missing
              || (&& fd.fdinfo == Works && IsOwnMount(k, fd.mount, mounts, workMount)
                  && fd.ino in t
                  && (|| OutcomeOf(t, fd.mount, fd.ino, KeptIn(k), depth) == Returned(true)
                      || OutcomeOf(t, fd.mount, fd.ino, KeptIn(k), depth) == Raised(Missing)))
  {
    TargetsAre(repo, toolCacheIsDefault);
    var walk := Walk(t, root, ["home", "runner", "_work", NameOf(repo, k)]);
    if walk.Ok? {
      AcceptedIff(repo, toolCacheIsDefault, k, walk.value.mount, mounts, workMount);
    }
  }

  /**
   The status of every run: interrupted iff the last run of a target met the recursion limit, completed
   iff the tool cache is the default one and the runs of all four targets returned True.
   */
  lemma {:induction false} HookStatusIs(
    pin: seq<Call>, pinned: Option<nat>, segs: seq<seq<Call>>, outs: seq<Outcome>, root: Fd, repo: Option<string>,
    read: Snapshot, toolCacheIsDefault: bool, depth: nat, status: Status)
    requires IsHook(pin, pinned, segs, outs, root, repo, read, toolCacheIsDefault, depth, status)
    requires AllAnswer(pin)
    ensures status == Unverified <==> pinned.None?
    ensures status == Interrupted <==> outs != [] && outs[|outs| - 1] == Overflow
    ensures pinned.Some? ==>
              && |segs| == |outs| && (forall k :: 0 <= k < |outs| - 1 ==> outs[k] != Overflow)
              && (status != Interrupted ==> |outs| == if toolCacheIsDefault then 4 else 3)
    ensures status == Completed <==>
            toolCacheIsDefault && |outs| == 4 && forall k :: 0 <= k < 4 ==> outs[k] == Returned(true)
  {
    if pinned.Some? {
      PinningIsSafe(pin, root, repo, read, pinned);
      TargetsAre(repo.value, toolCacheIsDefault);
    }
  }
}
