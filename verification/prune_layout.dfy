/** The directories that the runner image sets up, as a table: the layout that the exact hook theorem asks for. */
module PruneLayout {
  import opened Wrappers
  import opened FileSystems
  import opened PrunedTables
  import opened WorkspacePrune
  import opened Mountinfo
  import opened PruneTargets

  function Leads(ino: nat): Link {
    Sub(ino, 1, Works, Works, Works, Works)
  }

  function Standard(): Table {
    map[0 := Directory(0, map["home" := Leads(1)], ["home"], Works),
        1 := Directory(0, map["runner" := Leads(2)], ["runner"], Works),
        2 := Directory(0, map["_work" := Leads(3)], ["_work"], Works),
        3 := Directory(0, map["repo" := Leads(4), "_actions" := Leads(5), "_temp" := Leads(6), "_tool" := Leads(7)],
                       ["repo", "_actions", "_temp", "_tool"], Works),
        4 := Directory(0, map[], [], Works), 5 := Directory(0, map[], [], Works),
        6 := Directory(0, map[], [], Works), 7 := Directory(0, map[], [], Works)]
  }

  lemma {:induction false} WorkRootWalk(t: Table, root: Fd, n: nat)
    requires t == Standard() && root == Fd(0, 1, Works) && n <= 3
    ensures Walk(t, root, WORK_ROOT[..n]) == Ok(Fd(n, 1, Works))
  {
    if n > 0 {
      WorkRootWalk(t, root, n - 1);
      assert WORK_ROOT[..n][..n - 1] == WORK_ROOT[..n - 1];
    }
  }

  lemma {:induction false} TargetWalk(t: Table, root: Fd, name: string, k: nat)
    requires t == Standard() && root == Fd(0, 1, Works) && k < 4 && name == ["repo", "_actions", "_temp", "_tool"][k]
    ensures Walk(t, root, WORK_ROOT + [name]) == Ok(Fd(4 + k, 1, Works))
    ensures forall d :: OnWalk(t, root, WORK_ROOT + [name], d) ==> d < 4
  {
    WorkRootWalk(t, root, 3);
    var path := WORK_ROOT + [name];
    assert path[..3] == WORK_ROOT[..3];
    forall d | OnWalk(t, root, path, d) ensures d < 4 {
      var i: nat :| i < 4 && Walk(t, root, path[..i]).Ok? && Walk(t, root, path[..i]).value.ino == d;
      assert path[..i] == WORK_ROOT[..i];
      WorkRootWalk(t, root, i);
    }
  }

  lemma EmptyJob(t: Table, job: Job, k: nat)
    requires t == Standard() && 4 <= k < 8 && job.fd == Fd(k, 1, Works)
    ensures IsTreeJob(t, Some(job), 1) && forall d :: Touches(t, Some(job), 1, d) <==> d == k
  {
    assert t[k] == Directory(0, map[], [], Works);
    assert Visits(t, 1, k, job.keep) == {};
  }

  lemma StandardJob(t: Table, root: Fd, targets: seq<Target>, k: nat)
    requires t == Standard() && root == Fd(0, 1, Works) && targets == Targets("repo", true) && k < 4
    ensures var job := JobOf(t, root, targets[k], map[], 1);
            && IsTreeJob(t, job, 1)
            && (forall d :: Touches(t, job, 1, d) <==> d == 4 + k)
            && (forall d :: OnWalk(t, root, targets[k].path, d) ==> d < 4)
  {
    TargetWalk(t, root, ["repo", "_actions", "_temp", "_tool"][k], k);
    EmptyJob(t, Job(Fd(4 + k, 1, Works), targets[k].keep), 4 + k);
  }

  /** The directories that the image sets up, with empty targets, are such a layout. */
  lemma StandardLayout(t: Table, root: Fd, targets: seq<Target>)
    requires t == Standard() && root == Fd(0, 1, Works) && targets == Targets("repo", true)
    ensures IsLayout(t, root, targets, map[], 1, 1)
  {
    var jobs := JobsOf(t, root, targets, map[], 1);
    forall k | 0 <= k < |jobs|
      ensures IsTreeJob(t, jobs[k], 1)
      ensures forall d :: Touches(t, jobs[k], 1, d) <==> d == 4 + k
      ensures forall d :: OnWalk(t, root, targets[k].path, d) ==> d < 4
    {
      StandardJob(t, root, targets, k);
    }
  }

  // ----- A tree ----------------------------------------------------------------------------------

  function Nested(): Table {
    map[1 := Directory(0, map["a" := Leads(2), "b" := Leads(3), "file" := Leaf(Works, Works)], ["b", "file", "a"], Works),
        2 := Directory(0, map["link" := Leaf(Works, Works)], ["link"], Works),
        3 := Directory(0, map[], [], Works)]
  }

  lemma NestedVisits(t: Table)
    requires t == Nested()
    ensures Visits(t, 1, 1, {}) == {"a", "b"} && Child(t, 1, "a") == 2 && Child(t, 1, "b") == 3
    ensures Visits(t, 1, 2, {}) == {} && Visits(t, 1, 3, {}) == {}
  {
    var listing := ["b", "file", "a"];
    assert listing[0] == "b" && listing[1] == "file" && listing[2] == "a";
  }

  /** Two subdirectories, one of them with a symbolic link, are a tree of depth two: what the exact theorems ask for. */
  lemma {:induction false} NestedIsTree(t: Table)
    requires t == Nested()
    ensures IsTree(t, 1, 1, {}, 2)
  {
    NestedVisits(t);
    assert IsTree(t, 1, 2, {}, 1) && IsTree(t, 1, 3, {}, 1);
    forall d ensures Below(t, 1, 1, "a", 2, d) <==> d == 2 {
    }
    forall d ensures Below(t, 1, 1, "b", 2, d) <==> d == 3 {
    }
  }
}
