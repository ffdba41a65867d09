/**
 The file system that docker/runner-post-job-workspace-prune.py works on: mounts, devices, symbolic
 links, and entries whose system calls fail.

 `FileSystem` is a table of directories indexed by inode, changed in place. Between any two system
 calls its environment may replace the whole table, unless the file system is `quiet`. Every call is
 logged with the table that answered it.
 */
module FileSystems {
  import opened Wrappers

  /** How a system call on an entry ends: success, `FileNotFoundError`, or any other `OSError` or `ValueError`. */
  datatype Fault = Works | Missing | Refused

  /**
   A directory entry. A `Leaf` is anything but a directory, symbolic links included. A `Sub` leads to
   the directory `ino` seen through mount `mount`; both carry what their system calls answer.
   */
  datatype Link =
    | Leaf(stat: Fault, unlink: Fault)
    | Sub(ino: nat, mount: nat, stat: Fault, open: Fault, fdinfo: Fault, rmdir: Fault)

  /** `listing` is what `scandir` yields, in order, before it ends or fails with `listingFault`. */
  datatype Directory = Directory(device: nat, entries: map<string, Link>, listing: seq<string>, listingFault: Fault)

  type Table = map<nat, Directory>

  /** An open directory: the inode and the mount it was opened through, both fixed for its lifetime. */
  datatype Fd = Fd(ino: nat, mount: nat, fdinfo: Fault)

  datatype Metadata = Metadata(isDirectory: bool, device: nat, ino: nat)

  function Without(names: seq<string>, name: string): (r: seq<string>)
    ensures forall n :: n in r <==> n in names && n != name
  {
    if names == [] then []
    else Without(names[..|names| - 1], name) + (if names[|names| - 1] == name then [] else [names[|names| - 1]])
  }

  function Shrunk(d: Directory, name: string): Directory {
    d.(entries := d.entries - {name}, listing := Without(d.listing, name))
  }

  function Removed(t: Table, ino: nat, name: string): Table
    requires ino in t
  {
    t[ino := Shrunk(t[ino], name)]
  }

  function ScanOf(t: Table, ino: nat): (seq<string>, Fault) {
    if ino in t then (t[ino].listing, t[ino].listingFault) else ([], Missing)
  }

  function MountOf(fd: Fd): Result<nat, Fault> {
    if fd.fdinfo == Works then Ok(fd.mount) else Err(fd.fdinfo)
  }

  function LinkAt(t: Table, ino: nat, name: string): Option<Link> {
    if ino in t && name in t[ino].entries then Some(t[ino].entries[name]) else None
  }

  function DeviceOf(t: Table, ino: nat): nat {
    if ino in t then t[ino].device else 0
  }

  function StatOf(t: Table, ino: nat, name: string): Result<Metadata, Fault> {
    match LinkAt(t, ino, name)
    case None => Err(Missing)
    case Some(Leaf(stat, _)) => if stat == Works then Ok(Metadata(false, DeviceOf(t, ino), 0)) else Err(stat)
    case Some(Sub(child, _, stat, _, _, _)) =>
      if stat == Works then Ok(Metadata(true, DeviceOf(t, child), child)) else Err(stat)
  }

  function OpenOf(t: Table, ino: nat, name: string): Result<Fd, Fault> {
    match LinkAt(t, ino, name)
    case None => Err(Missing)
    case Some(Leaf(_, _)) => Err(Refused)
    case Some(Sub(child, mount, _, open, fdinfo, _)) => if open == Works then Ok(Fd(child, mount, fdinfo)) else Err(open)
  }

  function UnlinkOf(t: Table, ino: nat, name: string): (Table, Fault) {
    match LinkAt(t, ino, name)
    case None => (t, Missing)
    case Some(Leaf(_, unlink)) => if unlink == Works then (Removed(t, ino, name), Works) else (t, unlink)
    case Some(Sub(_, _, _, _, _, _)) => (t, Refused)
  }

  function RmdirOf(t: Table, ino: nat, name: string): (Table, Fault) {
    match LinkAt(t, ino, name)
    case None => (t, Missing)
    case Some(Leaf(_, _)) => (t, Refused)
    case Some(Sub(child, _, _, _, _, rmdir)) =>
      if child in t && t[child].entries != map[] then (t, Refused)
      else if rmdir == Works then (Removed(t, ino, name), Works)
      else (t, rmdir)
  }

  // ----- Logged calls --------------------------------------------------------------------------

  datatype Call =
    | StatCall(at: Table, dir: Fd, name: string, seen: Result<Metadata, Fault>)
    | OpenCall(at: Table, dir: Fd, name: string, child: Result<Fd, Fault>)
    | FstatCall(at: Table, fd: Fd, held: Metadata)
    | MountIdCall(at: Table, fd: Fd, mount: Result<nat, Fault>)
    | TableCall(at: Table, text: Result<string, Fault>)
    | ScanCall(at: Table, fd: Fd, names: seq<string>, fault: Fault)
    | UnlinkCall(at: Table, dir: Fd, name: string, fault: Fault)
    | RmdirCall(at: Table, dir: Fd, name: string, fault: Fault)
  {
    predicate IsDeletion() {
      UnlinkCall? || RmdirCall?
    }
  }

  /** The call was answered as its table answers it. */
  predicate Answers(c: Call) {
    match c
    case StatCall(at, dir, name, seen) => seen == StatOf(at, dir.ino, name)
    case OpenCall(at, dir, name, child) => child == OpenOf(at, dir.ino, name)
    case FstatCall(at, fd, held) => held == Metadata(true, DeviceOf(at, fd.ino), fd.ino)
    case MountIdCall(_, fd, mount) => mount == MountOf(fd)
    case TableCall(_, _) => true
    case ScanCall(at, fd, names, fault) => (names, fault) == ScanOf(at, fd.ino)
    case UnlinkCall(at, dir, name, fault) => fault == UnlinkOf(at, dir.ino, name).1
    case RmdirCall(at, dir, name, fault) => fault == RmdirOf(at, dir.ino, name).1
  }

  /** The table right after the call. */
  function AfterCall(c: Call): Table {
    match c
    case UnlinkCall(at, dir, name, _) => UnlinkOf(at, dir.ino, name).0
    case RmdirCall(at, dir, name, _) => RmdirOf(at, dir.ino, name).0
    case _ => c.at
  }

  ghost predicate AllAnswer(c: seq<Call>) {
    forall i :: 0 <= i < |c| ==> Answers(c[i])
  }

  lemma AnswersOfParts(a: seq<Call>, b: seq<Call>)
    requires AllAnswer(a + b)
    ensures AllAnswer(a) && AllAnswer(b)
  {
    assert forall i :: 0 <= i < |a| ==> (a + b)[i] == a[i];
    assert forall i :: 0 <= i < |b| ==> (a + b)[|a| + i] == b[i];
  }

  /** The calls, with nothing happening in between, lead from table `t` to table `u`. */
  ghost predicate Chained(c: seq<Call>, t: Table, u: Table) {
    if c == [] then t == u
    else Chained(c[..|c| - 1], t, c[|c| - 1].at) && u == AfterCall(c[|c| - 1])
  }

  lemma {:induction false} ChainSplit(a: seq<Call>, b: seq<Call>, t: Table, u: Table) returns (m: Table)
    requires Chained(a + b, t, u)
    ensures Chained(a, t, m) && Chained(b, m, u)
  {
    if b == [] {
      assert a + b == a;
      m := u;
    } else {
      var front := b[..|b| - 1];
      assert (a + b)[..|a + b| - 1] == a + front;
      m := ChainSplit(a, front, t, b[|b| - 1].at);
    }
  }

  lemma {:induction false} ChainHead(c: seq<Call>, t: Table, u: Table)
    requires c != [] && Chained(c, t, u)
    ensures c[0].at == t && Chained(c[1..], AfterCall(c[0]), u)
  {
    assert [c[0]] + c[1..] == c;
    var m := ChainSplit([c[0]], c[1..], t, u);
    assert [c[0]][..0] == [];
  }

  /** What was logged between two states of a quiet file system leads from one to the other. */
  lemma {:induction false} ChainTail(a: seq<Call>, b: seq<Call>, t: Table, m: Table, u: Table)
    requires Chained(a, t, m) && Chained(a + b, t, u)
    ensures Chained(b, m, u)
  {
    var m' := ChainSplit(a, b, t, u);
  }

  class FileSystem {
    const quiet: bool
    const environment: nat -> Table
    const mountinfo: nat -> Result<string, Fault>
    var dirs: Table
    var steps: nat
    ghost const start: Table
    ghost var calls: seq<Call>

    ghost predicate Valid()
      reads this
    {
      AllAnswer(calls) && (quiet ==> Chained(calls, start, dirs))
    }

    constructor (quiet: bool, environment: nat -> Table, mountinfo: nat -> Result<string, Fault>, dirs: Table)
      ensures Valid() && this.quiet == quiet && this.dirs == dirs && calls == []
      ensures this.environment == environment && this.mountinfo == mountinfo
    {
      this.quiet, this.environment, this.mountinfo := quiet, environment, mountinfo;
      this.dirs, steps, start, calls := dirs, 0, dirs, [];
    }

    /** Whatever other processes do before the next system call: renames, replacements, new mounts. */
    method Interfere()
      modifies this`dirs, this`steps
      ensures quiet ==> dirs == old(dirs)
    {
      if !quiet {
        dirs := environment(steps);
        steps := steps + 1;
      }
    }

    ghost method Log(c: Call)
      requires AllAnswer(calls) && Answers(c) && dirs == AfterCall(c) && (quiet ==> Chained(calls, start, c.at))
      modifies this`calls
      ensures Valid() && calls == old(calls) + [c]
    {
      calls := calls + [c];
      assert calls[..|calls| - 1] == old(calls);
    }

    method Stat(fd: Fd, name: string) returns (r: Result<Metadata, Fault>, ghost c: Call)
      requires Valid()
      modifies this
      ensures Valid() && calls == old(calls) + [c] && c == StatCall(c.at, fd, name, r)
    {
      Interfere();
      r := StatOf(dirs, fd.ino, name);
      c := StatCall(dirs, fd, name, r);
      Log(c);
    }

    method Open(fd: Fd, name: string) returns (r: Result<Fd, Fault>, ghost c: Call)
      requires Valid()
      modifies this
      ensures Valid() && calls == old(calls) + [c] && c == OpenCall(c.at, fd, name, r)
    {
      Interfere();
      r := OpenOf(dirs, fd.ino, name);
      c := OpenCall(dirs, fd, name, r);
      Log(c);
    }

    method Fstat(fd: Fd) returns (m: Metadata, ghost c: Call)
      requires Valid()
      modifies this
      ensures Valid() && calls == old(calls) + [c] && c == FstatCall(c.at, fd, m)
    {
      Interfere();
      m := Metadata(true, DeviceOf(dirs, fd.ino), fd.ino);
      c := FstatCall(dirs, fd, m);
      Log(c);
    }

    /** The kernel's answer follows the open descriptor, whatever happened to its path since. */
    method MountId(fd: Fd) returns (r: Result<nat, Fault>, ghost c: Call)
      requires Valid()
      modifies this
      ensures Valid() && calls == old(calls) + [c] && c == MountIdCall(c.at, fd, r)
    {
      Interfere();
      r := MountOf(fd);
      c := MountIdCall(dirs, fd, r);
      Log(c);
    }

    /** The text of the mount table at this moment, whatever it is. */
    method ReadMountinfo() returns (text: Result<string, Fault>, ghost c: Call)
      requires Valid()
      modifies this
      ensures Valid() && calls == old(calls) + [c] && c == TableCall(c.at, text)
    {
      Interfere();
      text := mountinfo(steps);
      c := TableCall(dirs, text);
      Log(c);
    }

    method ScanDir(fd: Fd) returns (names: seq<string>, fault: Fault, ghost c: Call)
      requires Valid()
      modifies this
      ensures Valid() && calls == old(calls) + [c] && c == ScanCall(c.at, fd, names, fault)
    {
      Interfere();
      names, fault := ScanOf(dirs, fd.ino).0, ScanOf(dirs, fd.ino).1;
      c := ScanCall(dirs, fd, names, fault);
      Log(c);
    }

    method Unlink(fd: Fd, name: string) returns (fault: Fault, ghost c: Call)
      requires Valid()
      modifies this
      ensures Valid() && calls == old(calls) + [c] && c == UnlinkCall(c.at, fd, name, fault)
    {
      Interfere();
      fault := UnlinkOf(dirs, fd.ino, name).1;
      c := UnlinkCall(dirs, fd, name, fault);
      dirs := UnlinkOf(dirs, fd.ino, name).0;
      Log(c);
    }

    method Rmdir(fd: Fd, name: string) returns (fault: Fault, ghost c: Call)
      requires Valid()
      modifies this
      ensures Valid() && calls == old(calls) + [c] && c == RmdirCall(c.at, fd, name, fault)
    {
      Interfere();
      fault := RmdirOf(dirs, fd.ino, name).1;
      c := RmdirCall(dirs, fd, name, fault);
      dirs := RmdirOf(dirs, fd.ino, name).0;
      Log(c);
    }
  }

  // ----- What the calls do, written out ----------------------------------------------------------------

  /** Opening a directory entry follows nothing: what is not a directory does not open, symbolic links included. */
  lemma OpenFollowsNothing(t: Table, ino: nat, name: string, fd: Fd)
    ensures OpenOf(t, ino, name) == Ok(fd) <==>
            && ino in t && name in t[ino].entries && t[ino].entries[name].Sub? && t[ino].entries[name].open == Works
            && fd == Fd(t[ino].entries[name].ino, t[ino].entries[name].mount, t[ino].entries[name].fdinfo)
    ensures OpenOf(t, ino, name) == Err(Missing) <==>
            ino !in t || name !in t[ino].entries || (t[ino].entries[name].Sub? && t[ino].entries[name].open == Missing)
  {
  }

  /** Removal takes exactly the named entry: no directory by `unlink`, none that holds something by `rmdir`. */
  lemma RemovalIsExact(t: Table, ino: nat, name: string)
    ensures UnlinkOf(t, ino, name).1 == Works <==>
            ino in t && name in t[ino].entries && t[ino].entries[name].Leaf? && t[ino].entries[name].unlink == Works
    ensures RmdirOf(t, ino, name).1 == Works <==>
            && ino in t && name in t[ino].entries && t[ino].entries[name].Sub? && t[ino].entries[name].rmdir == Works
            && (t[ino].entries[name].ino in t ==> t[t[ino].entries[name].ino].entries == map[])
    ensures forall after: (Table, Fault) :: after == UnlinkOf(t, ino, name) || after == RmdirOf(t, ino, name) ==>
              && after.0.Keys == t.Keys && (after.1 != Works ==> after.0 == t)
              && (forall d :: d in t && d != ino ==> after.0[d] == t[d])
              && (after.1 == Works ==>
                    && after.0[ino].entries == t[ino].entries - {name} && after.0[ino].device == t[ino].device
                    && forall n :: n in after.0[ino].listing <==> n in t[ino].listing && n != name)
  {
  }

  /** `stat` sees an entry as a directory iff it leads to one, with that one's device and inode. */
  lemma StatIs(t: Table, ino: nat, name: string, child: nat)
    ensures StatOf(t, ino, name) == Ok(Metadata(true, DeviceOf(t, child), child)) <==>
            && ino in t && name in t[ino].entries && t[ino].entries[name].Sub? && t[ino].entries[name].ino == child
            && t[ino].entries[name].stat == Works
  {
  }
}
