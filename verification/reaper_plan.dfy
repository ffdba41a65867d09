/**
 The zombie reaper's planner (src/reaper.rs): nested searches over runners, repositories and runs,
 and its agreement with the executor of module `Reaper`. Timestamp parsing is an arbitrary function.
 */
module ReaperPlanner {
  import opened Wrappers
  import opened Reaper
  import opened Decimal

  datatype Runner = Runner(id: nat, name: string, busy: bool)

  datatype WorkflowRun = WorkflowRun(id: nat, status: string, runStartedAt: Option<string>, htmlUrl: string)

  type RepoRuns = seq<(string, seq<(WorkflowRun, seq<Job>)>)>

  datatype Filter = Filter(
    allowedPrefixes: seq<string>,
    requiredLabels: seq<string>,
    minAgeSeconds: nat,
    nowUnix: nat,
    parseTimestamp: string -> Option<int>)

  predicate RunnerNameAllowed(name: string, allowedPrefixes: seq<string>) {
    exists i :: 0 <= i < |allowedPrefixes| &&
      var prefix := allowedPrefixes[i];
      |prefix| < |name| && name[..|prefix|] == prefix && name[|prefix|] == '-'
  }

  predicate JobMatchesRunner(job: Job, runner: Runner) {
    job.runnerId == Some(runner.id) || job.runnerName == Some(runner.name)
  }

  predicate HasRequiredLabels(job: Job, requiredLabels: seq<string>) {
    forall i :: 0 <= i < |requiredLabels| ==> requiredLabels[i] in job.labels
  }

  function FirstMatch(jobs: seq<Job>, runner: Runner): Option<Job> {
    if jobs == [] then None
    else if JobMatchesRunner(jobs[0], runner) then Some(jobs[0])
    else FirstMatch(jobs[1..], runner)
  }

  /** Seconds since the job, or failing that its run, started; `None` when that is unknown. */
  function Age(job: Job, run: WorkflowRun, f: Filter): Option<nat> {
    var startedAt := if job.startedAt.Some? then job.startedAt else run.runStartedAt;
    if startedAt.None? then None
    else
      var started := f.parseTimestamp(startedAt.value);
      if started.None? || started.value < 0 then None
      else Some(if f.nowUnix >= started.value then f.nowUnix - started.value else 0)
  }

  function PlanFor(runner: Runner, repo: string, run: WorkflowRun, job: Job, age: nat): Plan {
    Plan(runner.id, runner.name, repo, run.id, run.htmlUrl, job.id, job.htmlUrl, age,
         ["POST repos/" + repo + "/actions/runs/" + Print(run.id) + "/cancel",
          "poll correlated job until it is no longer in_progress",
          "DELETE runner registration " + Print(runner.id)])
  }

  // ----- Which triples are planned -----------------------------------------------------------

  /** `m` is the first job of the run that belongs to the runner. */
  predicate IsFirstMatch(jobs: seq<Job>, runner: Runner, m: nat) {
    && m < |jobs| && JobMatchesRunner(jobs[m], runner)
    && forall i :: 0 <= i < m ==> !JobMatchesRunner(jobs[i], runner)
  }

  /** The runner is a zombie on this run, by its job `m`. */
  ghost predicate IsZombie(runner: Runner, run: WorkflowRun, jobs: seq<Job>, f: Filter, m: nat) {
    && runner.busy && RunnerNameAllowed(runner.name, f.allowedPrefixes)
    && run.status == "in_progress"
    && IsFirstMatch(jobs, runner, m)
    && jobs[m].status == "in_progress" && HasRequiredLabels(jobs[m], f.requiredLabels)
    && Age(jobs[m], run, f).Some? && Age(jobs[m], run, f).value >= f.minAgeSeconds
  }

  datatype Position = Position(runner: nat, repo: nat, run: nat)

  predicate InRange(p: Position, runners: seq<Runner>, repoRuns: RepoRuns) {
    p.runner < |runners| && p.repo < |repoRuns| && p.run < |repoRuns[p.repo].1|
  }

  predicate Earlier(p: Position, q: Position) {
    p.runner < q.runner || (p.runner == q.runner && (p.repo < q.repo || (p.repo == q.repo && p.run < q.run)))
  }

  /** `plan` is the one this position calls for. */
  ghost predicate Calls(p: Position, plan: Plan, runners: seq<Runner>, repoRuns: RepoRuns, f: Filter)
    requires InRange(p, runners, repoRuns)
  {
    var (run, jobs) := repoRuns[p.repo].1[p.run];
    exists m: nat ::
      && IsZombie(runners[p.runner], run, jobs, f, m)
      && plan == PlanFor(runners[p.runner], repoRuns[p.repo].0, run, jobs[m], Age(jobs[m], run, f).value)
  }

  ghost predicate Planned(p: Position, runners: seq<Runner>, repoRuns: RepoRuns, f: Filter)
    requires InRange(p, runners, repoRuns)
  {
    var (run, jobs) := repoRuns[p.repo].1[p.run];
    exists m: nat :: IsZombie(runners[p.runner], run, jobs, f, m)
  }

  /** The plans made for all positions before `limit`: in order, one per zombie position, none else. */
  ghost predicate PlansBefore(
    plans: seq<Plan>, at: seq<Position>, limit: Position, runners: seq<Runner>, repoRuns: RepoRuns, f: Filter)
  {
    && |at| == |plans|
    && (forall k :: 0 <= k < |at| ==>
          InRange(at[k], runners, repoRuns) && Earlier(at[k], limit) && Calls(at[k], plans[k], runners, repoRuns, f))
    && (forall j, k :: 0 <= j < k < |at| ==> Earlier(at[j], at[k]))
    && (forall p :: InRange(p, runners, repoRuns) && Earlier(p, limit) && Planned(p, runners, repoRuns, f) ==> p in at)
  }

  lemma {:induction false} FirstMatchIsFirst(jobs: seq<Job>, runner: Runner)
    ensures FirstMatch(jobs, runner).None? ==> forall m :: 0 <= m < |jobs| ==> !JobMatchesRunner(jobs[m], runner)
    ensures FirstMatch(jobs, runner).Some? ==>
              exists m: nat :: IsFirstMatch(jobs, runner, m) && jobs[m] == FirstMatch(jobs, runner).value
  {
    if jobs != [] {
      FirstMatchIsFirst(jobs[1..], runner);
      if JobMatchesRunner(jobs[0], runner) {
        assert IsFirstMatch(jobs, runner, 0);
      } else if FirstMatch(jobs, runner).Some? {
        var m: nat :| IsFirstMatch(jobs[1..], runner, m) && jobs[1..][m] == FirstMatch(jobs, runner).value;
        assert IsFirstMatch(jobs, runner, m + 1);
      }
    }
  }

  /** The search through one run: `None` exactly when no job makes the runner a zombie there. */
  method PlanOne(runner: Runner, repo: string, run: WorkflowRun, jobs: seq<Job>, f: Filter) returns (plan: Option<Plan>)
    requires runner.busy && RunnerNameAllowed(runner.name, f.allowedPrefixes)
    ensures plan.None? <==> !exists m: nat :: IsZombie(runner, run, jobs, f, m)
    ensures plan.Some? ==> exists m: nat :: IsZombie(runner, run, jobs, f, m)
                                       && plan.value == PlanFor(runner, repo, run, jobs[m], Age(jobs[m], run, f).value)
  {
    FirstMatchIsFirst(jobs, runner);
    if run.status != "in_progress" {
      return None;
    }
    var job := FirstMatch(jobs, runner);
    if job.None? {
      return None;
    }
    ghost var m: nat :| IsFirstMatch(jobs, runner, m) && jobs[m] == job.value;
    assert forall k: nat :: IsFirstMatch(jobs, runner, k) ==> k == m;
    if job.value.status != "in_progress" || !HasRequiredLabels(job.value, f.requiredLabels) {
      return None;
    }
    var age := Age(job.value, run, f);
    if age.None? || age.value < f.minAgeSeconds {
      return None;
    }
    assert IsZombie(runner, run, jobs, f, m);
    return Some(PlanFor(runner, repo, run, job.value, age.value));
  }

  /** The body of the innermost search, at one position. */
  method PlanAt(p: Position, runners: seq<Runner>, repoRuns: RepoRuns, f: Filter) returns (plan: Option<Plan>)
    requires InRange(p, runners, repoRuns)
    requires runners[p.runner].busy && RunnerNameAllowed(runners[p.runner].name, f.allowedPrefixes)
    ensures if plan.Some? then Calls(p, plan.value, runners, repoRuns, f) else !Planned(p, runners, repoRuns, f)
  {
    var (run, jobs) := repoRuns[p.repo].1[p.run];
    plan := PlanOne(runners[p.runner], repoRuns[p.repo].0, run, jobs, f);
  }

  /** Moving the limit past positions that call for nothing keeps the account. */
  lemma AdvanceLimit(plans: seq<Plan>, at: seq<Position>, limit: Position, limit': Position,
                     runners: seq<Runner>, repoRuns: RepoRuns, f: Filter)
    requires PlansBefore(plans, at, limit, runners, repoRuns, f)
    requires forall p :: Earlier(p, limit) ==> Earlier(p, limit')
    requires forall p :: InRange(p, runners, repoRuns) && Earlier(p, limit') && !Earlier(p, limit) ==>
                           !Planned(p, runners, repoRuns, f)
    ensures PlansBefore(plans, at, limit', runners, repoRuns, f)
  {
  }

  lemma AddPlan(plans: seq<Plan>, at: seq<Position>, p: Position, plan: Plan,
                runners: seq<Runner>, repoRuns: RepoRuns, f: Filter)
    requires PlansBefore(plans, at, p, runners, repoRuns, f)
    requires InRange(p, runners, repoRuns) && Calls(p, plan, runners, repoRuns, f)
    ensures PlansBefore(plans + [plan], at + [p], p.(run := p.run + 1), runners, repoRuns, f)
  {
    var next := p.(run := p.run + 1);
    forall q | InRange(q, runners, repoRuns) && Earlier(q, next) && Planned(q, runners, repoRuns, f) ensures q in at + [p] {
      if !Earlier(q, p) {
        assert q == p;
        assert (at + [p])[|at|] == q;
      }
    }
  }

  lemma SkipRun(plans: seq<Plan>, at: seq<Position>, p: Position, runners: seq<Runner>, repoRuns: RepoRuns, f: Filter)
    requires PlansBefore(plans, at, p, runners, repoRuns, f)
    requires InRange(p, runners, repoRuns) && !Planned(p, runners, repoRuns, f)
    ensures PlansBefore(plans, at, p.(run := p.run + 1), runners, repoRuns, f)
  {
    AdvanceLimit(plans, at, p, p.(run := p.run + 1), runners, repoRuns, f);
  }

  lemma NextRepo(plans: seq<Plan>, at: seq<Position>, p: Position, runners: seq<Runner>, repoRuns: RepoRuns, f: Filter)
    requires PlansBefore(plans, at, p, runners, repoRuns, f)
    requires p.repo < |repoRuns| && p.run == |repoRuns[p.repo].1|
    ensures PlansBefore(plans, at, Position(p.runner, p.repo + 1, 0), runners, repoRuns, f)
  {
    AdvanceLimit(plans, at, p, Position(p.runner, p.repo + 1, 0), runners, repoRuns, f);
  }

  lemma NextRunner(plans: seq<Plan>, at: seq<Position>, p: Position, runners: seq<Runner>, repoRuns: RepoRuns, f: Filter)
    requires PlansBefore(plans, at, p, runners, repoRuns, f)
    requires p.repo == |repoRuns| && p.run == 0
    ensures PlansBefore(plans, at, Position(p.runner + 1, 0, 0), runners, repoRuns, f)
  {
    AdvanceLimit(plans, at, p, Position(p.runner + 1, 0, 0), runners, repoRuns, f);
  }

  lemma SkipRunner(plans: seq<Plan>, at: seq<Position>, i: nat, runners: seq<Runner>, repoRuns: RepoRuns, f: Filter)
    requires i < |runners| && PlansBefore(plans, at, Position(i, 0, 0), runners, repoRuns, f)
    requires !(runners[i].busy && RunnerNameAllowed(runners[i].name, f.allowedPrefixes))
    ensures PlansBefore(plans, at, Position(i + 1, 0, 0), runners, repoRuns, f)
  {
    forall p | InRange(p, runners, repoRuns) && p.runner == i ensures !Planned(p, runners, repoRuns, f) {
    }
    AdvanceLimit(plans, at, Position(i, 0, 0), Position(i + 1, 0, 0), runners, repoRuns, f);
  }

  lemma NothingYet(runners: seq<Runner>, repoRuns: RepoRuns, f: Filter)
    ensures PlansBefore([], [], Position(0, 0, 0), runners, repoRuns, f)
  {
  }

  /** The innermost loop: one runner against the runs of one repository. */
  method PlanRuns(i: nat, j: nat, plans: seq<Plan>, ghost at: seq<Position>,
                  runners: seq<Runner>, repoRuns: RepoRuns, f: Filter)
    returns (plans': seq<Plan>, ghost at': seq<Position>)
    requires i < |runners| && j < |repoRuns| && PlansBefore(plans, at, Position(i, j, 0), runners, repoRuns, f)
    requires runners[i].busy && RunnerNameAllowed(runners[i].name, f.allowedPrefixes)
    ensures PlansBefore(plans', at', Position(i, j + 1, 0), runners, repoRuns, f)
  {
    plans', at' := plans, at;
    for k := 0 to |repoRuns[j].1|
      invariant PlansBefore(plans', at', Position(i, j, k), runners, repoRuns, f)
    {
      var p := Position(i, j, k);
      var plan := PlanAt(p, runners, repoRuns, f);
      if plan.Some? {
        AddPlan(plans', at', p, plan.value, runners, repoRuns, f);
        plans', at' := plans' + [plan.value], at' + [p];
      } else {
        SkipRun(plans', at', p, runners, repoRuns, f);
      }
    }
    NextRepo(plans', at', Position(i, j, |repoRuns[j].1|), runners, repoRuns, f);
  }

  /** The middle loop: one runner against every repository. */
  method PlanRunner(i: nat, plans: seq<Plan>, ghost at: seq<Position>,
                    runners: seq<Runner>, repoRuns: RepoRuns, f: Filter)
    returns (plans': seq<Plan>, ghost at': seq<Position>)
    requires i < |runners| && PlansBefore(plans, at, Position(i, 0, 0), runners, repoRuns, f)
    requires runners[i].busy && RunnerNameAllowed(runners[i].name, f.allowedPrefixes)
    ensures PlansBefore(plans', at', Position(i + 1, 0, 0), runners, repoRuns, f)
  {
    plans', at' := plans, at;
    for j := 0 to |repoRuns|
      invariant PlansBefore(plans', at', Position(i, j, 0), runners, repoRuns, f)
    {
      plans', at' := PlanRuns(i, j, plans', at', runners, repoRuns, f);
    }
    NextRunner(plans', at', Position(i, |repoRuns|, 0), runners, repoRuns, f);
  }

  /** The plans are those of the zombie positions, one each, in order. */
  method PlanReaperActions(runners: seq<Runner>, repoRuns: RepoRuns, f: Filter)
    returns (plans: seq<Plan>)
    ensures exists at :: PlansBefore(plans, at, Position(|runners|, 0, 0), runners, repoRuns, f)
  {
    plans := [];
    ghost var at: seq<Position> := [];
    NothingYet(runners, repoRuns, f);
    for i := 0 to |runners|
      invariant PlansBefore(plans, at, Position(i, 0, 0), runners, repoRuns, f)
    {
      if runners[i].busy && RunnerNameAllowed(runners[i].name, f.allowedPrefixes) {
        plans, at := PlanRunner(i, plans, at, runners, repoRuns, f);
      } else {
        SkipRunner(plans, at, i, runners, repoRuns, f);
      }
    }
  }

  // ----- Planner and executor agree ------------------------------------------------------------

  /** The same job list with job `m` finished and nothing else changed. */
  function Finished(jobs: seq<Job>, m: nat, status: string): seq<Job>
    requires m < |jobs|
  {
    jobs[m := jobs[m].(status := status)]
  }

  lemma {:induction false} FirstWithIdAt(jobs: seq<Job>, m: nat)
    requires m < |jobs|
    requires forall i :: 0 <= i < m ==> jobs[i].id != jobs[m].id
    ensures FirstWithId(jobs, jobs[m].id) == Some(jobs[m])
  {
    if m > 0 {
      FirstWithIdAt(jobs[1..], m - 1);
    }
  }

  lemma {:induction false} FirstWithIdBefore(jobs: seq<Job>, id: nat, k: nat) returns (i: nat)
    requires k < |jobs| && jobs[k].id == id
    ensures i <= k && jobs[i].id == id && FirstWithId(jobs, id) == Some(jobs[i])
  {
    if jobs[0].id == id {
      return 0;
    }
    i := FirstWithIdBefore(jobs[1..], id, k - 1);
    i := i + 1;
  }

  /**
   Once the planned job merely finishes, the executor's next lookup of the same list is terminal, so
   the runner may go, iff no earlier job of the list carries the planned job's id. Otherwise the
   lookup sees somebody else's job and the runner is kept.
   */
  lemma FinishingIsTerminalIff(
    runner: Runner, repo: string, run: WorkflowRun, jobs: seq<Job>, f: Filter, m: nat, status: string)
    requires IsZombie(runner, run, jobs, f, m) && status != "in_progress"
    ensures var plan := PlanFor(runner, repo, run, jobs[m], Age(jobs[m], run, f).value);
            var sight := Sight(plan, Some(Finished(jobs, m, status)));
            && (sight == Terminal <==> forall i :: 0 <= i < m ==> jobs[i].id != jobs[m].id)
            && (sight == Terminal || sight == CorrelationChanged)
  {
    var after := Finished(jobs, m, status);
    if forall i :: 0 <= i < m ==> jobs[i].id != jobs[m].id {
      FirstWithIdAt(after, m);
    } else {
      var k :| 0 <= k < m && jobs[k].id == jobs[m].id;
      var i := FirstWithIdBefore(after, jobs[m].id, k);
      assert !JobMatchesRunner(jobs[i], runner);
    }
  }

  /** The failing input: two jobs with one id, the first on another runner, and the planned one finishes. */
  lemma RepeatedIdKeepsTheRunner(f: Filter)
    requires f.allowedPrefixes == ["ez"] && f.requiredLabels == [] && f.minAgeSeconds == 0
    requires f.parseTimestamp("start") == Some(0)
    ensures var runner, run := Runner(1, "ez-1", true), WorkflowRun(9, "in_progress", None, "url");
            var other := Job(5, "in_progress", Some("start"), Some(2), Some("ez-2"), [], None);
            var own := Job(5, "in_progress", Some("start"), Some(1), Some("ez-1"), [], None);
            var jobs := [other, own];
            && IsZombie(runner, run, jobs, f, 1)
            && Sight(PlanFor(runner, "repo", run, jobs[1], Age(jobs[1], run, f).value), Some(Finished(jobs, 1, "completed")))
               == CorrelationChanged
  {
    var runner, run := Runner(1, "ez-1", true), WorkflowRun(9, "in_progress", None, "url");
    var jobs := [Job(5, "in_progress", Some("start"), Some(2), Some("ez-2"), [], None),
                 Job(5, "in_progress", Some("start"), Some(1), Some("ez-1"), [], None)];
    assert f.allowedPrefixes[0] == "ez" && "ez-1"[..2] == "ez" && "ez-1"[2] == '-';
    assert IsZombie(runner, run, jobs, f, 1);
    assert jobs[0].id == jobs[1].id;
    FinishingIsTerminalIff(runner, "repo", run, jobs, f, 1, "completed");
  }

  /** A fresh plan is never refused by the executor's correlation check while its job runs, ids being unique. */
  lemma FreshPlansCorrelate(runner: Runner, repo: string, run: WorkflowRun, jobs: seq<Job>, f: Filter, m: nat)
    requires IsZombie(runner, run, jobs, f, m)
    requires forall i :: 0 <= i < m ==> jobs[i].id != jobs[m].id
    ensures Sight(PlanFor(runner, repo, run, jobs[m], Age(jobs[m], run, f).value), Some(jobs)) == InProgress
  {
    FirstWithIdAt(jobs, m);
  }

  /** If every request is accepted and the first lookup is terminal, the runner is removed. */
  lemma FinishedJobIsReaped(calls: seq<Call>, plan: Plan, n: nat, first: seq<Call>, second: seq<Call>, status: Status)
    requires n > 0 && Conversation(calls, plan, n, first, second, status)
    requires forall i :: 0 <= i < |calls| ==> !calls[i].ListJobs? ==> calls[i].ok
    requires forall i :: 0 <= i < |calls| ==> calls[i].ListJobs? ==> Sight(plan, calls[i].jobs) == Terminal
    ensures status == Completed && |calls| == 3 && calls[2] == Remove(plan.runnerId, true)
  {
    assert calls[0].Cancel?;
    assert |calls| > 1 ==> calls[1] == first[0];
    assert calls[|calls| - 1].Remove? ==> calls[|calls| - 1].ok;
  }

  // ----- Zombies, written out ------------------------------------------------------------------------

  /** The job's start, or failing that its run's, reads as a time that is `age` seconds or no time ago. */
  predicate StartedAgo(job: Job, run: WorkflowRun, f: Filter, age: nat) {
    var text := if job.startedAt.Some? then job.startedAt else run.runStartedAt;
    && text.Some? && f.parseTimestamp(text.value).Some?
    && var started := f.parseTimestamp(text.value).value;
    && started >= 0
    && (started <= f.nowUnix ==> age == f.nowUnix - started) && (started > f.nowUnix ==> age == 0)
  }

  /** A zombie, by its job `m`: a busy runner with a prefix of ours whose first job in a run in progress is in
   progress, carries every required label, and is old enough. */
  ghost predicate IsOldJob(runner: Runner, run: WorkflowRun, jobs: seq<Job>, f: Filter, m: nat, age: nat) {
    && runner.busy
    && (exists i :: 0 <= i < |f.allowedPrefixes| && f.allowedPrefixes[i] + "-" <= runner.name)
    && run.status == "in_progress"
    && m < |jobs|
    && (jobs[m].runnerId == Some(runner.id) || jobs[m].runnerName == Some(runner.name))
    && (forall i :: 0 <= i < m ==> jobs[i].runnerId != Some(runner.id) && jobs[i].runnerName != Some(runner.name))
    && jobs[m].status == "in_progress"
    && (forall i :: 0 <= i < |f.requiredLabels| ==> f.requiredLabels[i] in jobs[m].labels)
    && StartedAgo(jobs[m], run, f, age) && age >= f.minAgeSeconds
  }

  lemma {:induction false} PrefixDash(prefix: string, name: string)
    ensures prefix + "-" <= name <==> |prefix| < |name| && name[..|prefix|] == prefix && name[|prefix|] == '-'
  {
    if prefix + "-" <= name {
      assert (prefix + "-")[|prefix|] == name[|prefix|];
      assert forall i :: 0 <= i < |prefix| ==> (prefix + "-")[i] == name[i];
    }
    if |prefix| < |name| && name[..|prefix|] == prefix && name[|prefix|] == '-' {
      assert name[..|prefix| + 1] == prefix + "-";
    }
  }

  /** Exactly these are planned, with this age. */
  lemma {:induction false} ZombieIff(runner: Runner, run: WorkflowRun, jobs: seq<Job>, f: Filter, m: nat)
    ensures IsZombie(runner, run, jobs, f, m) <==> exists age: nat :: IsOldJob(runner, run, jobs, f, m, age)
    ensures forall age: nat :: IsOldJob(runner, run, jobs, f, m, age) ==> Age(jobs[m], run, f) == Some(age)
  {
    forall i | 0 <= i < |f.allowedPrefixes|
      ensures f.allowedPrefixes[i] + "-" <= runner.name <==>
              && |f.allowedPrefixes[i]| < |runner.name|
              && runner.name[..|f.allowedPrefixes[i]|] == f.allowedPrefixes[i] && runner.name[|f.allowedPrefixes[i]|] == '-'
    {
      PrefixDash(f.allowedPrefixes[i], runner.name);
    }
    if IsZombie(runner, run, jobs, f, m) {
      assert StartedAgo(jobs[m], run, f, Age(jobs[m], run, f).value);
      assert IsOldJob(runner, run, jobs, f, m, Age(jobs[m], run, f).value);
    }
    forall age: nat | IsOldJob(runner, run, jobs, f, m, age) ensures IsZombie(runner, run, jobs, f, m) {
    }
  }

  /** `plan` is what the run of this repository calls for on behalf of this runner. */
  ghost predicate IsPlanOf(plan: Plan, runner: Runner, repo: string, run: WorkflowRun, jobs: seq<Job>, f: Filter, m: nat) {
    && IsOldJob(runner, run, jobs, f, m, plan.ageSeconds)
    && plan.runnerId == runner.id && plan.runnerName == runner.name && plan.repo == repo
    && plan.runId == run.id && plan.runUrl == run.htmlUrl
    && plan.jobId == jobs[m].id && plan.jobUrl == jobs[m].htmlUrl
    && plan.sequence == ["POST repos/" + repo + "/actions/runs/" + Print(run.id) + "/cancel",
                         "poll correlated job until it is no longer in_progress",
                         "DELETE runner registration " + Print(runner.id)]
  }

  /** The plans of a whole batch of runners, repositories and runs: one for each old job, in order, and no others. */
  lemma {:induction false} PlansAreOldJobs(
    plans: seq<Plan>, at: seq<Position>, runners: seq<Runner>, repoRuns: RepoRuns, f: Filter)
    requires PlansBefore(plans, at, Position(|runners|, 0, 0), runners, repoRuns, f)
    ensures |at| == |plans| && forall j, k :: 0 <= j < k < |at| ==> Earlier(at[j], at[k])
    ensures forall k :: 0 <= k < |at| ==>
              && InRange(at[k], runners, repoRuns)
              && var (repo, runs) := repoRuns[at[k].repo];
              exists m: nat ::
                IsPlanOf(plans[k], runners[at[k].runner], repo, runs[at[k].run].0, runs[at[k].run].1, f, m)
    ensures forall p, m: nat, age: nat ::
              InRange(p, runners, repoRuns)
              && IsOldJob(runners[p.runner], repoRuns[p.repo].1[p.run].0, repoRuns[p.repo].1[p.run].1, f, m, age) ==>
                p in at
  {
    forall k | 0 <= k < |at|
      ensures InRange(at[k], runners, repoRuns)
      ensures var (repo, runs) := repoRuns[at[k].repo];
              exists m: nat ::
                IsPlanOf(plans[k], runners[at[k].runner], repo, runs[at[k].run].0, runs[at[k].run].1, f, m)
    {
      assert Calls(at[k], plans[k], runners, repoRuns, f);
      var (run, jobs) := repoRuns[at[k].repo].1[at[k].run];
      var m: nat :| IsZombie(runners[at[k].runner], run, jobs, f, m)
                    && plans[k] == PlanFor(runners[at[k].runner], repoRuns[at[k].repo].0, run, jobs[m], Age(jobs[m], run, f).value);
      ZombieIff(runners[at[k].runner], run, jobs, f, m);
      assert IsPlanOf(plans[k], runners[at[k].runner], repoRuns[at[k].repo].0, run, jobs, f, m);
    }
    forall p, m: nat, age: nat |
      InRange(p, runners, repoRuns)
      && IsOldJob(runners[p.runner], repoRuns[p.repo].1[p.run].0, repoRuns[p.repo].1[p.run].1, f, m, age)
      ensures p in at
    {
      var (run, jobs) := repoRuns[p.repo].1[p.run];
      ZombieIff(runners[p.runner], run, jobs, f, m);
      assert Planned(p, runners, repoRuns, f);
      assert Earlier(p, Position(|runners|, 0, 0));
    }
  }
}
