/**
 Bounded sampling of job outcomes (scripts/job_outcome_monitor.py): request budgets, two collection
 loops with early exits, and a verdict. GitHub's replies and the clock are arbitrary. A parsed
 timestamp is an `int`; JSON values of an unexpected shape are `None` or the `Malformed` cases.
 */
module OutcomeMonitor {
  import opened Wrappers
  import opened StableSort

  datatype RunJson = MalformedRun | RunJson(id: int, status: string, createdAt: Option<int>)

  datatype JobJson =
    | MalformedJob
    | JobJson(id: int, runnerName: Option<string>, status: string, conclusion: string, completedAt: Option<int>)

  /** A JSON object: the fields this script reads, `None` where they are missing or of another type. */
  datatype Payload = Payload(runs: Option<seq<RunJson>>, jobs: Option<seq<JobJson>>, totalCount: Option<int>)

  datatype Reason =
    | RequestBudgetExhausted
    | RequestBudgetTooSmallForRepoLists
    | ProbeDeadlineExhausted
    | ApiFailure(kind: string)
    | RunListInvalid(repo: string)
    | RunListTruncated(repo: string)
    | RunInvalid(repo: string)
    | RunNotCompleted(repo: string, run: int)
    | RunTimestampInvalid(repo: string, run: int)
    | RunOutsideWindow(repo: string, run: int)
    | JobListInvalid(repo: string, run: int)
    | JobListTruncated(repo: string, run: int)
    | JobInvalid(repo: string, run: int)
    | JobNotCompleted(repo: string, job: int)
    | JobConclusionInvalid(repo: string, job: int)
    | JobTimestampInvalid(repo: string, job: int)
    | JobOutsideWindow(repo: string, job: int)
    | DuplicateJob(job: int)
    | RunnerPrefixUnavailable
    | InsufficientSample

  datatype Path = RunsPath(repo: string) | JobsPath(repo: string, run: int)

  /** `Failed` is a `gh` that broke, exited nonzero or printed no JSON object; `AtDeadline` one that ran out of probe time. */
  datatype Reply = Failed(kind: string) | AtDeadline | Object(payload: Payload)

  datatype Exchange = Exchange(path: Path, reply: Reply)

  const BLOCKED: set<Reason> := {RequestBudgetExhausted, ProbeDeadlineExhausted}

  function Interpreted(reply: Reply): Result<Payload, Reason> {
    match reply
    case Failed(kind) => Err(ApiFailure(kind))
    case AtDeadline => Err(ProbeDeadlineExhausted)
    case Object(payload) => Ok(payload)
  }

  // ----- The budgeted client -----------------------------------------------------------------

  class GithubApi {
    const maximumRequests: nat
    const deadline: nat
    const replies: nat -> Reply
    const clock: nat -> nat
    var requests: nat
    var clockReads: nat
    var probeDeadlineExhausted: bool
    var log: seq<Exchange>

    /** The deadline flag is only ever set with a cause: the clock, or a request that ran out of probe time. */
    ghost predicate Valid()
      reads this
    {
      && requests == |log| && requests <= maximumRequests
      && (probeDeadlineExhausted ==>
            || (exists k :: 0 < k <= clockReads && clock(k) >= deadline)
            || (exists e :: e in log && e.reply.AtDeadline?))
    }

    constructor (maximumRequests: nat, deadline: nat, replies: nat -> Reply, clock: nat -> nat)
      ensures Valid() && requests == 0 && !probeDeadlineExhausted
      ensures this.maximumRequests == maximumRequests && this.deadline == deadline
    {
      this.maximumRequests, this.deadline, this.replies, this.clock := maximumRequests, deadline, replies, clock;
      requests, clockReads, probeDeadlineExhausted, log := 0, 0, false, [];
    }

    method BlockReason() returns (blocked: Option<Reason>)
      requires Valid()
      modifies this
      ensures Valid() && log == old(log)
      ensures blocked == Some(RequestBudgetExhausted) <==> requests == maximumRequests
      ensures blocked == Some(ProbeDeadlineExhausted) <==>
                requests < maximumRequests && clockReads == old(clockReads) + 1 && clock(clockReads) >= deadline
      ensures blocked.Some? ==> blocked.value in BLOCKED
      ensures probeDeadlineExhausted == (old(probeDeadlineExhausted) || blocked == Some(ProbeDeadlineExhausted))
    {
      if requests >= maximumRequests {
        return Some(RequestBudgetExhausted);
      }
      clockReads := clockReads + 1;
      if clock(clockReads) >= deadline {
        probeDeadlineExhausted := true;
        return Some(ProbeDeadlineExhausted);
      }
      return None;
    }

    /** One request, unless blocked; a blocked one is not sent, and is the caller's error. */
    method Get(path: Path) returns (result: Result<Payload, Reason>)
      requires Valid()
      modifies this
      ensures Valid()
      ensures if |log| == |old(log)| then log == old(log) && result.Err? && result.error in BLOCKED
              else log != [] && var reply := log[|log| - 1].reply;
                   log == old(log) + [Exchange(path, reply)] && result == Interpreted(reply)
      ensures old(requests) == maximumRequests <==> result == Err(RequestBudgetExhausted)
      ensures probeDeadlineExhausted == (old(probeDeadlineExhausted) || result == Err(ProbeDeadlineExhausted))
    {
      var blocked := BlockReason();
      if blocked.Some? {
        return Err(blocked.value);
      }
      var reply := replies(requests);
      requests := requests + 1;
      log := log + [Exchange(path, reply)];
      if reply.AtDeadline? {
        probeDeadlineExhausted := true;
      }
      return Interpreted(reply);
    }
  }

  // ----- What is asked for ----------------------------------------------------------------------

  datatype Query = Query(repos: seq<string>, prefix: string, start: int, end: int, sampleTarget: nat, maximumRuns: nat)

  predicate RunnerMatches(name: string, prefix: string) {
    name == prefix || (|name| > |prefix| && name[..|prefix|] == prefix && name[|prefix|] == '-')
  }

  predicate InWindow(at: int, q: Query) {
    q.start <= at <= q.end
  }

  datatype Candidate = Candidate(createdAt: int, repo: string, run: int)

  datatype Sampled = Sampled(id: int, conclusion: string, completedAt: int)

  predicate GoodRun(r: RunJson, q: Query) {
    r.RunJson? && r.status == "completed" && r.createdAt.Some? && InWindow(r.createdAt.value, q)
  }

  predicate OnOurRunner(j: JobJson, q: Query) {
    j.JobJson? && j.runnerName.Some? && RunnerMatches(j.runnerName.value, q.prefix)
  }

  predicate GoodJob(j: JobJson, q: Query) {
    && OnOurRunner(j, q) && j.status == "completed" && j.conclusion != ""
    && j.completedAt.Some? && InWindow(j.completedAt.value, q)
  }

  function AsCandidate(r: RunJson, repo: string): Candidate
    requires r.RunJson? && r.createdAt.Some?
  {
    Candidate(r.createdAt.value, repo, r.id)
  }

  function AsSampled(j: JobJson): Sampled
    requires j.JobJson? && j.completedAt.Some?
  {
    Sampled(j.id, j.conclusion, j.completedAt.value)
  }

  // ----- What may be wrong with a reply -----------------------------------------------------------

  function RunFlaw(r: RunJson, repo: string, q: Query): (flaw: Option<Reason>)
    ensures flaw.None? <==> GoodRun(r, q)
  {
    if r.MalformedRun? then Some(RunInvalid(repo))
    else if r.status != "completed" then Some(RunNotCompleted(repo, r.id))
    else if r.createdAt.None? then Some(RunTimestampInvalid(repo, r.id))
    else if !InWindow(r.createdAt.value, q) then Some(RunOutsideWindow(repo, r.id))
    else None
  }

  function JobFlaw(j: JobJson, repo: string, run: int, q: Query): (flaw: Option<Reason>)
    ensures flaw.None? <==> j.JobJson? && (OnOurRunner(j, q) ==> GoodJob(j, q))
  {
    if j.MalformedJob? then Some(JobInvalid(repo, run))
    else if !OnOurRunner(j, q) then None
    else if j.status != "completed" then Some(JobNotCompleted(repo, j.id))
    else if j.conclusion == "" then Some(JobConclusionInvalid(repo, j.id))
    else if j.completedAt.None? then Some(JobTimestampInvalid(repo, j.id))
    else if !InWindow(j.completedAt.value, q) then Some(JobOutsideWindow(repo, j.id))
    else None
  }

  function Expected(total: int, q: Query): int {
    if total > q.maximumRuns then q.maximumRuns else total
  }

  /** The exchange itself gives the reason: its failure, its list or an entry of its list. */
  ghost predicate Faulty(e: Exchange, q: Query, r: Reason) {
    match e.reply
    case Failed(kind) => r == ApiFailure(kind)
    case AtDeadline => r == ProbeDeadlineExhausted
    case Object(p) =>
      match e.path
      case RunsPath(repo) =>
        if p.runs.None? || p.totalCount.None? then r == RunListInvalid(repo)
        else if |p.runs.value| != Expected(p.totalCount.value, q) then r == RunListTruncated(repo)
        else exists x :: x in p.runs.value && RunFlaw(x, repo, q) == Some(r)
      case JobsPath(repo, run) =>
        if p.jobs.None? || p.totalCount.None? then r == JobListInvalid(repo, run)
        else if |p.jobs.value| != p.totalCount.value then r == JobListTruncated(repo, run)
        else exists x :: x in p.jobs.value && JobFlaw(x, repo, run, q) == Some(r)
  }

  /** Job `id` stands on one of our runners at place `k` of exchange `e`. */
  ghost predicate Occurs(log: seq<Exchange>, e: nat, k: nat, id: int, q: Query) {
    && e < |log| && log[e].path.JobsPath? && log[e].reply.Object? && log[e].reply.payload.jobs.Some?
    && var jobs := log[e].reply.payload.jobs.value;
    && k < |jobs| && OnOurRunner(jobs[k], q) && jobs[k].id == id
  }

  ghost predicate OccursTwice(log: seq<Exchange>, id: int, q: Query) {
    exists e: nat, k: nat, e': nat, k': nat ::
      Occurs(log, e, k, id, q) && Occurs(log, e', k', id, q) && (e != e' || k != k')
  }

  /** The reason has its cause in what was received, in the budget or in the probe deadline. */
  ghost predicate Caused(r: Reason, q: Query, log: seq<Exchange>, budget: nat, late: bool) {
    || ((r.RequestBudgetExhausted? || r.RequestBudgetTooSmallForRepoLists?) && |log| == budget)
    || (r.ProbeDeadlineExhausted? && late)
    || (exists e :: e in log && Faulty(e, q, r))
    || (r.DuplicateJob? && OccursTwice(log, r.job, q))
  }

  ghost predicate AllCaused(reasons: set<Reason>, q: Query, log: seq<Exchange>, budget: nat, late: bool) {
    forall r :: r in reasons ==> Caused(r, q, log, budget, late)
  }

  lemma {:induction false} CausedMore(
    r: Reason, q: Query, log: seq<Exchange>, log': seq<Exchange>, budget: nat, late: bool, late': bool)
    requires Caused(r, q, log, budget, late) && log <= log' && |log'| <= budget && (late ==> late')
    ensures Caused(r, q, log', budget, late')
  {
    if e :| e in log && Faulty(e, q, r) {
      assert e in log' && Faulty(e, q, r);
    } else if r.DuplicateJob? {
      var e: nat, k: nat, e': nat, k': nat :|
        Occurs(log, e, k, r.job, q) && Occurs(log, e', k', r.job, q) && (e != e' || k != k');
      assert Occurs(log', e, k, r.job, q) && Occurs(log', e', k', r.job, q);
    }
  }

  lemma {:induction false} AllCausedMore(
    reasons: set<Reason>, q: Query, log: seq<Exchange>, log': seq<Exchange>, budget: nat, late: bool, late': bool)
    requires AllCaused(reasons, q, log, budget, late) && log <= log' && |log'| <= budget && (late ==> late')
    ensures AllCaused(reasons, q, log', budget, late')
  {
    forall r | r in reasons ensures Caused(r, q, log', budget, late') {
      CausedMore(r, q, log, log', budget, late, late');
    }
  }

  /** What `Get` fails with: nothing was sent, or what was sent failed. */
  lemma {:induction false} UnansweredIsCaused(error: Reason, q: Query, log: seq<Exchange>, budget: nat, late: bool)
    requires error in BLOCKED || (log != [] && Interpreted(log[|log| - 1].reply) == Err(error))
    requires error.RequestBudgetExhausted? ==> |log| == budget
    requires error.ProbeDeadlineExhausted? ==> late
    ensures Caused(error, q, log, budget, late)
  {
    if error !in BLOCKED {
      assert Faulty(log[|log| - 1], q, error);
    }
  }

  /** A reply nothing is wrong with. */
  ghost predicate IsClean(e: Exchange, q: Query) {
    && e.reply.Object?
    && var p := e.reply.payload;
    match e.path
    case RunsPath(repo) =>
      p.runs.Some? && p.totalCount.Some? && GoodRunList(RunList(repo, p.runs.value, p.totalCount.value), q)
    case JobsPath(repo, run) =>
      p.jobs.Some? && p.totalCount == Some(|p.jobs.value|) && AllUsable(p.jobs.value, q)
  }

  lemma {:induction false} CleanIsFaultless(e: Exchange, q: Query, r: Reason)
    requires IsClean(e, q)
    ensures !Faulty(e, q, r)
  {
    assert e.path.RunsPath? ==>
        GoodRunList(RunList(e.path.repo, e.reply.payload.runs.value, e.reply.payload.totalCount.value), q);
  }

  /** Clean replies, no job listed twice, budget and time left: no reason has a cause. */
  lemma {:induction false} CleanLogGivesNoReason(reasons: set<Reason>, q: Query, log: seq<Exchange>, budget: nat)
    requires AllCaused(reasons, q, log, budget, false)
    requires forall e :: e in log ==> IsClean(e, q)
    requires forall id :: !OccursTwice(log, id, q)
    requires |log| < budget
    ensures reasons == {}
  {
    forall r | r in reasons ensures false {
      assert Caused(r, q, log, budget, false);
      var e :| e in log && Faulty(e, q, r);
      CleanIsFaultless(e, q, r);
    }
  }

  // ----- Samples and candidates ---------------------------------------------------------------------

  /** The jobs of a list that ran on our runners, as samples. */
  function Matching(jobs: seq<JobJson>, q: Query): seq<Sampled>
    requires forall j :: j in jobs && OnOurRunner(j, q) ==> GoodJob(j, q)
  {
    if jobs == [] then []
    else
      var last := jobs[|jobs| - 1];
      assert last in jobs && (OnOurRunner(last, q) ==> GoodJob(last, q));
      Matching(jobs[..|jobs| - 1], q)
      + (if OnOurRunner(last, q) then [AsSampled(last)] else [])
  }

  predicate AllUsable(jobs: seq<JobJson>, q: Query) {
    forall j :: j in jobs ==> j.JobJson? && (OnOurRunner(j, q) ==> GoodJob(j, q))
  }

  /** A job list as fetched for one candidate run. */
  datatype JobList = JobList(run: Candidate, jobs: seq<JobJson>)

  predicate AllUsableLists(lists: seq<JobList>, q: Query) {
    forall l :: l in lists ==> AllUsable(l.jobs, q)
  }

  function AllMatching(lists: seq<JobList>, q: Query): seq<Sampled>
    requires AllUsableLists(lists, q)
  {
    if lists == [] then [] else AllMatching(lists[..|lists| - 1], q) + Matching(lists[|lists| - 1].jobs, q)
  }

  datatype RunList = RunList(repo: string, runs: seq<RunJson>, total: int)

  function CandidatesOf(l: RunList, q: Query): seq<Candidate>
    requires forall r :: r in l.runs ==> GoodRun(r, q)
    decreases |l.runs|
  {
    if l.runs == [] then []
    else
      assert l.runs[|l.runs| - 1] in l.runs && GoodRun(l.runs[|l.runs| - 1], q);
      CandidatesOf(l.(runs := l.runs[..|l.runs| - 1]), q) + [AsCandidate(l.runs[|l.runs| - 1], l.repo)]
  }

  predicate GoodRunList(l: RunList, q: Query) {
    && (forall r :: r in l.runs ==> GoodRun(r, q))
    && |l.runs| == (if l.total > q.maximumRuns then q.maximumRuns else l.total)
  }

  predicate GoodRunLists(lists: seq<RunList>, q: Query) {
    forall l :: l in lists ==> GoodRunList(l, q)
  }

  function AllCandidates(lists: seq<RunList>, q: Query): seq<Candidate>
    requires GoodRunLists(lists, q)
  {
    if lists == [] then []
    else
      assert lists[|lists| - 1] in lists && GoodRunList(lists[|lists| - 1], q);
      AllCandidates(lists[..|lists| - 1], q) + CandidatesOf(lists[|lists| - 1], q)
  }

  /** The lists answer the repositories asked for, in order, and were received from GitHub. */
  ghost predicate ListsAnswer(lists: seq<RunList>, repos: seq<string>, q: Query, log: seq<Exchange>) {
    && |lists| == |repos| && GoodRunLists(lists, q)
    && forall k :: 0 <= k < |lists| ==> lists[k].repo == repos[k] && RunListReceived(lists[k], log)
  }

  ghost predicate RunListReceived(l: RunList, log: seq<Exchange>) {
    exists jobs :: Exchange(RunsPath(l.repo), Object(Payload(Some(l.runs), jobs, Some(l.total)))) in log
  }

  /** The lists answer the candidates asked about, in order, whole, and were received from GitHub. */
  ghost predicate JobListsAnswer(lists: seq<JobList>, candidates: seq<Candidate>, q: Query, log: seq<Exchange>) {
    && |lists| == |candidates| && AllUsableLists(lists, q)
    && forall k :: 0 <= k < |lists| ==> lists[k].run == candidates[k] && JobListReceived(lists[k], log)
  }

  ghost predicate JobListReceived(l: JobList, log: seq<Exchange>) {
    exists runs ::
      Exchange(JobsPath(l.run.repo, l.run.run), Object(Payload(runs, Some(l.jobs), Some(|l.jobs|)))) in log
  }

  predicate Capped(l: RunList, q: Query) {
    l.total > q.maximumRuns
  }

  // ----- Orders ------------------------------------------------------------------------------------

  predicate LexGreater(a: string, b: string)
    decreases |a|
  {
    a != [] && (b == [] || a[0] > b[0] || (a[0] == b[0] && LexGreater(a[1..], b[1..])))
  }

  /** Descending tuple order of (created_at, repo, id). */
  predicate NewerRun(a: Candidate, b: Candidate) {
    || a.createdAt > b.createdAt
    || (a.createdAt == b.createdAt && (LexGreater(a.repo, b.repo) || (a.repo == b.repo && a.run > b.run)))
  }

  predicate NewerJob(a: Sampled, b: Sampled) {
    a.completedAt > b.completedAt
  }

  function Newest(jobs: seq<Sampled>, n: nat): seq<Sampled> {
    var sorted := Sort(jobs, NewerJob);
    if |sorted| <= n then sorted else sorted[..n]
  }

  // ----- Collecting ----------------------------------------------------------------------------

  /** The candidate is a good run of a list received for its repository. */
  ghost predicate CandidateListed(c: Candidate, q: Query, log: seq<Exchange>) {
    exists e, r :: e in log && e.path == RunsPath(c.repo) && e.reply.Object? && e.reply.payload.runs.Some?
                   && r in e.reply.payload.runs.value && GoodRun(r, q) && c == AsCandidate(r, c.repo)
  }

  ghost predicate IsAsked(repo: string, log: seq<Exchange>) {
    exists e :: e in log && e.path == RunsPath(repo)
  }

  /** Every one of the repositories was asked for its runs. */
  ghost predicate AllAsked(repos: seq<string>, log: seq<Exchange>) {
    forall repo :: repo in repos ==> IsAsked(repo, log)
  }

  lemma {:induction false} AllAskedMore(repos: seq<string>, log: seq<Exchange>, log': seq<Exchange>)
    requires AllAsked(repos, log) && log <= log'
    ensures AllAsked(repos, log')
  {
    forall repo | repo in repos ensures IsAsked(repo, log') {
      assert IsAsked(repo, log);
    }
  }

  /** A request that was not sent for want of budget or time. */
  predicate WasBlocked(reasons: set<Reason>) {
    RequestBudgetExhausted in reasons || RequestBudgetTooSmallForRepoLists in reasons || ProbeDeadlineExhausted in reasons
  }

  ghost predicate AllListed(cs: seq<Candidate>, q: Query, log: seq<Exchange>) {
    forall c :: c in cs ==> CandidateListed(c, q, log)
  }

  lemma {:induction false} AllListedMore(cs: seq<Candidate>, q: Query, log: seq<Exchange>, log': seq<Exchange>)
    requires AllListed(cs, q, log) && log <= log'
    ensures AllListed(cs, q, log')
  {
    forall c | c in cs ensures CandidateListed(c, q, log') {
      assert CandidateListed(c, q, log);
    }
  }

  /** One repository's run list: its candidates, or as many as preceded the first bad entry, and the error. */
  method ListRuns(api: GithubApi, repo: string, q: Query)
    returns (accepted: seq<Candidate>, reported: int, capped: bool, error: Option<Reason>, ghost list: RunList)
    requires api.Valid()
    modifies api
    ensures api.Valid() && old(api.log) <= api.log
    ensures api.probeDeadlineExhausted == (old(api.probeDeadlineExhausted) || error == Some(ProbeDeadlineExhausted))
    ensures error.Some? ==> Caused(error.value, q, api.log, api.maximumRequests, api.probeDeadlineExhausted)
    ensures (error.Some? && error.value in BLOCKED) || IsAsked(repo, api.log)
    ensures AllListed(accepted, q, api.log)
    ensures error.None? ==>
              && list.repo == repo && GoodRunList(list, q) && capped == Capped(list, q) && reported == list.total
              && accepted == CandidatesOf(list, q)
              && RunListReceived(list, api.log)
  {
    accepted, reported, capped, error, list := [], 0, false, None, RunList(repo, [], 0);
    var result := api.Get(RunsPath(repo));
    if result.Err? {
      error := Some(result.error);
      UnansweredIsCaused(result.error, q, api.log, api.maximumRequests, api.probeDeadlineExhausted);
      return;
    }
    ghost var sent := Exchange(RunsPath(repo), Object(result.value));
    assert api.log[|api.log| - 1] == sent;
    if result.value.runs.None? || result.value.totalCount.None? {
      error := Some(RunListInvalid(repo));
      assert Faulty(sent, q, error.value);
      return;
    }
    var runs, total := result.value.runs.value, result.value.totalCount.value;
    reported := total;
    var expected := if total > q.maximumRuns then q.maximumRuns else total;
    if |runs| != expected {
      error := Some(RunListTruncated(repo));
      assert Faulty(sent, q, error.value);
      return;
    }
    capped := total > q.maximumRuns;
    list := RunList(repo, runs, total);
    assert result.value == Payload(Some(runs), result.value.jobs, Some(total));
    for i := 0 to |runs|
      invariant forall r :: r in runs[..i] ==> GoodRun(r, q)
      invariant accepted == CandidatesOf(list.(runs := runs[..i]), q)
      invariant error.None? && api.probeDeadlineExhausted == old(api.probeDeadlineExhausted)
      invariant AllListed(accepted, q, api.log)
    {
      var run := runs[i];
      error := RunFlaw(run, repo, q);
      if error.Some? {
        assert Faulty(sent, q, error.value);
        return;
      }
      assert runs[..i + 1] == runs[..i] + [run];
      assert runs[..i + 1][..i] == runs[..i];
      accepted := accepted + [AsCandidate(run, repo)];
    }
    assert runs[..|runs|] == runs;
  }

  /** Samples are distinct by id, inside the window, and were good jobs on our runners. */
  ghost predicate GoodSamples(sampled: seq<Sampled>, q: Query, log: seq<Exchange>) {
    && (forall i, j :: 0 <= i < j < |sampled| ==> sampled[i].id != sampled[j].id)
    && (forall s :: s in sampled ==> FromLog(s, q, log))
  }

  ghost predicate FromLog(s: Sampled, q: Query, log: seq<Exchange>) {
    && InWindow(s.completedAt, q)
    && exists e, j ::
      && e in log && e.path.JobsPath? && e.reply.Object? && e.reply.payload.jobs.Some?
      && j in e.reply.payload.jobs.value && GoodJob(j, q) && s == AsSampled(j)
  }

  /** Every id seen stands on one of our runners before place `k` of exchange `e`. */
  ghost predicate SeenBefore(seen: set<int>, q: Query, log: seq<Exchange>, e: nat, k: nat) {
    forall id :: id in seen ==> exists e': nat, k': nat :: Occurs(log, e', k', id, q) && (e' < e || (e' == e && k' < k))
  }

  lemma {:induction false} SeenMore(
    seen: set<int>, q: Query, log: seq<Exchange>, log': seq<Exchange>, e: nat, k: nat, e': nat, k': nat)
    requires SeenBefore(seen, q, log, e, k) && log <= log' && (e < e' || (e == e' && k <= k'))
    ensures SeenBefore(seen, q, log', e', k')
  {
    forall id | id in seen ensures exists a: nat, b: nat :: Occurs(log', a, b, id, q) && (a < e' || (a == e' && b < k')) {
      var a: nat, b: nat :| Occurs(log, a, b, id, q) && (a < e || (a == e && b < k));
      assert Occurs(log', a, b, id, q);
    }
  }

  lemma {:induction false} SeenOneMore(seen: set<int>, q: Query, log: seq<Exchange>, e: nat, k: nat, id: int)
    requires SeenBefore(seen, q, log, e, k) && Occurs(log, e, k, id, q)
    ensures SeenBefore(seen + {id}, q, log, e, k + 1)
  {
    SeenMore(seen, q, log, log, e, k, e, k + 1);
  }

  lemma {:induction false} SeenAgain(seen: set<int>, q: Query, log: seq<Exchange>, e: nat, k: nat, id: int)
    requires SeenBefore(seen, q, log, e, k) && Occurs(log, e, k, id, q) && id in seen
    ensures OccursTwice(log, id, q)
  {
  }

  /** What the jobs taken so far leave behind: good samples whose ids were seen before place `k`. */
  ghost predicate TakenBefore(sampled: seq<Sampled>, seen: set<int>, q: Query, log: seq<Exchange>, e: nat, k: nat) {
    && GoodSamples(sampled, q, log) && seen == (set s | s in sampled :: s.id)
    && SeenBefore(seen, q, log, e, k)
  }

  /** Job `k` of the reply last received: passed over, appended or refused. */
  method TakeJob(job: JobJson, repo: string, run: int, q: Query, sampled: seq<Sampled>, seen: set<int>,
                 ghost k: nat, ghost log: seq<Exchange>, ghost source: Exchange)
    returns (sampled': seq<Sampled>, seen': set<int>, error: Option<Reason>)
    requires IsSource(source, repo, run, log) && k < |source.reply.payload.jobs.value|
    requires job == source.reply.payload.jobs.value[k] && TakenBefore(sampled, seen, q, log, |log| - 1, k)
    ensures error.Some? ==>
              && sampled' == sampled && seen' == seen
              && (Faulty(source, q, error.value) || (error.value.DuplicateJob? && OccursTwice(log, error.value.job, q)))
    ensures error != Some(ProbeDeadlineExhausted)
    ensures error.None? ==>
              && JobFlaw(job, repo, run, q).None? && TakenBefore(sampled', seen', q, log, |log| - 1, k + 1)
              && sampled' == sampled + if OnOurRunner(job, q) then [AsSampled(job)] else []
  {
    sampled', seen' := sampled, seen;
    error := JobFlaw(job, repo, run, q);
    if error.Some? {
      return;
    }
    SeenMore(seen, q, log, log, |log| - 1, k, |log| - 1, k + 1);
    if !OnOurRunner(job, q) {
      return;
    }
    assert Occurs(log, |log| - 1, k, job.id, q);
    if job.id in seen {
      error := Some(DuplicateJob(job.id));
      SeenAgain(seen, q, log, |log| - 1, k, job.id);
      return;
    }
    SeenOneMore(seen, q, log, |log| - 1, k, job.id);
    assert FromLog(AsSampled(job), q, log);
    seen' := seen + {job.id};
    sampled' := sampled + [AsSampled(job)];
  }

  /** The job list last received, whole. */
  ghost predicate IsSource(source: Exchange, repo: string, run: int, log: seq<Exchange>) {
    && log != [] && source == log[|log| - 1] && source.path == JobsPath(repo, run) && source.reply.Object?
    && source.reply.payload.jobs.Some?
    && source.reply.payload.totalCount == Some(|source.reply.payload.jobs.value|)
  }

  lemma {:induction false} MatchingGrows(jobs: seq<JobJson>, i: nat, q: Query)
    requires i < |jobs| && AllUsable(jobs[..i], q) && (OnOurRunner(jobs[i], q) ==> GoodJob(jobs[i], q)) && jobs[i].JobJson?
    ensures AllUsable(jobs[..i + 1], q)
    ensures Matching(jobs[..i + 1], q) == Matching(jobs[..i], q) + if OnOurRunner(jobs[i], q) then [AsSampled(jobs[i])] else []
  {
    assert jobs[..i + 1] == jobs[..i] + [jobs[i]] && jobs[..i + 1][..i] == jobs[..i];
  }

  /** The jobs of one run, appended until the first bad entry. */
  method ScanJobs(jobs: seq<JobJson>, repo: string, run: int, q: Query, sampled: seq<Sampled>, seen: set<int>,
                  ghost log: seq<Exchange>, ghost source: Exchange, ghost budget: nat, ghost late: bool)
    returns (sampled': seq<Sampled>, seen': set<int>, error: Option<Reason>)
    requires IsSource(source, repo, run, log) && source.reply.payload.jobs == Some(jobs)
    requires TakenBefore(sampled, seen, q, log, |log| - 1, 0)
    ensures TakenBefore(sampled', seen', q, log, |log|, 0) && sampled <= sampled'
    ensures error.Some? ==> Caused(error.value, q, log, budget, late)
    ensures error != Some(ProbeDeadlineExhausted)
    ensures error.None? ==> AllUsable(jobs, q) && sampled' == sampled + Matching(jobs, q)
  {
    sampled', seen', error := sampled, seen, None;
    for i := 0 to |jobs|
      invariant error.None? && AllUsable(jobs[..i], q)
      invariant sampled' == sampled + Matching(jobs[..i], q)
      invariant TakenBefore(sampled', seen', q, log, |log| - 1, i)
    {
      sampled', seen', error := TakeJob(jobs[i], repo, run, q, sampled', seen', i, log, source);
      if error.Some? {
        SeenMore(seen', q, log, log, |log| - 1, i, |log|, 0);
        return;
      }
      MatchingGrows(jobs, i, q);
    }
    assert jobs[..|jobs|] == jobs;
    SeenMore(seen', q, log, log, |log| - 1, |jobs|, |log|, 0);
  }

  datatype Metadata = Metadata(
    reportedRuns: int,
    candidateRuns: nat,
    runsScanned: nat,
    runCapsReached: seq<string>,
    apiRequestCapReached: bool,
    eligibleRunPopulationComplete: bool,
    probeDeadlineExhausted: bool)

  /** The repositories whose list was capped. */
  function CappedRepos(lists: seq<RunList>, q: Query): seq<string> {
    if lists == [] then []
    else CappedRepos(lists[..|lists| - 1], q)
         + (if Capped(lists[|lists| - 1], q) then [lists[|lists| - 1].repo] else [])
  }

  /** The runs that GitHub reported, fetched or not. */
  function SumTotals(lists: seq<RunList>): int {
    if lists == [] then 0 else SumTotals(lists[..|lists| - 1]) + lists[|lists| - 1].total
  }

  lemma ListsAnswerMore(lists: seq<RunList>, repos: seq<string>, q: Query, log: seq<Exchange>, log': seq<Exchange>)
    requires ListsAnswer(lists, repos, q, log) && log <= log'
    ensures ListsAnswer(lists, repos, q, log')
  {
    forall k | 0 <= k < |lists| ensures RunListReceived(lists[k], log') {
      var jobs :| Exchange(RunsPath(lists[k].repo), Object(Payload(Some(lists[k].runs), jobs, Some(lists[k].total)))) in log;
    }
  }

  lemma {:induction false} AddRunList(lists: seq<RunList>, repos: seq<string>, q: Query, log: seq<Exchange>, l: RunList)
    requires ListsAnswer(lists, repos, q, log) && GoodRunList(l, q) && RunListReceived(l, log)
    ensures ListsAnswer(lists + [l], repos + [l.repo], q, log)
    ensures AllCandidates(lists + [l], q) == AllCandidates(lists, q) + CandidatesOf(l, q)
    ensures CappedRepos(lists + [l], q) == CappedRepos(lists, q) + if Capped(l, q) then [l.repo] else []
    ensures SumTotals(lists + [l]) == SumTotals(lists) + l.total
  {
    assert (lists + [l])[..|lists|] == lists;
  }

  /** What the first loop has after these repositories: candidates from lists, reasons with causes, and no list skipped. */
  ghost predicate Listed(repos: seq<string>, candidates: seq<Candidate>, reported: int, caps: seq<string>,
                         reasons: set<Reason>, lists: seq<RunList>, q: Query, log: seq<Exchange>, budget: nat, late: bool)
  {
    && AllCaused(reasons, q, log, budget, late) && AllListed(candidates, q, log)
    && (WasBlocked(reasons) || AllAsked(repos, log))
    && (reasons == {} ==>
          && ListsAnswer(lists, repos, q, log) && candidates == AllCandidates(lists, q)
          && caps == CappedRepos(lists, q) && reported == SumTotals(lists))
  }

  lemma {:induction false} ListedMore(
    repos: seq<string>, candidates: seq<Candidate>, reported: int, caps: seq<string>, reasons: set<Reason>,
    lists: seq<RunList>, q: Query, log: seq<Exchange>, log': seq<Exchange>, budget: nat, late: bool, late': bool)
    requires Listed(repos, candidates, reported, caps, reasons, lists, q, log, budget, late)
    requires log <= log' && |log'| <= budget && (late ==> late')
    ensures Listed(repos, candidates, reported, caps, reasons, lists, q, log', budget, late')
  {
    AllCausedMore(reasons, q, log, log', budget, late, late');
    AllListedMore(candidates, q, log, log');
    if AllAsked(repos, log) {
      AllAskedMore(repos, log, log');
    }
    if reasons == {} {
      ListsAnswerMore(lists, repos, q, log, log');
    }
  }

  lemma {:induction false} ListedNext(
    repos: seq<string>, candidates: seq<Candidate>, reported: int, caps: seq<string>, reasons: set<Reason>,
    lists: seq<RunList>, q: Query, log: seq<Exchange>, budget: nat, late: bool,
    repo: string, accepted: seq<Candidate>, count: int, capped: bool, error: Option<Reason>, list: RunList)
    requires Listed(repos, candidates, reported, caps, reasons, lists, q, log, budget, late)
    requires error.Some? ==> Caused(error.value, q, log, budget, late)
    requires (error.Some? && error.value in BLOCKED) || IsAsked(repo, log)
    requires AllListed(accepted, q, log)
    requires error.None? ==>
               && list.repo == repo && GoodRunList(list, q) && capped == Capped(list, q) && count == list.total
               && accepted == CandidatesOf(list, q) && RunListReceived(list, log)
    ensures Listed(repos + [repo], candidates + accepted, reported + count, caps + (if capped then [repo] else []),
                   reasons + (if error.Some? then {error.value} else {}),
                   if error.None? && reasons == {} then lists + [list] else lists, q, log, budget, late)
  {
    if error.None? && reasons == {} {
      AddRunList(lists, repos, q, log, list);
    }
  }

  /** The first loop: every repository's run list. An error does not stop it, a blocked request does. */
  method CollectRuns(api: GithubApi, q: Query)
    returns (candidates: seq<Candidate>, reported: int, caps: seq<string>, reasons: set<Reason>, ghost lists: seq<RunList>)
    requires api.Valid()
    modifies api
    ensures api.Valid() && old(api.log) <= api.log
    ensures api.probeDeadlineExhausted == (old(api.probeDeadlineExhausted) || ProbeDeadlineExhausted in reasons)
    ensures Listed(q.repos, candidates, reported, caps, reasons, lists, q, api.log, api.maximumRequests,
                   api.probeDeadlineExhausted)
  {
    candidates, reported, caps, reasons, lists := [], 0, [], {}, [];
    for i := 0 to |q.repos|
      invariant api.Valid() && old(api.log) <= api.log
      invariant api.probeDeadlineExhausted == (old(api.probeDeadlineExhausted) || ProbeDeadlineExhausted in reasons)
      invariant Listed(q.repos[..i], candidates, reported, caps, reasons, lists, q, api.log, api.maximumRequests,
                       api.probeDeadlineExhausted)
    {
      ghost var log, late := api.log, api.probeDeadlineExhausted;
      var blocked := api.BlockReason();
      ListedMore(q.repos[..i], candidates, reported, caps, reasons, lists, q, log, api.log, api.maximumRequests,
                 late, api.probeDeadlineExhausted);
      if blocked.Some? {
        reasons := reasons
        + {if blocked.value.RequestBudgetExhausted? then RequestBudgetTooSmallForRepoLists else blocked.value};
        return;
      }
      candidates, reported, caps, reasons, lists :=
        ListNext(api, q.repos[i], q.repos[..i], q, candidates, reported, caps, reasons, lists);
      assert q.repos[..i + 1] == q.repos[..i] + [q.repos[i]];
    }
    assert q.repos[..|q.repos|] == q.repos;
  }

  /** The body of the first loop: one more repository after `repos`. */
  method ListNext(api: GithubApi, repo: string, ghost repos: seq<string>, q: Query, candidates: seq<Candidate>,
                  reported: int, caps: seq<string>, reasons: set<Reason>, ghost lists: seq<RunList>)
    returns (candidates': seq<Candidate>, reported': int, caps': seq<string>, reasons': set<Reason>,
             ghost lists': seq<RunList>)
    requires api.Valid() && (ProbeDeadlineExhausted in reasons ==> api.probeDeadlineExhausted)
    requires Listed(repos, candidates, reported, caps, reasons, lists, q, api.log, api.maximumRequests,
                    api.probeDeadlineExhausted)
    modifies api
    ensures api.Valid() && old(api.log) <= api.log && reasons <= reasons'
    ensures api.probeDeadlineExhausted == (old(api.probeDeadlineExhausted) || ProbeDeadlineExhausted in reasons')
    ensures Listed(repos + [repo], candidates', reported', caps', reasons', lists', q, api.log, api.maximumRequests,
                   api.probeDeadlineExhausted)
  {
    var accepted, count, capped, error;
    ghost var list;
    accepted, count, capped, error, list := ListRuns(api, repo, q);
    ListedMore(repos, candidates, reported, caps, reasons, lists, q, old(api.log), api.log, api.maximumRequests,
               old(api.probeDeadlineExhausted), api.probeDeadlineExhausted);
    ListedNext(repos, candidates, reported, caps, reasons, lists, q, api.log, api.maximumRequests,
               api.probeDeadlineExhausted, repo, accepted, count, capped, error, list);
    lists' := if error.None? && reasons == {} then lists + [list] else lists;
    candidates', reported' := candidates + accepted, reported + count;
    caps' := caps + if capped then [repo] else [];
    reasons' := reasons + if error.Some? then {error.value} else {};
  }

  lemma SamplesSurvive(sampled: seq<Sampled>, q: Query, log: seq<Exchange>, log': seq<Exchange>)
    requires GoodSamples(sampled, q, log) && log <= log'
    ensures GoodSamples(sampled, q, log')
  {
    forall s | s in sampled ensures FromLog(s, q, log') {
      assert FromLog(s, q, log);
    }
  }

  lemma JobListsAnswerMore(lists: seq<JobList>, cs: seq<Candidate>, q: Query, log: seq<Exchange>, log': seq<Exchange>)
    requires JobListsAnswer(lists, cs, q, log) && log <= log'
    ensures JobListsAnswer(lists, cs, q, log')
  {
    forall k | 0 <= k < |lists| ensures JobListReceived(lists[k], log') {
      var l := lists[k];
      assert JobListReceived(l, log);
    }
  }

  lemma {:induction false} AddJobList(lists: seq<JobList>, cs: seq<Candidate>, q: Query, log: seq<Exchange>, l: JobList)
    requires JobListsAnswer(lists, cs, q, log) && AllUsable(l.jobs, q) && JobListReceived(l, log)
    ensures JobListsAnswer(lists + [l], cs + [l.run], q, log)
    ensures AllMatching(lists + [l], q) == AllMatching(lists, q) + Matching(l.jobs, q)
  {
    assert (lists + [l])[..|lists|] == lists;
  }

  /** One candidate's job list, fetched and scanned. */
  method ScanRun(api: GithubApi, c: Candidate, q: Query, sampled: seq<Sampled>, seen: set<int>)
    returns (sampled': seq<Sampled>, seen': set<int>, counted: bool, error: Option<Reason>, ghost list: JobList)
    requires api.Valid() && GoodSamples(sampled, q, api.log) && seen == set s | s in sampled :: s.id
    modifies api
    ensures api.Valid() && old(api.log) <= api.log
    requires SeenBefore(seen, q, api.log, |api.log|, 0)
    ensures SeenBefore(seen', q, api.log, |api.log|, 0) && sampled <= sampled'
    ensures error.Some? ==> Caused(error.value, q, api.log, api.maximumRequests, api.probeDeadlineExhausted)
    ensures GoodSamples(sampled', q, api.log) && seen' == set s | s in sampled' :: s.id
    ensures api.probeDeadlineExhausted == (old(api.probeDeadlineExhausted) || error == Some(ProbeDeadlineExhausted))
    ensures error.None? ==>
              && counted && list.run == c && AllUsable(list.jobs, q) && JobListReceived(list, api.log)
              && sampled' == sampled + Matching(list.jobs, q)
  {
    sampled', seen', counted, error, list := sampled, seen, false, None, JobList(c, []);
    var result := api.Get(JobsPath(c.repo, c.run));
    SamplesSurvive(sampled, q, old(api.log), api.log);
    SeenMore(seen, q, old(api.log), api.log, |old(api.log)|, 0, |api.log|, 0);
    if result.Err? {
      error := Some(result.error);
      UnansweredIsCaused(result.error, q, api.log, api.maximumRequests, api.probeDeadlineExhausted);
      return;
    }
    ghost var source := Exchange(JobsPath(c.repo, c.run), Object(result.value));
    assert source == api.log[|api.log| - 1];
    if result.value.jobs.None? || result.value.totalCount.None? {
      error := Some(JobListInvalid(c.repo, c.run));
      assert Faulty(source, q, error.value);
      return;
    }
    var jobs := result.value.jobs.value;
    if result.value.totalCount.value != |jobs| {
      error := Some(JobListTruncated(c.repo, c.run));
      assert Faulty(source, q, error.value);
      return;
    }
    counted := true;
    list := JobList(c, jobs);
    SeenMore(seen, q, old(api.log), api.log, |old(api.log)|, 0, |api.log| - 1, 0);
    assert result.value == Payload(result.value.runs, Some(jobs), Some(|jobs|));
    sampled', seen', error := ScanJobs(jobs, c.repo, c.run, q, sampled, seen, api.log, source,
                                        api.maximumRequests, api.probeDeadlineExhausted);
  }

  /** The second loop: job lists in candidate order until the target, the budget, the deadline or an error. */
  method CollectJobs(api: GithubApi, candidates: seq<Candidate>, q: Query)
    returns (sampled: seq<Sampled>, scanned: nat, requestCap: bool, reason: Option<Reason>, ghost lists: seq<JobList>)
    requires api.Valid()
    modifies api
    ensures api.Valid() && old(api.log) <= api.log && GoodSamples(sampled, q, api.log)
    ensures api.probeDeadlineExhausted == (old(api.probeDeadlineExhausted) || reason == Some(ProbeDeadlineExhausted))
    ensures reason.Some? ==> Caused(reason.value, q, api.log, api.maximumRequests, api.probeDeadlineExhausted)
    // Whatever happened, the lists of the first candidates were received whole and all their jobs taken.
    ensures |lists| <= scanned <= |lists| + 1 && scanned <= |candidates|
    ensures JobListsAnswer(lists, candidates[..|lists|], q, api.log) && AllMatching(lists, q) <= sampled
    ensures reason.None? ==>
              && scanned == |lists| && sampled == AllMatching(lists, q)
              && (scanned == |candidates| || |sampled| >= q.sampleTarget || requestCap)
    ensures requestCap ==> api.requests == api.maximumRequests
  {
    sampled, scanned, requestCap, reason, lists := [], 0, false, None, [];
    var seen: set<int> := {};
    for i := 0 to |candidates|
      invariant api.Valid() && old(api.log) <= api.log && reason.None? && !requestCap && scanned == i
      invariant api.probeDeadlineExhausted == old(api.probeDeadlineExhausted)
      invariant |lists| == i && Taken(sampled, seen, lists, candidates[..i], q, api.log)
    {
      if |sampled| >= q.sampleTarget {
        return;
      }
      var blocked := api.BlockReason();
      if blocked.Some? {
        if blocked.value.RequestBudgetExhausted? {
          requestCap := true;
        } else {
          reason := blocked;
        }
        return;
      }
      var counted, error;
      sampled, seen, counted, error, lists := TakeRun(api, candidates[i], candidates[..i], q, sampled, seen, lists);
      if counted {
        scanned := scanned + 1;
      }
      if error.Some? {
        reason := error;
        return;
      }
      assert candidates[..i + 1] == candidates[..i] + [candidates[i]];
    }
    assert candidates[..|candidates|] == candidates;
  }

  /** The lists of `cs` were received whole, and `sampled` holds all their jobs on our runners and no others. */
  ghost predicate Taken(sampled: seq<Sampled>, seen: set<int>, lists: seq<JobList>, cs: seq<Candidate>, q: Query,
                        log: seq<Exchange>)
  {
    && GoodSamples(sampled, q, log) && seen == (set s | s in sampled :: s.id)
    && SeenBefore(seen, q, log, |log|, 0)
    && JobListsAnswer(lists, cs, q, log) && sampled == AllMatching(lists, q)
  }

  /** The body of the second loop: one more run after those of `cs`. */
  method TakeRun(api: GithubApi, c: Candidate, ghost cs: seq<Candidate>, q: Query, sampled: seq<Sampled>, seen: set<int>,
                 ghost lists: seq<JobList>)
    returns (sampled': seq<Sampled>, seen': set<int>, counted: bool, error: Option<Reason>, ghost lists': seq<JobList>)
    requires api.Valid() && Taken(sampled, seen, lists, cs, q, api.log)
    modifies api
    ensures api.Valid() && old(api.log) <= api.log
    ensures api.probeDeadlineExhausted == (old(api.probeDeadlineExhausted) || error == Some(ProbeDeadlineExhausted))
    ensures error.Some? ==> Caused(error.value, q, api.log, api.maximumRequests, api.probeDeadlineExhausted)
    ensures if error.None? then counted && |lists'| == |lists| + 1 && Taken(sampled', seen', lists', cs + [c], q, api.log)
            else && lists' == lists && JobListsAnswer(lists, cs, q, api.log)
                 && GoodSamples(sampled', q, api.log) && sampled <= sampled'
  {
    ghost var list;
    sampled', seen', counted, error, list := ScanRun(api, c, q, sampled, seen);
    JobListsAnswerMore(lists, cs, q, old(api.log), api.log);
    lists' := lists;
    if error.None? {
      AddJobList(lists, cs, q, api.log, list);
      lists' := lists + [list];
    }
  }

  lemma {:induction false} LexIsStrictWeakOrder(a: string, b: string, c: string)
    ensures LexGreater(a, b) ==> !LexGreater(b, a)
    ensures !LexGreater(a, b) && !LexGreater(b, a) ==> a == b
    ensures LexGreater(a, b) && LexGreater(b, c) ==> LexGreater(a, c)
    decreases |a|
  {
    if a != [] && b != [] && c != [] {
      LexIsStrictWeakOrder(a[1..], b[1..], c[1..]);
    } else if a != [] && b != [] {
      LexIsStrictWeakOrder(a[1..], b[1..], []);
    }
    if a != [] && b != [] && a[0] == b[0] && a[1..] == b[1..] {
      assert a == [a[0]] + a[1..] && b == [b[0]] + b[1..];
    }
  }

  lemma NewerRunIsStrictWeakOrder()
    ensures StrictWeakOrder(NewerRun)
  {
    forall a, b | NewerRun(a, b) ensures !NewerRun(b, a) {
      LexIsStrictWeakOrder(a.repo, b.repo, "");
    }
    forall a, b, c | !NewerRun(a, b) && !NewerRun(b, c) ensures !NewerRun(a, c) {
      LexIsStrictWeakOrder(c.repo, b.repo, a.repo);
      LexIsStrictWeakOrder(a.repo, b.repo, c.repo);
      LexIsStrictWeakOrder(b.repo, c.repo, a.repo);
      LexIsStrictWeakOrder(a.repo, c.repo, b.repo);
    }
  }

  lemma {:induction false} SubsequenceGood(
    all: seq<Sampled>, part: seq<Sampled>, q: Query, log: seq<Exchange>, rest: multiset<Sampled>)
    requires GoodSamples(all, q, log) && multiset(all) == multiset(part) + rest
    ensures GoodSamples(part, q, log)
  {
    forall s | s in part ensures FromLog(s, q, log) {
      assert s in multiset(part);
      assert s in multiset(all);
    }
    forall i, j | 0 <= i < j < |part| ensures part[i].id != part[j].id {
      TwoOf(part, i, j);
      assert multiset{part[i], part[j]} <= multiset(all);
      if part[i].id == part[j].id {
        TwoPlaces(all, part[i], part[j]);
      }
    }
  }

  lemma TwoOf(s: seq<Sampled>, i: nat, j: nat)
    requires i < j < |s|
    ensures multiset{s[i], s[j]} <= multiset(s)
  {
    assert s == s[..i] + [s[i]] + s[i + 1..j] + [s[j]] + s[j + 1..];
  }

  lemma TwoPlaces(s: seq<Sampled>, a: Sampled, b: Sampled)
    requires multiset{a, b} <= multiset(s)
    ensures exists i, j :: 0 <= i < |s| && 0 <= j < |s| && i != j && s[i] == a && s[j] == b
  {
    assert a in multiset(s) && b in multiset(s);
    var i :| 0 <= i < |s| && s[i] == a;
    if a != b {
      var j :| 0 <= j < |s| && s[j] == b;
    } else {
      assert multiset(s)[a] >= 2;
      var others := s[..i] + s[i + 1..];
      assert s == s[..i] + [a] + s[i + 1..];
      assert multiset(s) == multiset(others) + multiset{a};
      assert a in others;
      var j :| 0 <= j < |others| && others[j] == a;
      assert if j < i then s[j] == a else s[j + 1] == a;
    }
  }

  /** What a collection without a reason has seen. */
  ghost predicate Coverage(q: Query, log: seq<Exchange>, sample: seq<Sampled>, meta: Metadata,
                           runLists: seq<RunList>, jobLists: seq<JobList>)
  {
    && ListsAnswer(runLists, q.repos, q, log)
    && var candidates := Sort(AllCandidates(runLists, q), NewerRun);
    && meta.candidateRuns == |candidates| && meta.runsScanned <= |candidates| && meta.reportedRuns == SumTotals(runLists)
    && JobListsAnswer(jobLists, candidates[..meta.runsScanned], q, log)
    && sample == Newest(AllMatching(jobLists, q), q.sampleTarget)
    && (meta.runsScanned == |candidates| || |sample| == q.sampleTarget || meta.apiRequestCapReached)
  }

  /** The completeness flag is exactly: no reason, no cap, and every candidate scanned. */
  ghost predicate IsCollection(q: Query, log: seq<Exchange>, sample: seq<Sampled>, meta: Metadata, reasons: set<Reason>,
                               runLists: seq<RunList>, jobLists: seq<JobList>)
  {
    && (reasons == {} ==> Coverage(q, log, sample, meta, runLists, jobLists))
    && (reasons == {} ==> (meta.runCapsReached == [] <==> forall l :: l in runLists ==> !Capped(l, q)))
    && (meta.eligibleRunPopulationComplete <==>
        && reasons == {} && meta.runCapsReached == [] && !meta.apiRequestCapReached
        && meta.runsScanned == meta.candidateRuns)
  }

  method CollectOutcomes(api: GithubApi, q: Query)
    returns (sample: seq<Sampled>, meta: Metadata, reasons: set<Reason>,
             ghost runLists: seq<RunList>, ghost jobLists: seq<JobList>)
    requires api.Valid()
    modifies api
    ensures api.Valid() && old(api.log) <= api.log
    ensures |sample| <= q.sampleTarget && GoodSamples(sample, q, api.log)
    ensures Sorted(sample, NewerJob)
    ensures IsCollection(q, api.log, sample, meta, reasons, runLists, jobLists)
    ensures WasBlocked(reasons) || AllAsked(q.repos, api.log)
    ensures AllCaused(reasons, q, api.log, api.maximumRequests, api.probeDeadlineExhausted)
    ensures meta.apiRequestCapReached ==> api.requests == api.maximumRequests
    ensures meta.probeDeadlineExhausted == (old(api.probeDeadlineExhausted) || ProbeDeadlineExhausted in reasons)
  {
    var candidates, reported, caps, sampled, scanned, requestCap, reason;
    candidates, reported, caps, reasons, runLists := CollectRuns(api, q);
    ghost var listed, early := api.log, api.probeDeadlineExhausted;
    candidates := Sort(candidates, NewerRun);
    sampled, scanned, requestCap, reason, jobLists := CollectJobs(api, candidates, q);
    AllCausedMore(reasons, q, listed, api.log, api.maximumRequests, early, api.probeDeadlineExhausted);
    if AllAsked(q.repos, listed) {
      AllAskedMore(q.repos, listed, api.log);
    }
    if reasons == {} {
      ListsAnswerMore(runLists, q.repos, q, listed, api.log);
      CappedReposEmptyIff(runLists, q);
    }
    if reason.Some? {
      reasons := reasons + {reason.value};
    }
    sample := Newest(sampled, q.sampleTarget);
    NewestIsGood(sampled, q, api.log);
    meta := Metadata(reported, |candidates|, scanned, caps, requestCap,
                     caps == [] && !requestCap && scanned == |candidates| && reasons == {},
                     api.probeDeadlineExhausted);
  }

  lemma {:induction false} CappedReposEmptyIff(lists: seq<RunList>, q: Query)
    ensures CappedRepos(lists, q) == [] <==> forall l :: l in lists ==> !Capped(l, q)
  {
    if lists != [] {
      CappedReposEmptyIff(lists[..|lists| - 1], q);
      assert lists == lists[..|lists| - 1] + [lists[|lists| - 1]];
    }
  }

  lemma NewestIsGood(sampled: seq<Sampled>, q: Query, log: seq<Exchange>)
    requires GoodSamples(sampled, q, log)
    ensures GoodSamples(Newest(sampled, q.sampleTarget), q, log)
    ensures Sorted(Newest(sampled, q.sampleTarget), NewerJob)
    ensures |Newest(sampled, q.sampleTarget)| == if |sampled| <= q.sampleTarget then |sampled| else q.sampleTarget
  {
    var sorted := Sort(sampled, NewerJob);
    SortSorted(sampled, NewerJob);
    if |sorted| <= q.sampleTarget {
      SubsequenceGood(sampled, sorted, q, log, multiset{});
    } else {
      assert sorted == sorted[..q.sampleTarget] + sorted[q.sampleTarget..];
      SubsequenceGood(sampled, sorted[..q.sampleTarget], q, log, multiset(sorted[q.sampleTarget..]));
    }
  }

  // ----- What a complete collection means ---------------------------------------------------------

  lemma {:induction false} CandidateOfEveryRun(l: RunList, q: Query, c: Candidate)
    requires forall r :: r in l.runs ==> GoodRun(r, q)
    ensures c in CandidatesOf(l, q) <==> exists r :: r in l.runs && c == AsCandidate(r, l.repo)
    decreases |l.runs|
  {
    if l.runs != [] {
      var front := l.(runs := l.runs[..|l.runs| - 1]);
      CandidateOfEveryRun(front, q, c);
      assert l.runs == front.runs + [l.runs[|l.runs| - 1]];
    }
  }

  lemma {:induction false} CandidateOfEveryList(lists: seq<RunList>, q: Query, c: Candidate)
    requires GoodRunLists(lists, q)
    ensures c in AllCandidates(lists, q) <==> exists l, r :: l in lists && r in l.runs && c == AsCandidate(r, l.repo)
  {
    if lists != [] {
      var front, last := lists[..|lists| - 1], lists[|lists| - 1];
      assert lists == front + [last] && GoodRunList(last, q);
      CandidateOfEveryList(front, q, c);
      CandidateOfEveryRun(last, q, c);
    }
  }

  lemma {:induction false} MatchingIsExact(jobs: seq<JobJson>, q: Query, s: Sampled)
    requires AllUsable(jobs, q)
    ensures s in Matching(jobs, q) <==> exists j :: j in jobs && OnOurRunner(j, q) && s == AsSampled(j)
  {
    if jobs != [] {
      var front, last := jobs[..|jobs| - 1], jobs[|jobs| - 1];
      assert jobs == front + [last];
      MatchingIsExact(front, q, s);
    }
  }

  lemma {:induction false} AllMatchingIsExact(lists: seq<JobList>, q: Query, s: Sampled)
    requires AllUsableLists(lists, q)
    ensures s in AllMatching(lists, q) <==>
            exists l, j :: l in lists && j in l.jobs && OnOurRunner(j, q) && s == AsSampled(j)
  {
    if lists != [] {
      var front, last := lists[..|lists| - 1], lists[|lists| - 1];
      assert lists == front + [last] && AllUsable(last.jobs, q);
      AllMatchingIsExact(front, q, s);
      MatchingIsExact(last.jobs, q, s);
    }
  }

  /** A complete collection fetched the whole, uncapped job list of every run of every repository. */
  lemma CompleteMeansEveryRun(q: Query, log: seq<Exchange>, sample: seq<Sampled>, meta: Metadata,
                              runLists: seq<RunList>, jobLists: seq<JobList>, list: RunList, run: RunJson)
    requires Coverage(q, log, sample, meta, runLists, jobLists) && meta.runsScanned == meta.candidateRuns
    requires forall l :: l in runLists ==> !Capped(l, q)
    requires list in runLists && run in list.runs
    ensures |list.runs| == list.total && list.repo in q.repos
    ensures exists l :: l in jobLists && l.run == AsCandidate(run, list.repo) && JobListReceived(l, log)
  {
    assert GoodRunList(list, q) && GoodRun(run, q);
    var c := AsCandidate(run, list.repo);
    CandidateOfEveryList(runLists, q, c);
    var candidates := Sort(AllCandidates(runLists, q), NewerRun);
    assert c in multiset(AllCandidates(runLists, q));
    assert c in multiset(candidates);
    var k :| 0 <= k < |candidates| && candidates[k] == c;
    assert candidates[..meta.runsScanned][k] == c;
    assert jobLists[k].run == c && JobListReceived(jobLists[k], log);
  }

  /** The job ran on our runners in some run of the repositories' run lists, and its job list says so. */
  ghost predicate InPopulation(s: Sampled, q: Query, runLists: seq<RunList>, jobLists: seq<JobList>) {
    exists list, run, l, j ::
      && list in runLists && run in list.runs
      && l in jobLists && run.RunJson? && run.createdAt.Some? && l.run == AsCandidate(run, list.repo)
      && j in l.jobs && OnOurRunner(j, q) && j.completedAt.Some? && s == AsSampled(j)
  }

  lemma ScannedListHasItsRun(q: Query, log: seq<Exchange>, sample: seq<Sampled>, meta: Metadata,
                             runLists: seq<RunList>, jobLists: seq<JobList>, l: JobList)
    requires Coverage(q, log, sample, meta, runLists, jobLists) && l in jobLists
    ensures exists list, run :: list in runLists && run in list.runs && GoodRun(run, q) && l.run == AsCandidate(run, list.repo)
  {
    var candidates := Sort(AllCandidates(runLists, q), NewerRun);
    var k :| 0 <= k < |jobLists| && jobLists[k] == l;
    assert candidates[..meta.runsScanned][k] == candidates[k];
    assert l.run in multiset(candidates);
    assert l.run in AllCandidates(runLists, q);
    CandidateOfEveryList(runLists, q, l.run);
    var list, run :| list in runLists && run in list.runs && l.run == AsCandidate(run, list.repo);
    assert GoodRunList(list, q) && GoodRun(run, q);
  }

  /**
   A sample short of its target is exactly the jobs that ran on our runners in the scanned runs; when
   every candidate was scanned, by `CompleteMeansEveryRun`, those are all runs of all repositories.
   */
  lemma {:induction false} CompleteSampleIsPopulation(
    q: Query, log: seq<Exchange>, sample: seq<Sampled>, meta: Metadata, runLists: seq<RunList>,
    jobLists: seq<JobList>, s: Sampled)
    requires Coverage(q, log, sample, meta, runLists, jobLists)
    requires |sample| < q.sampleTarget
    ensures s in sample <==> InPopulation(s, q, runLists, jobLists)
    ensures multiset(sample) == multiset(AllMatching(jobLists, q))
  {
    MatchingIsPopulation(q, log, sample, meta, runLists, jobLists, s);
    assert s in sample <==> s in multiset(sample);
  }

  lemma {:induction false} MatchingIsPopulation(
    q: Query, log: seq<Exchange>, sample: seq<Sampled>, meta: Metadata, runLists: seq<RunList>,
    jobLists: seq<JobList>, s: Sampled)
    requires Coverage(q, log, sample, meta, runLists, jobLists)
    ensures s in AllMatching(jobLists, q) <==> InPopulation(s, q, runLists, jobLists)
  {
    AllMatchingIsExact(jobLists, q, s);
    if s in AllMatching(jobLists, q) {
      var l, j :| l in jobLists && j in l.jobs && OnOurRunner(j, q) && s == AsSampled(j);
      ScannedListHasItsRun(q, log, sample, meta, runLists, jobLists, l);
    }
  }

  /**
   What the completeness flag means. Every run of every repository's whole list has its whole job list
   among those received, and a sample short of its target is exactly the jobs on our runners in them.
   */
  lemma {:induction false} CompleteFlagMeansPopulation(
    q: Query, log: seq<Exchange>, sample: seq<Sampled>, meta: Metadata, reasons: set<Reason>, runLists: seq<RunList>,
    jobLists: seq<JobList>)
    requires IsCollection(q, log, sample, meta, reasons, runLists, jobLists) && meta.eligibleRunPopulationComplete
    requires |sample| < q.sampleTarget
    ensures ListsAnswer(runLists, q.repos, q, log)
    ensures forall list :: list in runLists ==> |list.runs| == list.total
    ensures forall list, run :: list in runLists && run in list.runs ==> RunIsSampled(list, run, q, log, sample, jobLists)
    ensures forall s :: s in sample <==> InPopulation(s, q, runLists, jobLists)
  {
    forall list | list in runLists ensures |list.runs| == list.total {
      assert GoodRunList(list, q) && !Capped(list, q);
    }
    forall s ensures s in sample <==> InPopulation(s, q, runLists, jobLists) {
      CompleteSampleIsPopulation(q, log, sample, meta, runLists, jobLists, s);
    }
    forall list, run | list in runLists && run in list.runs
      ensures RunIsSampled(list, run, q, log, sample, jobLists)
    {
      ScannedRunIsSampled(q, log, sample, meta, runLists, jobLists, list, run);
    }
  }

  /** The run's whole job list was received, and all its jobs on our runners were sampled. */
  ghost predicate RunIsSampled(list: RunList, run: RunJson, q: Query, log: seq<Exchange>, sample: seq<Sampled>,
                               jobLists: seq<JobList>)
  {
    exists l ::
      && l in jobLists && JobListReceived(l, log)
      && run.RunJson? && run.createdAt.Some? && l.run == AsCandidate(run, list.repo)
      && forall j :: j in l.jobs && OnOurRunner(j, q) ==> j.completedAt.Some? && AsSampled(j) in sample
  }

  lemma {:induction false} ScannedRunIsSampled(
    q: Query, log: seq<Exchange>, sample: seq<Sampled>, meta: Metadata, runLists: seq<RunList>,
    jobLists: seq<JobList>, list: RunList, run: RunJson)
    requires Coverage(q, log, sample, meta, runLists, jobLists) && meta.runsScanned == meta.candidateRuns
    requires (forall l :: l in runLists ==> !Capped(l, q)) && list in runLists && run in list.runs
    requires forall s :: s in sample <==> InPopulation(s, q, runLists, jobLists)
    ensures RunIsSampled(list, run, q, log, sample, jobLists)
  {
    CompleteMeansEveryRun(q, log, sample, meta, runLists, jobLists, list, run);
    assert GoodRunList(list, q) && GoodRun(run, q);
    var l :| l in jobLists && l.run == AsCandidate(run, list.repo) && JobListReceived(l, log);
    assert AllUsable(l.jobs, q);
    forall j | j in l.jobs && OnOurRunner(j, q) ensures j.completedAt.Some? && AsSampled(j) in sample {
      assert GoodJob(j, q);
      assert InPopulation(AsSampled(j), q, runLists, jobLists);
    }
  }

  /** Whatever stopped the scan, no run left out is newer than one that was scanned. */
  lemma {:induction false} NewestRunsFirst(
    q: Query, log: seq<Exchange>, sample: seq<Sampled>, meta: Metadata, runLists: seq<RunList>,
    jobLists: seq<JobList>, i: nat, k: nat)
    requires Coverage(q, log, sample, meta, runLists, jobLists)
    requires i < meta.runsScanned <= k < meta.candidateRuns
    ensures var candidates := Sort(AllCandidates(runLists, q), NewerRun);
            jobLists[i].run == candidates[i] && !NewerRun(candidates[k], jobLists[i].run)
  {
    NewerRunIsStrictWeakOrder();
    SortSorted(AllCandidates(runLists, q), NewerRun);
  }

  // ----- The verdict ---------------------------------------------------------------------------------

  datatype Verdict = Unknown | Healthy | Unhealthy

  datatype Report = Report(sample: seq<Sampled>, meta: Metadata, reasons: set<Reason>, success: nat, verdict: Verdict)

  function Successes(sample: seq<Sampled>): (n: nat)
    ensures n <= |sample|
  {
    if sample == [] then 0
    else Successes(sample[..|sample| - 1]) + (if sample[|sample| - 1].conclusion == "success" then 1 else 0)
  }

  /** The places of the jobs that succeeded. */
  ghost function SucceededAt(sample: seq<Sampled>): set<int> {
    set i | 0 <= i < |sample| && sample[i].conclusion == "success"
  }

  lemma {:induction false} SucceededMore(front: seq<Sampled>, s: Sampled)
    ensures SucceededAt(front + [s]) == SucceededAt(front) + if s.conclusion == "success" then {|front|} else {}
  {
    var all := front + [s];
    forall i ensures i in SucceededAt(all) <==>
        i in SucceededAt(front) || (i == |front| && s.conclusion == "success") {
      if 0 <= i < |front| {
        assert all[i] == front[i];
      }
    }
  }

  lemma {:induction false} SuccessesAre(sample: seq<Sampled>)
    ensures Successes(sample) == |SucceededAt(sample)|
  {
    if sample == [] {
      assert SucceededAt(sample) == {};
    } else {
      var n := |sample| - 1;
      assert sample[..n] + [sample[n]] == sample;
      SuccessesAre(sample[..n]);
      SucceededMore(sample[..n], sample[n]);
      assert n !in SucceededAt(sample[..n]);
    }
  }

  lemma {:induction false} SuccessesCount(sample: seq<Sampled>)
    ensures Successes(sample) == |set i | 0 <= i < |sample| && sample[i].conclusion == "success"|
  {
    SuccessesAre(sample);
    assert SucceededAt(sample) == set i | 0 <= i < |sample| && sample[i].conclusion == "success";
  }

  lemma RateCompares(success: real, completed: real, minimum: real)
    requires completed > 0.0
    ensures success / completed >= minimum <==> success >= minimum * completed
  {
    var rate := success / completed;
    assert rate * completed == success;
    if rate >= minimum {
      assert (rate - minimum) * completed >= 0.0;
    } else {
      assert (minimum - rate) * completed > 0.0;
    }
  }

  predicate MeetsRate(success: nat, completed: nat, minimum: real) {
    success as real >= minimum * completed as real
  }

  /** The division is only reached with a sample to divide by. */
  function VerdictFor(reasons: set<Reason>, success: nat, completed: nat, minimum: real): (v: Verdict)
    requires reasons == {} ==> completed > 0
    ensures v == Unknown <==> reasons != {}
    ensures reasons == {} ==> (v == Healthy <==> MeetsRate(success, completed, minimum))
  {
    if reasons != {} then Unknown
    else
      RateCompares(success as real, completed as real, minimum);
      if success as real / completed as real >= minimum then Healthy else Unhealthy
  }

  predicate IsJudged(sample: seq<Sampled>, success: nat, reasons: set<Reason>, verdict: Verdict, minimum: real) {
    && success == Successes(sample)
    && (verdict == Unknown <==> reasons != {})
    && (verdict == Healthy <==> reasons == {} && success as real >= minimum * |sample| as real)
  }

  /** What a verdict says: the number of sampled jobs concluded "success" against that share of the sample. */
  lemma {:induction false} VerdictIsSuccessShare(
    sample: seq<Sampled>, success: nat, reasons: set<Reason>, verdict: Verdict, minimum: real)
    requires IsJudged(sample, success, reasons, verdict, minimum)
    ensures var succeeded := |set i | 0 <= i < |sample| && sample[i].conclusion == "success"|;
            && success == succeeded
            && (verdict == Unknown <==> reasons != {})
            && (verdict == Healthy <==> reasons == {} && succeeded as real >= minimum * |sample| as real)
            && (verdict == Unhealthy <==> reasons == {} && succeeded as real < minimum * |sample| as real)
  {
    SuccessesCount(sample);
  }

  /** The second half of `build_report`: the share of jobs concluded "success" against the minimum. */
  method Judge(sample: seq<Sampled>, collected: set<Reason>, minimumJobs: nat, minimumSuccessRate: real)
    returns (success: nat, reasons: set<Reason>, verdict: Verdict)
    requires minimumJobs > 0
    ensures IsJudged(sample, success, reasons, verdict, minimumSuccessRate)
    ensures reasons == collected + if |sample| < minimumJobs then {InsufficientSample} else {}
  {
    var completed := |sample|;
    success := Successes(sample);
    reasons := collected;
    if completed < minimumJobs {
      reasons := reasons + {InsufficientSample};
      assert InsufficientSample in reasons;
    }
    verdict := VerdictFor(reasons, success, completed, minimumSuccessRate);
  }

  const NothingCollected := Metadata(0, 0, 0, [], false, false, false)

  /** `prefix` is `None` when the configuration could not be read; `minimumJobs` is positive by argument parsing. */
  method BuildReport(api: GithubApi, prefix: Option<string>, q: Query, minimumJobs: nat, minimumSuccessRate: real)
    returns (r: Report, ghost runLists: seq<RunList>, ghost jobLists: seq<JobList>)
    requires api.Valid() && minimumJobs > 0
    modifies api
    ensures api.Valid() && old(api.log) <= api.log
    // A verdict is given iff nothing was held against the collection and the sample is large enough.
    ensures r.verdict == Unknown <==> r.reasons != {}
    // Every reason has its cause.
    ensures forall reason :: reason in r.reasons ==>
              || (reason == RunnerPrefixUnavailable && prefix.None?)
              || (reason == InsufficientSample && |r.sample| < minimumJobs)
              || (prefix.Some? &&
                  Caused(reason, q.(prefix := prefix.value), api.log, api.maximumRequests, api.probeDeadlineExhausted))
    ensures |r.sample| < minimumJobs ==> InsufficientSample in r.reasons
    ensures if prefix.Some? then GoodSamples(r.sample, q.(prefix := prefix.value), api.log)
            else && r.sample == [] && RunnerPrefixUnavailable in r.reasons
                 && r.meta == Metadata(0, 0, 0, [], false, false, api.probeDeadlineExhausted)
    ensures r.verdict != Unknown ==>
              && prefix.Some?
              && Coverage(q.(prefix := prefix.value), api.log, r.sample, r.meta, runLists, jobLists)
              && |r.sample| >= minimumJobs
    ensures IsJudged(r.sample, r.success, r.reasons, r.verdict, minimumSuccessRate)
  {
    var sample, meta, reasons := [], NothingCollected, {};
    runLists, jobLists := [], [];
    if prefix.None? {
      meta := meta.(probeDeadlineExhausted := api.probeDeadlineExhausted);
      reasons := {RunnerPrefixUnavailable};
    } else {
      sample, meta, reasons, runLists, jobLists := CollectOutcomes(api, q.(prefix := prefix.value));
    }
    var success, verdict;
    success, reasons, verdict := Judge(sample, reasons, minimumJobs, minimumSuccessRate);
    r := Report(sample, meta, reasons, success, verdict);
  }

  // ----- Samples, written out ------------------------------------------------------------------------

  /** The runner has exactly the prefix for its name, or the prefix, a dash and more. */
  predicate IsOurs(name: string, prefix: string) {
    name == prefix || prefix + "-" <= name
  }

  lemma RunnerMatchesIff(name: string, prefix: string)
    ensures RunnerMatches(name, prefix) <==> IsOurs(name, prefix)
  {
    if prefix + "-" <= name {
      assert (prefix + "-")[|prefix|] == name[|prefix|];
      assert forall i :: 0 <= i < |prefix| ==> (prefix + "-")[i] == name[i];
    }
    if |name| > |prefix| && name[..|prefix|] == prefix && name[|prefix|] == '-' {
      assert name[..|prefix| + 1] == prefix + "-";
    }
  }

  /** A completed job of one of our runners, with a conclusion, that ended in the window. */
  predicate IsEligible(j: JobJson, q: Query) {
    && j.JobJson? && j.runnerName.Some? && IsOurs(j.runnerName.value, q.prefix)
    && j.status == "completed" && j.conclusion != ""
    && j.completedAt.Some? && q.start <= j.completedAt.value <= q.end
  }

  lemma GoodJobIff(j: JobJson, q: Query)
    ensures GoodJob(j, q) <==> IsEligible(j, q)
    ensures OnOurRunner(j, q) <==> j.JobJson? && j.runnerName.Some? && IsOurs(j.runnerName.value, q.prefix)
  {
    if j.JobJson? && j.runnerName.Some? {
      RunnerMatchesIff(j.runnerName.value, q.prefix);
    }
  }

  /** Every sample is an eligible job of a job list that was received, and no two samples have one id. */
  lemma {:induction false} SamplesAreEligible(sample: seq<Sampled>, q: Query, log: seq<Exchange>, i: nat)
    requires GoodSamples(sample, q, log) && i < |sample|
    ensures exists e, j ::
              && e in log && e.path.JobsPath? && e.reply.Object? && e.reply.payload.jobs.Some?
              && j in e.reply.payload.jobs.value && IsEligible(j, q)
              && sample[i].id == j.id && sample[i].conclusion == j.conclusion && Some(sample[i].completedAt) == j.completedAt
    ensures forall k :: 0 <= k < |sample| && k != i ==> sample[k].id != sample[i].id
  {
    assert FromLog(sample[i], q, log);
    var e, j :| e in log && e.path.JobsPath? && e.reply.Object? && e.reply.payload.jobs.Some?
                && j in e.reply.payload.jobs.value && GoodJob(j, q) && sample[i] == AsSampled(j);
    GoodJobIff(j, q);
    assert IsEligible(j, q);
  }

  /** Every candidate is a completed run, created in the window, of a run list received for its repository. */
  lemma {:induction false} CandidatesAreCompleted(c: Candidate, q: Query, log: seq<Exchange>)
    requires CandidateListed(c, q, log)
    ensures q.start <= c.createdAt <= q.end
    ensures exists e, r ::
              && e in log && e.path == RunsPath(c.repo) && e.reply.Object? && e.reply.payload.runs.Some?
              && r in e.reply.payload.runs.value && r == RunJson(c.run, "completed", Some(c.createdAt))
  {
    var e, r :| e in log && e.path == RunsPath(c.repo) && e.reply.Object? && e.reply.payload.runs.Some?
                && r in e.reply.payload.runs.value && GoodRun(r, q) && c == AsCandidate(r, c.repo);
    assert r == RunJson(c.run, "completed", Some(c.createdAt));
  }

  /** The sample is taken from what was seen, as much as was asked for, latest first. */
  lemma {:induction false} NewestIs(jobs: seq<Sampled>, n: nat)
    ensures var sample := Newest(jobs, n);
            && |sample| == (if |jobs| <= n then |jobs| else n) && multiset(sample) <= multiset(jobs)
            && forall i, j :: 0 <= i < j < |sample| ==> sample[i].completedAt >= sample[j].completedAt
  {
    SortSorted(jobs, NewerJob);
    var sorted := Sort(jobs, NewerJob);
    if |sorted| > n {
      assert sorted == sorted[..n] + sorted[n..];
    }
  }

  /** And nothing left out is newer than anything in it. */
  lemma {:induction false} LeftOutIsNoNewer(jobs: seq<Sampled>, n: nat, s: Sampled, left: Sampled)
    requires s in Newest(jobs, n) && left in multiset(jobs) - multiset(Newest(jobs, n))
    ensures left.completedAt <= s.completedAt
  {
    SortSorted(jobs, NewerJob);
    var sorted := Sort(jobs, NewerJob);
    if |sorted| > n {
      assert sorted == sorted[..n] + sorted[n..];
      assert multiset(jobs) == multiset(Newest(jobs, n)) + multiset(sorted[n..]);
      assert left in multiset(sorted[n..]);
      LeftIsOlder(sorted, n, s, left);
    }
  }

  lemma {:induction false} LeftIsOlder(sorted: seq<Sampled>, n: nat, s: Sampled, left: Sampled)
    requires Sorted(sorted, NewerJob) && n <= |sorted| && s in sorted[..n] && left in sorted[n..]
    ensures left.completedAt <= s.completedAt
  {
    var i :| 0 <= i < n && sorted[..n][i] == s;
    var k :| 0 <= k < |sorted[n..]| && sorted[n..][k] == left;
    assert sorted[i] == s && sorted[n + k] == left;
  }

  /** `a` comes after `b` in the order of strings: where they first differ it is greater, or it is longer. */
  ghost predicate IsGreater(a: string, b: string) {
    exists k :: 0 <= k <= |b| && k < |a| && a[..k] == b[..k] && (k == |b| || a[k] > b[k])
  }

  lemma {:induction false} LexGreaterIff(a: string, b: string)
    ensures LexGreater(a, b) <==> IsGreater(a, b)
    decreases |a|
  {
    if a != [] && b != [] && a[0] == b[0] {
      LexGreaterIff(a[1..], b[1..]);
      if IsGreater(a[1..], b[1..]) {
        var k :| 0 <= k <= |b[1..]| && k < |a[1..]| && a[1..][..k] == b[1..][..k] && (k == |b[1..]| || a[1..][k] > b[1..][k]);
        assert a[..k + 1] == [a[0]] + a[1..][..k] && b[..k + 1] == [b[0]] + b[1..][..k];
        assert k + 1 <= |b| && k + 1 < |a|;
      }
      if IsGreater(a, b) {
        var k :| 0 <= k <= |b| && k < |a| && a[..k] == b[..k] && (k == |b| || a[k] > b[k]);
        assert a[1..][..k - 1] == a[..k][1..] && b[1..][..k - 1] == b[..k][1..];
        assert k - 1 <= |b[1..]| && k - 1 < |a[1..]|;
      }
    } else if a != [] && (b == [] || a[0] > b[0]) {
      assert a[..0] == b[..0];
    } else {
      forall k | 0 < k <= |b| && k < |a| ensures a[..k] != b[..k] {
        assert a[..k][0] == a[0] && b[..k][0] == b[0];
      }
    }
  }

  /** Runs are scanned latest first, then by repository and by id, each downwards. */
  lemma {:induction false} RunsAreScannedLatestFirst(
    q: Query, log: seq<Exchange>, sample: seq<Sampled>, meta: Metadata, runLists: seq<RunList>,
    jobLists: seq<JobList>, i: nat, k: nat)
    requires Coverage(q, log, sample, meta, runLists, jobLists)
    requires i < meta.runsScanned <= k < meta.candidateRuns
    ensures var scanned, left := jobLists[i].run, Sort(AllCandidates(runLists, q), NewerRun)[k];
            && scanned.createdAt >= left.createdAt
            && (scanned.createdAt == left.createdAt ==> !IsGreater(left.repo, scanned.repo))
            && (scanned.createdAt == left.createdAt && scanned.repo == left.repo ==> scanned.run >= left.run)
  {
    NewestRunsFirst(q, log, sample, meta, runLists, jobLists, i, k);
    LexGreaterIff(Sort(AllCandidates(runLists, q), NewerRun)[k].repo, jobLists[i].run.repo);
  }

  // ----- Reasons and flags, written out -----------------------------------------------------------------

  /** The reason that a run or a job of a list is refused for. */
  lemma FlawsAre(r: RunJson, j: JobJson, repo: string, run: int, q: Query)
    ensures RunFlaw(r, repo, q) == Some(RunInvalid(repo)) <==> r.MalformedRun?
    ensures r.RunJson? ==>
              && (RunFlaw(r, repo, q) == Some(RunNotCompleted(repo, r.id)) <==> r.status != "completed")
              && (RunFlaw(r, repo, q) == Some(RunTimestampInvalid(repo, r.id)) <==> r.status == "completed" && r.createdAt.None?)
              && (RunFlaw(r, repo, q) == Some(RunOutsideWindow(repo, r.id)) <==>
                  r.status == "completed" && r.createdAt.Some? && !(q.start <= r.createdAt.value <= q.end))
    ensures JobFlaw(j, repo, run, q) == Some(JobInvalid(repo, run)) <==> j.MalformedJob?
    ensures OnOurRunner(j, q) ==>
              && (JobFlaw(j, repo, run, q) == Some(JobNotCompleted(repo, j.id)) <==> j.status != "completed")
              && (JobFlaw(j, repo, run, q) == Some(JobConclusionInvalid(repo, j.id)) <==>
                  j.status == "completed" && j.conclusion == "")
              && (JobFlaw(j, repo, run, q) == Some(JobTimestampInvalid(repo, j.id)) <==>
                  j.status == "completed" && j.conclusion != "" && j.completedAt.None?)
              && (JobFlaw(j, repo, run, q) == Some(JobOutsideWindow(repo, j.id)) <==>
                  && j.status == "completed" && j.conclusion != "" && j.completedAt.Some?
                  && !(q.start <= j.completedAt.value <= q.end))
  {
  }

  /** The reason that a reply as a whole is refused for. */
  lemma FaultsAre(e: Exchange, q: Query, r: Reason)
    requires Faulty(e, q, r)
    ensures r.ApiFailure? ==> e.reply == Failed(r.kind)
    ensures r.ProbeDeadlineExhausted? ==> e.reply == AtDeadline
    ensures r.RunListInvalid? ==>
              && e.path == RunsPath(r.repo) && e.reply.Object?
              && (e.reply.payload.runs.None? || e.reply.payload.totalCount.None?)
    ensures r.RunListTruncated? ==>
              && e.path == RunsPath(r.repo) && e.reply.Object?
              && e.reply.payload.runs.Some? && e.reply.payload.totalCount.Some?
              && var runs, total := |e.reply.payload.runs.value|, e.reply.payload.totalCount.value;
              (total <= q.maximumRuns ==> runs != total) && (total > q.maximumRuns ==> runs != q.maximumRuns)
    ensures r.JobListInvalid? ==>
              && e.path == JobsPath(r.repo, r.run) && e.reply.Object?
              && (e.reply.payload.jobs.None? || e.reply.payload.totalCount.None?)
    ensures r.JobListTruncated? ==>
              && e.path == JobsPath(r.repo, r.run) && e.reply.Object?
              && e.reply.payload.jobs.Some? && e.reply.payload.totalCount.Some?
              && e.reply.payload.totalCount.value != |e.reply.payload.jobs.value|
    ensures !(r.RequestBudgetExhausted? || r.RequestBudgetTooSmallForRepoLists? || r.DuplicateJob?
              || r.RunnerPrefixUnavailable? || r.InsufficientSample?)
  {
  }

  /** The completeness flag: no reason, no list longer than was fetched, budget left, every candidate scanned. */
  lemma {:induction false} CompleteFlagIff(
    q: Query, log: seq<Exchange>, sample: seq<Sampled>, meta: Metadata, reasons: set<Reason>, runLists: seq<RunList>,
    jobLists: seq<JobList>)
    requires IsCollection(q, log, sample, meta, reasons, runLists, jobLists)
    ensures meta.eligibleRunPopulationComplete <==>
            && reasons == {} && !meta.apiRequestCapReached && meta.runsScanned == meta.candidateRuns
            && forall l :: l in runLists ==> l.total <= q.maximumRuns
    ensures reasons == {} ==>
              && |runLists| == |q.repos| && meta.reportedRuns == SumTotals(runLists)
              && (meta.runsScanned < meta.candidateRuns && !meta.apiRequestCapReached ==> |sample| == q.sampleTarget)
  {
  }
}
