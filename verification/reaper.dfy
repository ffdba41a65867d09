/**
 The zombie reaper's executor (src/reaper.rs): cancel a run, poll its job, force-cancel, poll again,
 and only then deregister the runner. The GitHub API is an adversary: `ReaperApi` answers every call
 arbitrarily and keeps the log of what it was asked.
 */
module Reaper {
  import opened Wrappers

  datatype Job = Job(
    id: nat,
    status: string,
    startedAt: Option<string>,
    runnerId: Option<nat>,
    runnerName: Option<string>,
    labels: seq<string>,
    htmlUrl: Option<string>)

  datatype Plan = Plan(
    runnerId: nat,
    runnerName: string,
    repo: string,
    runId: nat,
    runUrl: string,
    jobId: nat,
    jobUrl: Option<string>,
    ageSeconds: nat,
    sequence: seq<string>)

  datatype Status =
    | Completed
    | InvalidPollLimit
    | DuplicateRunnerPlan
    | CancelFailed
    | ForceCancelFailed
    | JobLookupFailed
    | JobMissing
    | JobCorrelationChanged
    | PollTimedOut
    | DeleteFailed

  datatype Action = ValidatePollAttempts | ValidateUniquePlan | CancelRun | PollJob | ForceCancelRun | DeleteRunner

  datatype StepStatus = StepSucceeded | StepFailed | StepSkipped

  datatype StepResult = StepResult(action: Action, status: StepStatus)

  datatype Execution = Execution(plan: Plan, status: Status, steps: seq<StepResult>)

  datatype Call =
    | Cancel(repo: string, runId: nat, ok: bool)
    | ForceCancel(repo: string, runId: nat, ok: bool)
    | ListJobs(repo: string, runId: nat, jobs: Option<seq<Job>>)
    | Remove(runnerId: nat, ok: bool)

  class ReaperApi {
    const accepts: nat -> bool
    const lists: nat -> Option<seq<Job>>
    var log: seq<Call>

    constructor (accepts: nat -> bool, lists: nat -> Option<seq<Job>>)
      ensures log == [] && this.accepts == accepts && this.lists == lists
    {
      this.accepts, this.lists, log := accepts, lists, [];
    }

    method CancelWorkflowRun(repo: string, runId: nat) returns (ok: bool)
      modifies this`log
      ensures ok == accepts(|old(log)|) && log == old(log) + [Cancel(repo, runId, ok)]
    {
      ok := accepts(|log|);
      log := log + [Cancel(repo, runId, ok)];
    }

    method ForceCancelWorkflowRun(repo: string, runId: nat) returns (ok: bool)
      modifies this`log
      ensures ok == accepts(|old(log)|) && log == old(log) + [ForceCancel(repo, runId, ok)]
    {
      ok := accepts(|log|);
      log := log + [ForceCancel(repo, runId, ok)];
    }

    method ListWorkflowJobs(repo: string, runId: nat) returns (jobs: Option<seq<Job>>)
      modifies this`log
      ensures jobs == lists(|old(log)|) && log == old(log) + [ListJobs(repo, runId, jobs)]
    {
      jobs := lists(|log|);
      log := log + [ListJobs(repo, runId, jobs)];
    }

    method RemoveRunner(runnerId: nat) returns (ok: bool)
      modifies this`log
      ensures ok == accepts(|old(log)|) && log == old(log) + [Remove(runnerId, ok)]
    {
      ok := accepts(|log|);
      log := log + [Remove(runnerId, ok)];
    }
  }

  // ----- Correlating a job with its plan -----------------------------------------------------

  predicate JobMatchesPlan(job: Job, plan: Plan) {
    job.runnerId == Some(plan.runnerId) || job.runnerName == Some(plan.runnerName)
  }

  function FirstWithId(jobs: seq<Job>, id: nat): Option<Job> {
    if jobs == [] then None else if jobs[0].id == id then Some(jobs[0]) else FirstWithId(jobs[1..], id)
  }

  datatype Sighting = Terminal | InProgress | LookupFailed | Missing | CorrelationChanged

  /** What one job lookup says about the planned job. */
  function Sight(plan: Plan, jobs: Option<seq<Job>>): Sighting {
    if jobs.None? then LookupFailed
    else
      match FirstWithId(jobs.value, plan.jobId)
      case None => Missing
      case Some(job) =>
        if !JobMatchesPlan(job, plan) then CorrelationChanged
        else if job.status != "in_progress" then Terminal
        else InProgress
  }

  function FailureStatus(s: Sighting): Status
    requires !s.Terminal?
  {
    match s
    case LookupFailed => JobLookupFailed
    case Missing => JobMissing
    case CorrelationChanged => JobCorrelationChanged
    case InProgress => PollTimedOut
  }

  /** The sighting that ended the polling of a failed execution. */
  function FailedSighting(s: Status): Sighting {
    match s
    case JobLookupFailed => LookupFailed
    case JobMissing => Missing
    case JobCorrelationChanged => CorrelationChanged
    case _ => InProgress
  }

  /** Lookups of the planned run, all in progress but the last, which saw `end`; `InProgress` only after `n` of them. */
  predicate IsPolling(calls: seq<Call>, plan: Plan, n: nat, end: Sighting) {
    && 1 <= |calls| <= n
    && (forall i :: 0 <= i < |calls| ==>
          && calls[i].ListJobs? && calls[i].repo == plan.repo && calls[i].runId == plan.runId
          && Sight(plan, calls[i].jobs) == if i < |calls| - 1 then InProgress else end)
    && (end.InProgress? ==> |calls| == n)
  }

  // ----- One plan ----------------------------------------------------------------------------

  method PollUntilJobTerminal(api: ReaperApi, plan: Plan, pollAttempts: nat)
    returns (end: Sighting, ghost lookups: seq<Call>)
    requires pollAttempts > 0
    modifies api`log
    ensures api.log == old(api.log) + lookups && IsPolling(lookups, plan, pollAttempts, end)
  {
    lookups := [];
    for attempt := 1 to pollAttempts + 1
      invariant |lookups| == attempt - 1 && api.log == old(api.log) + lookups
      invariant forall i :: 0 <= i < |lookups| ==>
                              && lookups[i].ListJobs? && lookups[i].repo == plan.repo && lookups[i].runId == plan.runId
                              && Sight(plan, lookups[i].jobs) == InProgress
    {
      var jobs := api.ListWorkflowJobs(plan.repo, plan.runId);
      lookups := lookups + [ListJobs(plan.repo, plan.runId, jobs)];
      if jobs.None? {
        return LookupFailed, lookups;
      }
      var job := FirstWithId(jobs.value, plan.jobId);
      if job.None? {
        return Missing, lookups;
      }
      if !JobMatchesPlan(job.value, plan) {
        return CorrelationChanged, lookups;
      }
      if job.value.status != "in_progress" {
        return Terminal, lookups;
      }
    }
    return InProgress, lookups;
  }

  /** An accepted cancel and its polling, escalated once if the first phase only ever saw the job in progress. */
  predicate Settled(calls: seq<Call>, plan: Plan, n: nat, first: seq<Call>, second: seq<Call>, end: Sighting) {
    var cancel := Cancel(plan.repo, plan.runId, true);
    || (!end.InProgress? && IsPolling(first, plan, n, end) && calls == [cancel] + first)
    || (IsPolling(first, plan, n, InProgress) && IsPolling(second, plan, n, end)
        && calls == [cancel] + first + [ForceCancel(plan.repo, plan.runId, true)] + second)
  }

  predicate EscalationRefused(calls: seq<Call>, plan: Plan, n: nat, first: seq<Call>) {
    && IsPolling(first, plan, n, InProgress)
    && calls == [Cancel(plan.repo, plan.runId, true)] + first + [ForceCancel(plan.repo, plan.runId, false)]
  }

  predicate DeleteAttempted(calls: seq<Call>, plan: Plan, n: nat, first: seq<Call>, second: seq<Call>, ok: bool) {
    && calls != [] && calls[|calls| - 1] == Remove(plan.runnerId, ok)
    && Settled(calls[..|calls| - 1], plan, n, first, second, Terminal)
  }

  /** The whole conversation about one plan; `first` and `second` are the two polling phases. */
  predicate Conversation(calls: seq<Call>, plan: Plan, n: nat, first: seq<Call>, second: seq<Call>, status: Status) {
    match status
    case InvalidPollLimit => n == 0 && calls == []
    case DuplicateRunnerPlan => false
    case CancelFailed => n > 0 && calls == [Cancel(plan.repo, plan.runId, false)]
    case ForceCancelFailed => EscalationRefused(calls, plan, n, first)
    case Completed => DeleteAttempted(calls, plan, n, first, second, true)
    case DeleteFailed => DeleteAttempted(calls, plan, n, first, second, false)
    case _ => Settled(calls, plan, n, first, second, FailedSighting(status))
  }

  /** The steps reported to the operator say what was done to the runner registration. */
  predicate ReportsDeletion(e: Execution) {
    && e.steps != []
    && var last := e.steps[|e.steps| - 1];
    match e.status
    case Completed => last == StepResult(DeleteRunner, StepSucceeded)
    case DeleteFailed => last == StepResult(DeleteRunner, StepFailed)
    case InvalidPollLimit => last == StepResult(ValidatePollAttempts, StepFailed)
    case DuplicateRunnerPlan => last == StepResult(ValidateUniquePlan, StepFailed)
    case _ => last == StepResult(DeleteRunner, StepSkipped)
  }

  /** Polling after an accepted cancel, with at most one force-cancel; `accepted` is false if that was refused. */
  method PollWithEscalation(api: ReaperApi, plan: Plan, pollAttempts: nat)
    returns (accepted: bool, end: Sighting, steps: seq<StepResult>,
             ghost calls: seq<Call>, ghost first: seq<Call>, ghost second: seq<Call>)
    requires pollAttempts > 0
    modifies api`log
    ensures var all := [Cancel(plan.repo, plan.runId, true)] + calls;
            if accepted then Settled(all, plan, pollAttempts, first, second, end)
            else EscalationRefused(all, plan, pollAttempts, first)
    ensures api.log == old(api.log) + calls
  {
    end, first := PollUntilJobTerminal(api, plan, pollAttempts);
    accepted, calls, second := true, first, [];
    ghost var cancel := Cancel(plan.repo, plan.runId, true);
    steps := [StepResult(PollJob, if end.Terminal? then StepSucceeded else StepFailed)];
    if end.InProgress? {
      accepted := api.ForceCancelWorkflowRun(plan.repo, plan.runId);
      ghost var forced := ForceCancel(plan.repo, plan.runId, accepted);
      calls := first + [forced];
      assert [cancel] + calls == [cancel] + first + [forced];
      steps := steps + [StepResult(ForceCancelRun, if accepted then StepSucceeded else StepFailed)];
      if accepted {
        end, second := PollUntilJobTerminal(api, plan, pollAttempts);
        calls := calls + second;
        assert [cancel] + calls == [cancel] + first + [forced] + second;
        steps := steps + [StepResult(PollJob, if end.Terminal? then StepSucceeded else StepFailed)];
      }
    }
  }

  method ExecuteReaperPlan(api: ReaperApi, plan: Plan, pollAttempts: nat)
    returns (e: Execution, ghost calls: seq<Call>, ghost first: seq<Call>, ghost second: seq<Call>)
    modifies api`log
    ensures api.log == old(api.log) + calls
    ensures Conversation(calls, plan, pollAttempts, first, second, e.status)
    ensures e.plan == plan && ReportsDeletion(e)
  {
    calls, first, second := [], [], [];
    e := Execution(plan, PollTimedOut, []);
    if pollAttempts == 0 {
      e := e.(status := InvalidPollLimit, steps := [StepResult(ValidatePollAttempts, StepFailed)]);
      return;
    }
    var ok := api.CancelWorkflowRun(plan.repo, plan.runId);
    calls := [Cancel(plan.repo, plan.runId, ok)];
    if !ok {
      e := e.(status := CancelFailed,
      steps := [StepResult(CancelRun, StepFailed), StepResult(DeleteRunner, StepSkipped)]);
      return;
    }
    ghost var polling;
    var end: Sighting, steps: seq<StepResult>;
    ok, end, steps, polling, first, second := PollWithEscalation(api, plan, pollAttempts);
    calls := calls + polling;
    steps := [StepResult(CancelRun, StepSucceeded)] + steps;
    if !ok || !end.Terminal? {
      e := e.(status := if ok then FailureStatus(end) else ForceCancelFailed,
      steps := steps + [StepResult(DeleteRunner, StepSkipped)]);
      return;
    }
    ok := api.RemoveRunner(plan.runnerId);
    ghost var before := calls;
    calls := calls + [Remove(plan.runnerId, ok)];
    assert calls[..|calls| - 1] == before;
    e := e.(status := if ok then Completed else DeleteFailed,
    steps := steps + [StepResult(DeleteRunner, if ok then StepSucceeded else StepFailed)]);
  }

  // ----- What every conversation guarantees ----------------------------------------------------

  function Removals(calls: seq<Call>, runnerId: nat): nat {
    if calls == [] then 0
    else Removals(calls[..|calls| - 1], runnerId)
         + (if calls[|calls| - 1].Remove? && calls[|calls| - 1].runnerId == runnerId then 1 else 0)
  }

  /**
   A registration is removed only as the last call, only the planned one, and only straight after a
   lookup whose first job with the planned id still belongs to the planned runner and has left
   `in_progress`.
   */
  lemma DeletesOnlyAfterTerminalSighting(
    calls: seq<Call>, plan: Plan, n: nat, first: seq<Call>, second: seq<Call>, status: Status, i: nat)
    requires Conversation(calls, plan, n, first, second, status)
    requires i < |calls| && calls[i].Remove?
    ensures i == |calls| - 1 && i >= 2 && calls[i].runnerId == plan.runnerId
    ensures calls[i - 1].ListJobs? && calls[i - 1].repo == plan.repo && calls[i - 1].runId == plan.runId
    ensures calls[i - 1].jobs.Some?
    ensures var job := FirstWithId(calls[i - 1].jobs.value, plan.jobId);
            job.Some? && JobMatchesPlan(job.value, plan) && job.value.status != "in_progress"
  {
    assert Sight(plan, calls[i - 1].jobs) == Terminal;
  }

  /** The plan completed iff the registration was removed successfully. */
  lemma CompletedIffRemoved(calls: seq<Call>, plan: Plan, n: nat, first: seq<Call>, second: seq<Call>, status: Status)
    requires Conversation(calls, plan, n, first, second, status)
    ensures status == Completed <==> Remove(plan.runnerId, true) in calls
  {
    if status == Completed {
      assert calls[|calls| - 1] == Remove(plan.runnerId, true);
    } else if Remove(plan.runnerId, true) in calls {
      var i :| 0 <= i < |calls| && calls[i] == Remove(plan.runnerId, true);
      DeletesOnlyAfterTerminalSighting(calls, plan, n, first, second, status, i);
    }
  }

  /** The run is cancelled once, first, and the conversation is at most two polling phases and three requests long. */
  lemma CancelsOnceFirst(calls: seq<Call>, plan: Plan, n: nat, first: seq<Call>, second: seq<Call>, status: Status)
    requires Conversation(calls, plan, n, first, second, status)
    ensures |calls| <= 2 * n + 3
    ensures calls != [] ==> calls[0].Cancel? && calls[0].repo == plan.repo && calls[0].runId == plan.runId
    ensures forall i :: 0 < i < |calls| ==> !calls[i].Cancel? && calls[0].ok
    ensures calls == [] <==> n == 0
  {
  }

  /** A force-cancel follows exactly `n` lookups that all saw the job in progress. */
  lemma ForceCancelsOnlyAfterFullPoll(
    calls: seq<Call>, plan: Plan, n: nat, first: seq<Call>, second: seq<Call>, status: Status, i: nat)
    requires Conversation(calls, plan, n, first, second, status)
    requires i < |calls| && calls[i].ForceCancel?
    ensures i == n + 1 && calls[0] == Cancel(plan.repo, plan.runId, true)
    ensures forall k :: 1 <= k <= n ==> calls[k].ListJobs? && Sight(plan, calls[k].jobs) == InProgress
  {
  }

  // ----- A batch -----------------------------------------------------------------------------

  function Flatten(segments: seq<seq<Call>>): seq<Call> {
    if segments == [] then [] else Flatten(segments[..|segments| - 1]) + segments[|segments| - 1]
  }

  predicate SeenBefore(plans: seq<Plan>, i: nat)
    requires i < |plans|
  {
    exists j :: 0 <= j < i && plans[j].runnerId == plans[i].runnerId
  }

  /** Segment `i` is silent when its runner already had a plan, and otherwise one whole conversation. */
  ghost predicate IsBatch(plans: seq<Plan>, n: nat, segments: seq<seq<Call>>, es: seq<Execution>) {
    && |segments| == |es| <= |plans|
    && forall i :: 0 <= i < |es| ==> IsBatchEntry(plans, n, segments[i], es[i], i)
  }

  ghost predicate IsBatchEntry(plans: seq<Plan>, n: nat, segment: seq<Call>, e: Execution, i: nat)
    requires i < |plans|
  {
    && e.plan == plans[i] && ReportsDeletion(e)
    && if SeenBefore(plans, i) then e.status == DuplicateRunnerPlan && segment == []
       else exists first, second :: Conversation(segment, plans[i], n, first, second, e.status)
  }

  method ExecuteReaperPlans(api: ReaperApi, plans: seq<Plan>, pollAttempts: nat)
    returns (es: seq<Execution>, ghost segments: seq<seq<Call>>)
    modifies api`log
    ensures api.log == old(api.log) + Flatten(segments)
    ensures |es| == |plans| && IsBatch(plans, pollAttempts, segments, es)
  {
    es, segments := [], [];
    var seen: set<nat> := {};
    for i := 0 to |plans|
      invariant |es| == |segments| == i
      invariant seen == set j | 0 <= j < i :: plans[j].runnerId
      invariant api.log == old(api.log) + Flatten(segments)
      invariant IsBatch(plans, pollAttempts, segments, es)
    {
      ghost var segment: seq<Call> := [];
      var e: Execution;
      if plans[i].runnerId in seen {
        e := Execution(plans[i], DuplicateRunnerPlan, [StepResult(ValidateUniquePlan, StepFailed)]);
        assert SeenBefore(plans, i);
      } else {
        seen := seen + {plans[i].runnerId};
        ghost var first, second;
        e, segment, first, second := ExecuteReaperPlan(api, plans[i], pollAttempts);
      }
      assert IsBatchEntry(plans, pollAttempts, segment, e, i);
      es := es + [e];
      ghost var before := segments;
      segments := segments + [segment];
      assert segments[..i] == before;
    }
  }

  lemma {:induction false} RemovalsConcat(a: seq<Call>, b: seq<Call>, id: nat)
    ensures Removals(a + b, id) == Removals(a, id) + Removals(b, id)
  {
    if b == [] {
      assert a + b == a;
    } else {
      RemovalsConcat(a, b[..|b| - 1], id);
      assert (a + b)[..|a + b| - 1] == a + b[..|b| - 1];
    }
  }

  lemma {:induction false} NoRemovals(calls: seq<Call>, id: nat)
    requires forall i :: 0 <= i < |calls| ==> calls[i].Remove? ==> calls[i].runnerId != id
    ensures Removals(calls, id) == 0
  {
    if calls != [] {
      NoRemovals(calls[..|calls| - 1], id);
    }
  }

  lemma {:induction false} EntryRemovals(plans: seq<Plan>, n: nat, segment: seq<Call>, e: Execution, i: nat, id: nat)
    requires i < |plans| && IsBatchEntry(plans, n, segment, e, i)
    ensures Removals(segment, id) <= if plans[i].runnerId == id && !SeenBefore(plans, i) then 1 else 0
  {
    if !SeenBefore(plans, i) && segment != [] {
      var first, second :| Conversation(segment, plans[i], n, first, second, e.status);
      forall k | 0 <= k < |segment| && segment[k].Remove?
        ensures k == |segment| - 1 && segment[k].runnerId == plans[i].runnerId
      {
        DeletesOnlyAfterTerminalSighting(segment, plans[i], n, first, second, e.status, k);
      }
      NoRemovals(segment[..|segment| - 1], id);
    }
  }

  /** Over a whole batch, with any duplicates, every runner registration is removed at most once. */
  lemma {:induction false} EachRunnerRemovedAtMostOnce(
    plans: seq<Plan>, n: nat, segments: seq<seq<Call>>, es: seq<Execution>, id: nat)
    requires IsBatch(plans, n, segments, es)
    ensures Removals(Flatten(segments), id) <= 1
    ensures Removals(Flatten(segments), id) == 1 ==> exists i :: 0 <= i < |es| && plans[i].runnerId == id
    decreases |segments|
  {
    if segments != [] {
      var k := |segments| - 1;
      EachRunnerRemovedAtMostOnce(plans, n, segments[..k], es[..k], id);
      RemovalsConcat(Flatten(segments[..k]), segments[k], id);
      assert IsBatchEntry(plans, n, segments[k], es[k], k);
      EntryRemovals(plans, n, segments[k], es[k], k, id);
    }
  }

  /** Cancels and force-cancels sent. */
  function Cancels(calls: seq<Call>, forced: bool): nat {
    if calls == [] then 0
    else Cancels(calls[..|calls| - 1], forced)
         + (if (if forced then calls[|calls| - 1].ForceCancel? else calls[|calls| - 1].Cancel?) then 1 else 0)
  }

  /** Those sent on behalf of one runner over a batch. */
  function CancelsFor(plans: seq<Plan>, segments: seq<seq<Call>>, id: nat, forced: bool): nat
    requires |segments| <= |plans|
  {
    if segments == [] then 0
    else
      var k := |segments| - 1;
      CancelsFor(plans, segments[..k], id, forced) + if plans[k].runnerId == id then Cancels(segments[k], forced) else 0
  }

  /** A call at one place only is counted at most once. */
  lemma {:induction false} OneCancel(calls: seq<Call>, forced: bool, at: nat)
    requires forall i :: 0 <= i < |calls| && i != at ==> if forced then !calls[i].ForceCancel? else !calls[i].Cancel?
    ensures Cancels(calls, forced) <= if at < |calls| then 1 else 0
  {
    if calls != [] {
      OneCancel(calls[..|calls| - 1], forced, at);
    }
  }

  lemma {:induction false} ConversationCancels(
    calls: seq<Call>, plan: Plan, n: nat, first: seq<Call>, second: seq<Call>, status: Status, forced: bool)
    requires Conversation(calls, plan, n, first, second, status)
    ensures Cancels(calls, forced) <= 1
  {
    CancelsOnceFirst(calls, plan, n, first, second, status);
    if forced {
      forall i | 0 <= i < |calls| && i != n + 1 ensures !calls[i].ForceCancel? {
        if calls[i].ForceCancel? {
          ForceCancelsOnlyAfterFullPoll(calls, plan, n, first, second, status, i);
        }
      }
      OneCancel(calls, true, n + 1);
    } else {
      OneCancel(calls, false, 0);
    }
  }

  /** Over a whole batch, with any duplicates, at most one cancel and one force-cancel is sent for each runner. */
  lemma {:induction false} EachRunnerCancelledAtMostOnce(
    plans: seq<Plan>, n: nat, segments: seq<seq<Call>>, es: seq<Execution>, id: nat, forced: bool)
    requires IsBatch(plans, n, segments, es)
    ensures CancelsFor(plans, segments, id, forced) <= 1
    ensures CancelsFor(plans, segments, id, forced) == 1 ==> exists i :: 0 <= i < |es| && plans[i].runnerId == id
    decreases |segments|
  {
    if segments != [] {
      var k := |segments| - 1;
      EachRunnerCancelledAtMostOnce(plans, n, segments[..k], es[..k], id, forced);
      assert IsBatchEntry(plans, n, segments[k], es[k], k);
      if !SeenBefore(plans, k) {
        var first, second :| Conversation(segments[k], plans[k], n, first, second, es[k].status);
        ConversationCancels(segments[k], plans[k], n, first, second, es[k].status, forced);
      }
    }
  }

  // ----- Lookups and statuses, written out ---------------------------------------------------------

  /** Place `j` holds the first job of the list with this id. */
  predicate IsFirstAt(jobs: seq<Job>, id: nat, j: nat) {
    j < |jobs| && jobs[j].id == id && forall i :: 0 <= i < j ==> jobs[i].id != id
  }

  lemma {:induction false} FirstWithIdIs(jobs: seq<Job>, id: nat)
    ensures FirstWithId(jobs, id).None? <==> forall i :: 0 <= i < |jobs| ==> jobs[i].id != id
    ensures forall j: nat :: IsFirstAt(jobs, id, j) ==> FirstWithId(jobs, id) == Some(jobs[j])
    ensures FirstWithId(jobs, id).Some? ==> exists j: nat :: IsFirstAt(jobs, id, j)
  {
    if jobs != [] {
      var rest := jobs[1..];
      FirstWithIdIs(rest, id);
      if jobs[0].id == id {
        assert IsFirstAt(jobs, id, 0);
      } else {
        forall j: nat | IsFirstAt(jobs, id, j) ensures FirstWithId(jobs, id) == Some(jobs[j]) {
          assert IsFirstAt(rest, id, j - 1);
        }
        if FirstWithId(jobs, id).Some? {
          var j: nat :| IsFirstAt(rest, id, j);
          assert IsFirstAt(jobs, id, j + 1);
        }
      }
    }
  }

  /** The call is a lookup of the planned run that returned a list whose first job with the planned id is at `j`. */
  predicate Finds(c: Call, plan: Plan, j: nat) {
    && c.ListJobs? && c.repo == plan.repo && c.runId == plan.runId
    && c.jobs.Some? && IsFirstAt(c.jobs.value, plan.jobId, j)
  }

  /** That job is the planned runner's, by id or by name. */
  predicate FindsOurs(c: Call, plan: Plan, j: nat) {
    && Finds(c, plan, j)
    && (c.jobs.value[j].runnerId == Some(plan.runnerId) || c.jobs.value[j].runnerName == Some(plan.runnerName))
  }

  ghost predicate SeesRunning(c: Call, plan: Plan) {
    exists j: nat :: FindsOurs(c, plan, j) && c.jobs.value[j].status == "in_progress"
  }

  ghost predicate SeesFinished(c: Call, plan: Plan) {
    exists j: nat :: FindsOurs(c, plan, j) && c.jobs.value[j].status != "in_progress"
  }

  ghost predicate SeesAnothers(c: Call, plan: Plan) {
    exists j: nat :: Finds(c, plan, j) && !FindsOurs(c, plan, j)
  }

  /** No job of the returned list has the planned id. */
  predicate SeesNone(c: Call, plan: Plan) {
    && c.ListJobs? && c.repo == plan.repo && c.runId == plan.runId && c.jobs.Some?
    && forall i :: 0 <= i < |c.jobs.value| ==> c.jobs.value[i].id != plan.jobId
  }

  predicate Fails(c: Call, plan: Plan) {
    c.ListJobs? && c.repo == plan.repo && c.runId == plan.runId && c.jobs.None?
  }

  /** What each sighting is, in terms of the list alone. */
  lemma {:induction false} SightingsAre(plan: Plan, c: Call)
    requires c.ListJobs? && c.repo == plan.repo && c.runId == plan.runId
    ensures Sight(plan, c.jobs) == InProgress <==> SeesRunning(c, plan)
    ensures Sight(plan, c.jobs) == Terminal <==> SeesFinished(c, plan)
    ensures Sight(plan, c.jobs) == CorrelationChanged <==> SeesAnothers(c, plan)
    ensures Sight(plan, c.jobs) == Missing <==> SeesNone(c, plan)
    ensures Sight(plan, c.jobs) == LookupFailed <==> Fails(c, plan)
  {
    if c.jobs.Some? {
      FirstWithIdIs(c.jobs.value, plan.jobId);
      forall j: nat, k: nat | Finds(c, plan, j) && Finds(c, plan, k) ensures j == k {
      }
      if FirstWithId(c.jobs.value, plan.jobId).Some? {
        var j: nat :| IsFirstAt(c.jobs.value, plan.jobId, j);
        assert Finds(c, plan, j);
      }
    }
  }

  lemma PollingSees(calls: seq<Call>, plan: Plan, n: nat, end: Sighting)
    requires IsPolling(calls, plan, n, end)
    ensures forall i :: 0 <= i < |calls| - 1 ==> SeesRunning(calls[i], plan)
    ensures end.InProgress? ==> |calls| == n && forall i :: 0 <= i < n ==> SeesRunning(calls[i], plan)
    ensures var last := calls[|calls| - 1];
            last.ListJobs? && last.repo == plan.repo && last.runId == plan.runId && Sight(plan, last.jobs) == end
  {
    forall i | 0 <= i < |calls| ensures Sight(plan, calls[i].jobs) == InProgress <==> SeesRunning(calls[i], plan) {
      SightingsAre(plan, calls[i]);
    }
  }

  /** Before a force-cancel each of `n` lookups showed the planned job, still the planned runner's, in progress. */
  lemma ForceCancelsOnlyRunningJobs(
    calls: seq<Call>, plan: Plan, n: nat, first: seq<Call>, second: seq<Call>, status: Status, i: nat)
    requires Conversation(calls, plan, n, first, second, status)
    requires i < |calls| && calls[i].ForceCancel?
    ensures i == n + 1 && calls[i].repo == plan.repo && calls[i].runId == plan.runId
    ensures forall k :: 1 <= k <= n ==> SeesRunning(calls[k], plan)
  {
    ForceCancelsOnlyAfterFullPoll(calls, plan, n, first, second, status, i);
    forall k | 1 <= k <= n ensures SeesRunning(calls[k], plan) {
      assert calls[k] == first[k - 1];
      SightingsAre(plan, calls[k]);
    }
  }

  /** A registration is removed only straight after the planned job, still the planned runner's, was seen out of progress. */
  lemma RemovesOnlyFinishedJobs(
    calls: seq<Call>, plan: Plan, n: nat, first: seq<Call>, second: seq<Call>, status: Status, i: nat)
    requires Conversation(calls, plan, n, first, second, status)
    requires i < |calls| && calls[i].Remove?
    ensures i == |calls| - 1 && i >= 2 && calls[i].runnerId == plan.runnerId && SeesFinished(calls[i - 1], plan)
  {
    DeletesOnlyAfterTerminalSighting(calls, plan, n, first, second, status, i);
    SightingsAre(plan, calls[i - 1]);
  }

  /** Two full phases of lookups that all saw the job in progress, with an accepted force-cancel between them. */
  ghost predicate IsTimeout(calls: seq<Call>, plan: Plan, n: nat) {
    && |calls| == 2 * n + 2
    && calls[0] == Cancel(plan.repo, plan.runId, true) && calls[n + 1] == ForceCancel(plan.repo, plan.runId, true)
    && (forall k :: 1 <= k <= n ==> SeesRunning(calls[k], plan))
    && (forall k :: n + 2 <= k < |calls| ==> SeesRunning(calls[k], plan))
  }

  lemma SettledEnds(calls: seq<Call>, plan: Plan, n: nat, first: seq<Call>, second: seq<Call>, end: Sighting)
    requires Settled(calls, plan, n, first, second, end)
    ensures |calls| >= 2
    ensures var last := calls[|calls| - 1];
            last.ListJobs? && last.repo == plan.repo && last.runId == plan.runId && Sight(plan, last.jobs) == end
    ensures end.InProgress? ==> IsTimeout(calls, plan, n)
  {
    if !end.InProgress? && calls == [Cancel(plan.repo, plan.runId, true)] + first {
      PollingSees(first, plan, n, end);
    } else {
      PollingSees(first, plan, n, InProgress);
      PollingSees(second, plan, n, end);
      if end.InProgress? {
        forall k | 1 <= k <= n ensures SeesRunning(calls[k], plan) {
          assert calls[k] == first[k - 1];
        }
        forall k | n + 2 <= k < |calls| ensures SeesRunning(calls[k], plan) {
          assert calls[k] == second[k - n - 2];
        }
      }
    }
  }

  /** The status is what the last call says, whichever way the conversation went. */
  lemma StatusIsLastCall(calls: seq<Call>, plan: Plan, n: nat, first: seq<Call>, second: seq<Call>, status: Status)
    requires Conversation(calls, plan, n, first, second, status)
    ensures status == InvalidPollLimit <==> calls == []
    ensures calls != [] ==>
              var last := calls[|calls| - 1];
              && (status == CancelFailed <==> last.Cancel? && !last.ok)
              && (status == ForceCancelFailed <==> last.ForceCancel? && !last.ok)
              && (status == Completed <==> last.Remove? && last.ok)
              && (status == DeleteFailed <==> last.Remove? && !last.ok)
              && (status == JobLookupFailed <==> Fails(last, plan))
              && (status == JobMissing <==> SeesNone(last, plan))
              && (status == JobCorrelationChanged <==> SeesAnothers(last, plan))
              && (status == PollTimedOut <==> SeesRunning(last, plan))
              && (status == PollTimedOut <==> IsTimeout(calls, plan, n))
  {
    if calls != [] && calls[|calls| - 1].ListJobs? {
      SettledEnds(calls, plan, n, first, second, FailedSighting(status));
      SightingsAre(plan, calls[|calls| - 1]);
    }
  }

  // ----- Reports, written out --------------------------------------------------------------------------

  /** The last step reported to the operator: the deletion as it went, or skipped, or the check that failed. */
  lemma ReportIs(e: Execution)
    requires ReportsDeletion(e)
    ensures e.steps != []
    ensures var last := e.steps[|e.steps| - 1];
            && (last.action == DeleteRunner && last.status == StepSucceeded <==> e.status == Completed)
            && (last.action == DeleteRunner && last.status == StepFailed <==> e.status == DeleteFailed)
            && (last.action == ValidatePollAttempts && last.status == StepFailed <==> e.status == InvalidPollLimit)
            && (last.action == ValidateUniquePlan && last.status == StepFailed <==> e.status == DuplicateRunnerPlan)
            && (last.action == DeleteRunner && last.status == StepSkipped <==>
                e.status in {CancelFailed, ForceCancelFailed, JobLookupFailed, JobMissing, JobCorrelationChanged, PollTimedOut})
  {
  }

  /** A plan of a batch is refused as a duplicate, without a call, iff an earlier one has its runner. */
  lemma DuplicatesAre(plans: seq<Plan>, n: nat, segments: seq<seq<Call>>, es: seq<Execution>, i: nat)
    requires IsBatch(plans, n, segments, es) && i < |es|
    ensures |segments| == |es| <= |plans| && es[i].plan == plans[i] && ReportsDeletion(es[i])
    ensures es[i].status == DuplicateRunnerPlan <==> exists j :: 0 <= j < i && plans[j].runnerId == plans[i].runnerId
    ensures es[i].status == DuplicateRunnerPlan ==> segments[i] == []
    ensures es[i].status != DuplicateRunnerPlan ==>
              exists first, second :: Conversation(segments[i], plans[i], n, first, second, es[i].status)
  {
    assert IsBatchEntry(plans, n, segments[i], es[i], i);
  }

  /** With a limit of at least one the run is always cancelled first; with none nothing is sent. */
  lemma CancelsUnlessLimitIsZero(calls: seq<Call>, plan: Plan, n: nat, first: seq<Call>, second: seq<Call>, status: Status)
    requires Conversation(calls, plan, n, first, second, status)
    ensures n == 0 <==> calls == []
    ensures n >= 1 ==> calls[0].Cancel? && calls[0].repo == plan.repo && calls[0].runId == plan.runId
    ensures n >= 1 && !calls[0].ok ==> |calls| == 1 && status == CancelFailed
  {
  }
}
