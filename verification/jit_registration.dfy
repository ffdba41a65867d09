/**
 Just-in-time runner registration and its name-conflict self-heal (src/github.rs). Every logical
 GitHub request is answered arbitrarily by `GithubApi`, which logs it. A logical request is one
 whole retry loop of module `GhBackoff`.
 */
module JitRegistration {
  import opened Wrappers

  datatype RunnerInfo = RunnerInfo(id: nat, name: string, status: string, busy: bool)

  datatype Page = Page(totalCount: Option<nat>, runners: seq<RunnerInfo>)

  datatype Registration = Registration(encodedJitConfig: string, runnerId: nat)

  /** `Accepted(None)` is a zero exit whose body does not parse. */
  datatype RegisterReply =
    | Unrunnable
    | Refused(alreadyExists: bool)
    | Accepted(body: Option<Registration>)

  datatype RegisterError = GhUnrunnable | RegistrationRefused | NameInUse(holder: nat) | UnexpectedResponse

  /** `List(None)` is a listing that failed or did not parse. */
  datatype Call =
    | Register(name: string, reply: RegisterReply)
    | List(pages: Option<seq<Page>>)
    | Delete(id: nat, ok: bool)

  class GithubApi {
    const registers: nat -> RegisterReply
    const lists: nat -> Option<seq<Page>>
    const deletes: nat -> bool
    var log: seq<Call>

    constructor (registers: nat -> RegisterReply, lists: nat -> Option<seq<Page>>, deletes: nat -> bool)
      ensures log == [] && this.registers == registers && this.lists == lists && this.deletes == deletes
    {
      this.registers, this.lists, this.deletes, log := registers, lists, deletes, [];
    }

    method RegisterRunner(name: string) returns (reply: RegisterReply)
      modifies this`log
      ensures reply == registers(|old(log)|) && log == old(log) + [Register(name, reply)]
    {
      reply := registers(|log|);
      log := log + [Register(name, reply)];
    }

    method ListPages() returns (pages: Option<seq<Page>>)
      modifies this`log
      ensures pages == lists(|old(log)|) && log == old(log) + [List(pages)]
    {
      pages := lists(|log|);
      log := log + [List(pages)];
    }

    method RemoveRunner(id: nat) returns (ok: bool)
      modifies this`log
      ensures ok == deletes(|old(log)|) && log == old(log) + [Delete(id, ok)]
    {
      ok := deletes(|log|);
      log := log + [Delete(id, ok)];
    }
  }

  // ----- Snapshots ---------------------------------------------------------------------------

  function Flatten(pages: seq<Page>): seq<RunnerInfo> {
    if pages == [] then [] else pages[0].runners + Flatten(pages[1..])
  }

  datatype SnapshotOutcome = Complete | Partial(expected: nat, observed: nat)

  /** The page-0 total, when GitHub gave one. */
  function PromisedTotal(pages: seq<Page>): Option<nat> {
    if pages == [] then None else pages[0].totalCount
  }

  /** Partial exactly when page 0 promised another number of runners than the stream holds. */
  method VerifySnapshotComplete(pages: seq<Page>) returns (outcome: SnapshotOutcome)
    ensures outcome.Complete? <==> PromisedTotal(pages).None? || PromisedTotal(pages).value == |Flatten(pages)|
    ensures outcome.Partial? ==> PromisedTotal(pages) == Some(outcome.expected) && outcome.observed == |Flatten(pages)|
  {
    var observed := 0;
    for i := 0 to |pages|
      invariant observed + |Flatten(pages[i..])| == |Flatten(pages)|
    {
      observed := observed + |pages[i].runners|;
      assert pages[i..][1..] == pages[i + 1..];
    }
    if PromisedTotal(pages).Some? && PromisedTotal(pages).value != observed {
      return Partial(PromisedTotal(pages).value, observed);
    }
    return Complete;
  }

  /** The listing a caller may act on: `None` unless it was fetched, parsed and complete. */
  function Trusted(pages: Option<seq<Page>>): Option<seq<RunnerInfo>> {
    if pages.None? then None
    else if PromisedTotal(pages.value).Some? && PromisedTotal(pages.value).value != |Flatten(pages.value)| then None
    else Some(Flatten(pages.value))
  }

  method ListRunners(api: GithubApi) returns (runners: Option<seq<RunnerInfo>>, ghost call: Call)
    modifies api`log
    ensures api.log == old(api.log) + [call] && call.List? && runners == Trusted(call.pages)
  {
    var pages := api.ListPages();
    call := List(pages);
    if pages.None? {
      return None, call;
    }
    var outcome := VerifySnapshotComplete(pages.value);
    if outcome.Partial? {
      return None, call;
    }
    return Some(Flatten(pages.value)), call;
  }

  // ----- Reclaiming a name -------------------------------------------------------------------

  function ToAsciiLowercase(c: char): char {
    if 'A' <= c <= 'Z' then ((c as int) - ('A' as int) + ('a' as int)) as char else c
  }

  predicate EqIgnoreAsciiCase(a: string, b: string) {
    |a| == |b| && forall i :: 0 <= i < |a| ==> ToAsciiLowercase(a[i]) == ToAsciiLowercase(b[i])
  }

  predicate IsReclaimable(runner: RunnerInfo, owned: set<nat>) {
    runner.id in owned || (EqIgnoreAsciiCase(runner.status, "offline") && !runner.busy)
  }

  function FirstNamed(runners: seq<RunnerInfo>, name: string): Option<RunnerInfo> {
    if runners == [] then None
    else if runners[0].name == name then Some(runners[0])
    else FirstNamed(runners[1..], name)
  }

  lemma {:induction false} FirstNamedIsListed(runners: seq<RunnerInfo>, name: string)
    ensures FirstNamed(runners, name).Some? ==>
              FirstNamed(runners, name).value in runners && FirstNamed(runners, name).value.name == name
    ensures FirstNamed(runners, name).None? ==> forall r :: r in runners ==> r.name != name
  {
    if runners != [] && runners[0].name != name {
      FirstNamedIsListed(runners[1..], name);
    }
  }

  /** What a failed registration with `name` goes on to do, given the listing it fetched. */
  datatype Verdict = Unknown | Free | Held(holder: RunnerInfo) | Reclaim(zombie: RunnerInfo)

  function Judge(pages: Option<seq<Page>>, name: string, owned: set<nat>): Verdict {
    var runners := Trusted(pages);
    if runners.None? then Unknown
    else
      var holder := FirstNamed(runners.value, name);
      if holder.None? then Free
      else if IsReclaimable(holder.value, owned) then Reclaim(holder.value)
      else Held(holder.value)
  }

  // ----- Registration ------------------------------------------------------------------------

  function Parsed(body: Option<Registration>): Result<Registration, RegisterError> {
    if body.Some? then Ok(body.value) else Err(UnexpectedResponse)
  }

  /** Every conversation one registration can have, and its answer. */
  predicate IsRegistration(calls: seq<Call>, name: string, owned: set<nat>, r: Result<Registration, RegisterError>) {
    && 1 <= |calls| <= 4 && calls[0].Register? && calls[0].name == name
    && match calls[0].reply
       case Unrunnable => |calls| == 1 && r == Err(GhUnrunnable)
       case Accepted(body) => |calls| == 1 && r == Parsed(body)
       case Refused(alreadyExists) =>
         if !alreadyExists then |calls| == 1 && r == Err(RegistrationRefused)
         else |calls| >= 2 && calls[1].List? && IsSelfHeal(calls[2..], Judge(calls[1].pages, name, owned), name, r)
  }

  predicate IsSelfHeal(calls: seq<Call>, v: Verdict, name: string, r: Result<Registration, RegisterError>) {
    match v
    case Unknown => calls == [] && r == Err(RegistrationRefused)
    case Free => calls == [] && r == Err(RegistrationRefused)
    case Held(holder) => calls == [] && r == Err(NameInUse(holder.id))
    case Reclaim(zombie) =>
      || (calls == [Delete(zombie.id, false)] && r == Err(RegistrationRefused))
      || (&& |calls| == 2 && calls[0] == Delete(zombie.id, true) && calls[1].Register? && calls[1].name == name
          && r == match calls[1].reply
                  case Unrunnable => Err(GhUnrunnable)
                  case Refused(_) => Err(RegistrationRefused)
                  case Accepted(body) => Parsed(body))
  }

  method GenerateJitconfig(api: GithubApi, name: string, owned: set<nat>)
    returns (r: Result<Registration, RegisterError>, ghost calls: seq<Call>)
    modifies api`log
    ensures api.log == old(api.log) + calls && IsRegistration(calls, name, owned, r)
  {
    var reply := api.RegisterRunner(name);
    calls := [Register(name, reply)];
    if reply.Unrunnable? {
      return Err(GhUnrunnable), calls;
    }
    if reply.Accepted? {
      return Parsed(reply.body), calls;
    }
    if reply.alreadyExists {
      ghost var listing;
      var runners;
      runners, listing := ListRunners(api);
      calls := calls + [listing];
      if runners.Some? {
        var conflicting := FirstNamed(runners.value, name);
        if conflicting.Some? {
          if !IsReclaimable(conflicting.value, owned) {
            return Err(NameInUse(conflicting.value.id)), calls;
          }
          var removed := api.RemoveRunner(conflicting.value.id);
          calls := calls + [Delete(conflicting.value.id, removed)];
          if removed {
            var retry := api.RegisterRunner(name);
            calls := calls + [Register(name, retry)];
            assert calls[2..] == [Delete(conflicting.value.id, true), Register(name, retry)];
            if retry.Unrunnable? {
              return Err(GhUnrunnable), calls;
            }
            if retry.Accepted? {
              return Parsed(retry.body), calls;
            }
          }
        }
      }
    }
    return Err(RegistrationRefused), calls;
  }

  // ----- What every registration guarantees ------------------------------------------------------

  /**
   At most one delete is issued, third in the conversation, and only of a runner that carries exactly
   the requested name in a listing whose promised total, if any, it met; that runner is owned by this
   host, or offline and idle.
   */
  lemma DeletesOnlyReclaimable(
    calls: seq<Call>, name: string, owned: set<nat>, r: Result<Registration, RegisterError>, i: nat)
    requires IsRegistration(calls, name, owned, r) && i < |calls| && calls[i].Delete?
    ensures i == 2 && calls[1].List? && calls[1].pages.Some?
    ensures var pages := calls[1].pages.value;
            && (PromisedTotal(pages).Some? ==> PromisedTotal(pages).value == |Flatten(pages)|)
            && exists runner :: runner in Flatten(pages) && runner.id == calls[i].id && runner.name == name
                                && (runner.id in owned || (EqIgnoreAsciiCase(runner.status, "offline") && !runner.busy))
  {
    assert forall k :: 0 <= k < |calls[2..]| ==> calls[2..][k] == calls[k + 2];
    FirstNamedIsListed(Flatten(calls[1].pages.value), name);
  }

  /** A second registration is only ever the retry straight after a successful delete, and there is no third. */
  lemma RetriesOnlyAfterDelete(
    calls: seq<Call>, name: string, owned: set<nat>, r: Result<Registration, RegisterError>, i: nat)
    requires IsRegistration(calls, name, owned, r) && 0 < i < |calls| && calls[i].Register?
    ensures i == 3 && calls[2].Delete? && calls[2].ok && calls[i].name == name
    ensures calls[0].reply == Refused(true)
  {
    assert forall k :: 0 <= k < |calls[2..]| ==> calls[2..][k] == calls[k + 2];
  }

  /** The caller gets a registration iff the last request sent was a registration that GitHub accepted and that parsed. */
  lemma SucceedsIffLastAccepted(calls: seq<Call>, name: string, owned: set<nat>, r: Result<Registration, RegisterError>)
    requires IsRegistration(calls, name, owned, r)
    ensures var last := calls[|calls| - 1];
            forall reg :: r == Ok(reg) <==> last.Register? && last.reply == Accepted(Some(reg))
  {
    if |calls| >= 2 {
      assert forall k :: 0 <= k < |calls[2..]| ==> calls[2..][k] == calls[k + 2];
    }
  }

  /** The name of a live runner this host does not own is never taken: no delete, no retry, an error naming it. */
  lemma {:induction false} LiveSiblingIsSpared(
    calls: seq<Call>, name: string, owned: set<nat>, r: Result<Registration, RegisterError>, holder: RunnerInfo)
    requires IsRegistration(calls, name, owned, r)
    requires |calls| >= 2 && Trusted(calls[1].pages).Some?
    requires FirstNamed(Trusted(calls[1].pages).value, name) == Some(holder) && !IsReclaimable(holder, owned)
    ensures |calls| == 2 && r == Err(NameInUse(holder.id))
  {
  }

  // ----- Deletions, written out ----------------------------------------------------------------------

  predicate IsUpperOf(upper: char, lower: char) {
    'a' <= lower <= 'z' && upper as int + 32 == lower as int
  }

  /** The word "offline", in any mix of cases. */
  predicate SaysOffline(status: string) {
    |status| == 7 && forall i :: 0 <= i < 7 ==> status[i] == "offline"[i] || IsUpperOf(status[i], "offline"[i])
  }

  lemma OfflineIff(status: string)
    ensures EqIgnoreAsciiCase(status, "offline") <==> SaysOffline(status)
  {
  }

  /** `holder` is the first listed runner with exactly this name. */
  ghost predicate IsFirstNamed(runners: seq<RunnerInfo>, name: string, holder: RunnerInfo) {
    exists i :: 0 <= i < |runners| && runners[i] == holder && holder.name == name
                && forall k :: 0 <= k < i ==> runners[k].name != name
  }

  lemma {:induction false} FirstNamedIs(runners: seq<RunnerInfo>, name: string, holder: RunnerInfo)
    ensures FirstNamed(runners, name) == Some(holder) <==> IsFirstNamed(runners, name, holder)
  {
    if runners != [] {
      FirstNamedIs(runners[1..], name, holder);
      if runners[0].name == name {
        if IsFirstNamed(runners, name, holder) {
          assert runners[0].name == name;
        }
        if runners[0] == holder {
          assert IsFirstNamed(runners, name, holder);
        }
      } else {
        if IsFirstNamed(runners[1..], name, holder) {
          var i :| 0 <= i < |runners[1..]| && runners[1..][i] == holder && holder.name == name
                   && forall k :: 0 <= k < i ==> runners[1..][k].name != name;
          assert runners[i + 1] == holder;
          forall k | 0 <= k < i + 1 ensures runners[k].name != name {
            assert k > 0 ==> runners[k] == runners[1..][k - 1];
          }
        }
        if IsFirstNamed(runners, name, holder) {
          var i :| 0 <= i < |runners| && runners[i] == holder && holder.name == name
                   && forall k :: 0 <= k < i ==> runners[k].name != name;
          assert runners[1..][i - 1] == holder;
          forall k | 0 <= k < i - 1 ensures runners[1..][k].name != name {
            assert runners[1..][k] == runners[k + 1];
          }
        }
      }
    }
  }

  /** The listing arrived, and holds as many runners as its first page promised, if it promised any number. */
  predicate IsWhole(pages: Option<seq<Page>>) {
    && pages.Some?
    && (pages.value == [] || pages.value[0].totalCount.None? || pages.value[0].totalCount.value == |Flatten(pages.value)|)
  }

  /**
   What a refused registration goes on to do. A name already in use is looked up; its first holder in a
   whole listing is deleted iff this host owns it or it is offline and idle, and reported otherwise. A
   deletion that succeeds is followed by one more registration, and nothing else is ever sent.
   */
  lemma {:induction false} HolderIsDeletedIff(
    calls: seq<Call>, name: string, owned: set<nat>, r: Result<Registration, RegisterError>, holder: RunnerInfo)
    requires IsRegistration(calls, name, owned, r)
    requires |calls| >= 2 && IsWhole(calls[1].pages) && IsFirstNamed(Flatten(calls[1].pages.value), name, holder)
    ensures |calls| >= 3 && calls[2].Delete? && calls[2].id == holder.id <==>
            holder.id in owned || (SaysOffline(holder.status) && !holder.busy)
    ensures |calls| == 2 ==> r == Err(NameInUse(holder.id))
    ensures |calls| >= 3 ==> |calls| == if calls[2].ok then 4 else 3
  {
    OfflineIff(holder.status);
    FirstNamedIs(Flatten(calls[1].pages.value), name, holder);
    assert forall k :: 0 <= k < |calls[2..]| ==> calls[2..][k] == calls[k + 2];
  }

  /** A listing that is not whole, or in which nobody has the name, ends the conversation. */
  lemma {:induction false} NothingIsDeletedUnseen(
    calls: seq<Call>, name: string, owned: set<nat>, r: Result<Registration, RegisterError>)
    requires IsRegistration(calls, name, owned, r) && |calls| >= 2
    requires !IsWhole(calls[1].pages) || forall runner :: runner in Flatten(calls[1].pages.value) ==> runner.name != name
    ensures |calls| == 2 && r == Err(RegistrationRefused)
  {
    if IsWhole(calls[1].pages) {
      FirstNamedIsListed(Flatten(calls[1].pages.value), name);
    }
  }

  /** The name is looked up iff the first answer was a refusal because it exists already. */
  lemma ListsIffNameExists(calls: seq<Call>, name: string, owned: set<nat>, r: Result<Registration, RegisterError>)
    requires IsRegistration(calls, name, owned, r)
    ensures |calls| >= 2 <==> calls[0].reply == Refused(true)
    ensures |calls| >= 2 ==> calls[1].List?
  {
  }

  /** Every registration sent is for the requested name, the first call is one, and the error is the last call's. */
  lemma ErrorsAre(calls: seq<Call>, name: string, owned: set<nat>, r: Result<Registration, RegisterError>)
    requires IsRegistration(calls, name, owned, r)
    ensures 1 <= |calls| <= 4 && calls[0].Register?
    ensures forall i :: 0 <= i < |calls| && calls[i].Register? ==> calls[i].name == name
    ensures var last := calls[|calls| - 1];
            && (r == Err(GhUnrunnable) <==> last.Register? && last.reply == Unrunnable)
            && (r == Err(UnexpectedResponse) <==> last.Register? && last.reply == Accepted(None))
            && (last.Register? && last.reply.Refused? ==> r == Err(RegistrationRefused))
            && (last.Delete? ==> !last.ok && r == Err(RegistrationRefused))
  {
    assert |calls| >= 2 ==> forall k :: 0 <= k < |calls[2..]| ==> calls[2..][k] == calls[k + 2];
  }
}
