/** How each execution attempt ends (mutations/executor.py), and when plans, approvals and
    requests are accepted. */
module WriteOutcomes {
  import opened Common
  import opened WriteModels
  import opened WriteExecution

  // ----- Stored receipts are returned

  /** A valid request whose plan and approval have a receipt returns that receipt and does nothing
      else, whether or not its window is still open. */
  lemma ReplayReturns(s: System, pid: Pid, r: Request)
    requires pid !in s.procs && ValidatedInputs(r) && KeyOf(r) in s.receipts
    ensures RunFrom(s, [Spawn(pid, r), Advance(pid, Ok), Advance(pid, Ok)])
            == s.(procs := s.procs[pid := Process(r, Finished(Returned(s.receipts[KeyOf(r)])))])
  {
    var spawn, ok := Spawn(pid, r), Advance(pid, Ok);
    RunSnoc(s, [], spawn);
    RunSnoc(s, [] + [spawn], ok);
    RunSnoc(s, [] + [spawn] + [ok], ok);
    assert [] + [spawn] + [ok] + [ok] == [spawn, ok, ok];
    var s2 := Next(Next(s, spawn), ok);
    assert s2 == s.(procs := s.procs[pid := Process(r, Validated)]);
  }

  /** A call that lost the claim returns the receipt its rival has recorded meanwhile. */
  lemma ContenderReturns(s: System, pid: Pid)
    requires pid in s.procs && s.procs[pid].phase.Contended? && KeyOf(s.procs[pid].request) in s.receipts
    ensures var r := s.procs[pid].request;
            Next(s, Advance(pid, Ok))
            == s.(procs := s.procs[pid := Process(r, Finished(Returned(s.receipts[KeyOf(r)])))])
  {}

  /** It loses the claim exactly when the key is claimed, and then looks for a receipt again. */
  lemma ContenderLoses(s: System, pid: Pid)
    requires pid in s.procs && s.procs[pid].phase.Unclaimed? && InWindow(s.procs[pid].request)
    ensures var r := s.procs[pid].request; var s' := Next(s, Advance(pid, Ok));
            s' == if KeyOf(r) in s.claims then s.(procs := s.procs[pid := Process(r, Contended)])
                  else s.(procs := s.procs[pid := Process(r, Claimed)], claims := s.claims[KeyOf(r) := pid])
  {}

  /** Executing again after a success returns the same receipt without a second call. */
  lemma ReplayAfterSuccess(s: System, pid: Pid, r: Request, before: RemoteObject, version: Text, after: RemoteObject,
                           again: Pid, r': Request)
    requires pid !in s.procs && KeyOf(r) !in s.claims && KeyOf(r) !in s.receipts && ValidatedInputs(r) && InWindow(r)
    requires MatchesPreview(r.plan, before) && version != r.plan.beforeVersion && MatchesResult(r.plan, version, after)
    requires again !in s.procs && again != pid && ValidatedInputs(r') && KeyOf(r') == KeyOf(r)
    ensures var s1 := RunFrom(s, Attempt(pid, r, before, version, after));
            var s2 := RunFrom(s1, [Spawn(again, r'), Advance(again, Ok), Advance(again, Ok)]);
            && s2.procs[again := Process(r', Finished(Returned(Succeeded(r.actor, version))))] == s2.procs
            && s2.log == s1.log && s2.receipts == s1.receipts && s2.claims == s1.claims
  {
    AttemptSucceeds(s, pid, r, before, version, after);
    ReplayReturns(RunFrom(s, Attempt(pid, r, before, version, after)), again, r');
  }

  // ----- Every other way out

  /** A request that is not valid, or valid but outside its window without a receipt, ends
      unavailable before anything is claimed. */
  lemma RefusedEarly(s: System, pid: Pid)
    requires pid in s.procs
    ensures var r := s.procs[pid].request;
            var refused := s.(procs := s.procs[pid := Process(r, Finished(Unavailable))]);
            && (s.procs[pid].phase.Start? && !ValidatedInputs(r) ==> Next(s, Advance(pid, Ok)) == refused)
            && (s.procs[pid].phase.Unclaimed? && !InWindow(r) ==> Next(s, Advance(pid, Ok)) == refused)
  {}

  /** The system after a claimed attempt ended with a receipt, having added to the log. */
  function Settled(s: System, pid: Pid, receipt: Receipt, log: seq<Entry>): System
    requires pid in s.procs
  {
    var r := s.procs[pid].request;
    s.(procs := s.procs[pid := Process(r, Finished(Returned(receipt)))], receipts := s.receipts[KeyOf(r) := receipt],
       log := s.log + log)
  }

  ghost predicate FreshClaim(s: System, pid: Pid) {
    pid in s.procs && s.procs[pid].phase.Claimed? && KeyOf(s.procs[pid].request) !in s.receipts
  }

  /** A target that no longer matches the preview is a recorded rejection without a call. */
  lemma ChangedTargetRejected(s: System, pid: Pid, seen: RemoteObject)
    requires FreshClaim(s, pid) && !MatchesPreview(s.procs[pid].request.plan, seen)
    ensures Next(Next(s, Advance(pid, Fetched(seen))), Advance(pid, Ok))
            == Settled(s, pid, Rejected(s.procs[pid].request.actor), [Looked(pid, seen)])
  {
    var r := s.procs[pid].request;
    assert Next(s, Advance(pid, Fetched(seen)))
        == s.(procs := s.procs[pid := Process(r, Completing(Rejected(r.actor)))], log := s.log + [Looked(pid, seen)]);
  }

  /** A target that cannot be fetched is a recorded failure without a call. */
  lemma UnfetchedTargetFails(s: System, pid: Pid, answer: Response)
    requires FreshClaim(s, pid) && (answer.FetchDenied? || answer.FetchFails?)
    ensures Next(Next(s, Advance(pid, answer)), Advance(pid, Ok)) ==
              Settled(s, pid, Failed(s.procs[pid].request.actor), [])
  {
    var r := s.procs[pid].request;
    var s1 := Next(s, Advance(pid, answer));
    assert s1 == s.(procs := s.procs[pid := Process(r, Completing(Failed(r.actor)))]);
    assert s.log + [] == s.log;
  }

  /** A call that the provider refuses, or answers without advancing the version, is a recorded
      failure after exactly that call. */
  lemma RefusedCallFails(s: System, pid: Pid, answer: Response)
    requires pid in s.procs && s.procs[pid].phase.Matched? && KeyOf(s.procs[pid].request) !in s.receipts
    requires answer.WriteDenied? || answer.WriteFails? || answer == Wrote(s.procs[pid].request.plan.beforeVersion)
    ensures Next(Next(s, Advance(pid, answer)), Advance(pid, Ok))
            == Settled(s, pid, Failed(s.procs[pid].request.actor), [Sent(pid)])
  {
    var r := s.procs[pid].request;
    assert Next(s, Advance(pid, answer))
        == s.(procs := s.procs[pid := Process(r, Completing(Failed(r.actor)))], log := s.log + [Sent(pid)]);
  }

  /** After an accepted call, a target that does not show the planned result at the new version ends
      the attempt without any receipt. */
  lemma UnconfirmedCallAmbiguous(s: System, pid: Pid, answer: Response)
    requires pid in s.procs && s.procs[pid].phase.Called?
    requires answer.Fetched? ==> !MatchesResult(s.procs[pid].request.plan, s.procs[pid].phase.version, answer.remote)
    ensures var s' := Next(s, Advance(pid, answer));
            && s'.procs == s.procs[pid := Process(s.procs[pid].request, Finished(Unavailable))]
            && s'.receipts == s.receipts && s'.claims == s.claims
  {}

  /** What a fetched object must agree with, before and after. */
  lemma MatchesExactly(p: WritePlan, version: Text, o: RemoteObject)
    ensures MatchesPreview(p, o) <==>
              o == RemoteObject(p.connectorId, p.profileId, p.profileVersion, p.objectType, p.targetId,
                  p.beforeVersion, p.before)
    ensures MatchesResult(p, version, o) <==>
              o == RemoteObject(p.connectorId, p.profileId, p.profileVersion, p.objectType, p.targetId, version,
                  p.after)
  {}

  /** A call that lost the claim and finds no receipt ends unavailable. */
  lemma ContenderGivesUp(s: System, pid: Pid)
    requires pid in s.procs && s.procs[pid].phase.Contended? && KeyOf(s.procs[pid].request) !in s.receipts
    ensures Next(s, Advance(pid, Ok))
            == s.(procs := s.procs[pid := Process(s.procs[pid].request, Finished(Unavailable))])
  {}

  /** The store is asked in these phases. */
  predicate AsksStore(phase: Phase) {
    phase.Validated? || phase.Unclaimed? || phase.Contended? || phase.Completing? || phase.Committing?
  }

  /** A store that fails ends the attempt unavailable without a call; a claim or receipt it has
      written all the same stands. */
  lemma StoreFailureEnds(s: System, pid: Pid, answer: Response)
    requires pid in s.procs && AsksStore(s.procs[pid].phase) && answer != Ok
    ensures var r, phase := s.procs[pid].request, s.procs[pid].phase;
            var s', wrote := Next(s, Advance(pid, answer)), answer == StoreFails(true);
            && s'.procs == s.procs[pid := Process(r, Finished(Unavailable))] && s'.log == s.log
            && s'.claims == (if phase.Unclaimed? && InWindow(r) && KeyOf(r) !in s.claims && wrote
                             then s.claims[KeyOf(r) := pid] else s.claims)
            && s'.receipts == (if KeyOf(r) in s.receipts || !wrote then s.receipts
                               else if phase.Completing? then s.receipts[KeyOf(r) := phase.failure]
                               else if phase.Committing? then s.receipts[KeyOf(r) := phase.success] else s.receipts)
  {}

  /** A call cut off while the provider is at work stays on record and never settles. */
  lemma CutOffAborts(s: System, pid: Pid)
    requires pid in s.procs && s.procs[pid].phase.Matched?
    ensures Next(s, Advance(pid, WriteCutOff))
            == s.(procs := s.procs[pid := Process(s.procs[pid].request, Finished(Aborted))], log := s.log + [Sent(pid)])
  {}

  /** A crash ends a running attempt with what it has done so far, for good. */
  lemma CrashEnds(s: System, pid: Pid, r: Request, answer: Response)
    requires pid in s.procs && !s.procs[pid].phase.Finished?
    ensures var s' := s.(procs := s.procs[pid := Process(s.procs[pid].request, Finished(Aborted))]);
            && Next(s, Crash(pid)) == s' && Next(s', Crash(pid)) == s'
            && Next(s', Spawn(pid, r)) == s' && Next(s', Advance(pid, answer)) == s'
  {}

  // ----- When plans, approvals and requests are accepted

  /** Fifteen minutes in microseconds bounds plans and approvals. */
  lemma ValidExactly(p: WritePlan, a: Approval)
    ensures ValidPlan(p) <==>
              && p.createdAt < p.expiresAt && p.expiresAt - p.createdAt <= 900_000_000
              && p.createdBy in p.createdByAliases && p.conflictingAuthors != {} && p.evidenceRefs != {}
              && p.before != map[] && p.after != map[] && p.arguments != map[] && p.before != p.after
    ensures ValidApproval(a) <==>
              && a.actor in a.actorAliases
              && a.planCreatedAt <= a.approvedAt < a.expiresAt <= a.planExpiresAt
              && a.expiresAt - a.approvedAt <= 900_000_000
  {}

  /** The actor's aliases registered for a provider binding, when its principals are all known. */
  predicate Registered(aliases: map<Text, set<Text>>, binding: Binding, actor: Text) {
    && actor in binding.actorPrincipals && binding.actorPrincipals[actor] != {}
    && actor in aliases && actor in aliases[actor]
    && (forall x :: x in binding.actorPrincipals[actor] ==> x in aliases[actor])
  }

  /** Creator and approver are authenticated, hold their roles and are different people: no alias of
      the approver is one of the creator's or a conflicting author. */
  ghost predicate Independent(p: WritePlan, binding: Binding, actor: Text, contributors: set<Text>,
                              approvers: set<Text>,
                              aliases: map<Text, set<Text>>) {
    && p.createdBy in contributors && actor in approvers && actor != p.createdBy && actor !in p.conflictingAuthors
    && binding.profileId == p.profileId && binding.profileVersion == p.profileVersion && binding.hash == p.bindingHash
    && Registered(aliases, binding, p.createdBy) && aliases[p.createdBy] == p.createdByAliases
    && Registered(aliases, binding, actor)
    && (forall x :: x in aliases[actor] ==> x !in p.createdByAliases && x !in p.conflictingAuthors)
  }

  lemma AliasesExactly(p: WritePlan, binding: Binding, actor: Text, contributors: set<Text>, approvers: set<Text>,
                       aliases: map<Text, set<Text>>)
    ensures AuthenticatedAliases(p, binding, actor, contributors, approvers, aliases)
            == if Independent(p, binding, actor, contributors, approvers, aliases) then Some(aliases[actor]) else None
  {
    if Registered(aliases, binding, actor) {
      assert (aliases[actor] !! p.createdByAliases) <==> forall x :: x in aliases[actor] ==> x !in p.createdByAliases;
      assert (aliases[actor] !! p.conflictingAuthors) <==>
          forall x :: x in aliases[actor] ==> x !in p.conflictingAuthors;
    }
  }

  /** An approval is issued exactly for a confirmed valid plan inside its window by an independent
      approver, and lasts the requested time or to the end of the plan, whichever is earlier. */
  lemma ApprovedExactly(p: WritePlan, y: Policy, actor: Text, now: Time, expiresIn: Time, confirmed: bool)
    ensures var issued := Approve(p, y, actor, now, expiresIn, confirmed);
            && (issued.Some? <==>
                  && ValidPlan(p) && confirmed && 0 < expiresIn <= 900_000_000 && p.createdAt <= now < p.expiresAt
                  && Independent(p, y.binding, actor, {p.createdBy}, y.approvers, y.aliases))
            && (issued.Some? ==>
                  && issued.value.planId == PlanDigest(p) && issued.value.targetVersion == p.beforeVersion
                  && issued.value.actor == actor && issued.value.actorAliases == y.aliases[actor]
                  && issued.value.planCreatedAt == p.createdAt && issued.value.planExpiresAt == p.expiresAt
                  && issued.value.approvedAt == now
                  && issued.value.expiresAt == (if now + expiresIn < p.expiresAt then now + expiresIn else p.expiresAt))
  {
    AliasesExactly(p, y.binding, actor, {p.createdBy}, y.approvers, y.aliases);
  }

  /** An execution request is valid exactly when the approval is the actor's own, of this plan, with
      the aliases registered now, every role is held now and the call is bound to the profile. */
  lemma RequestValidExactly(r: Request)
    ensures ValidatedInputs(r) <==>
              && ValidPlan(r.plan) && ValidApproval(r.approval)
              && r.actor == r.approval.actor && r.actor in r.policy.executors
              && r.approval.planId == PlanDigest(r.plan) && r.approval.targetVersion == r.plan.beforeVersion
              && r.approval.planCreatedAt == r.plan.createdAt && r.approval.planExpiresAt == r.plan.expiresAt
              && Independent(r.plan, r.policy.binding, r.actor, r.policy.contributors, r.policy.approvers,
                  r.policy.aliases)
              && r.approval.actorAliases == r.policy.aliases[r.actor]
              && Bound(r.plan, r.policy)
  {
    AliasesExactly(r.plan, r.policy.binding, r.approval.actor, r.policy.contributors, r.policy.approvers,
        r.policy.aliases);
  }

  /** The half-open windows of plan and approval. */
  lemma WindowExactly(r: Request)
    ensures InWindow(r) <==>
              && r.plan.createdAt <= r.now && r.now < r.plan.expiresAt
              && r.approval.approvedAt <= r.now && r.now < r.approval.expiresAt
  {}

  /** An approval just issued is executable by its approver at once, under the policy that issued it. */
  lemma ApprovedIsExecutable(p: WritePlan, y: Policy, actor: Text, now: Time, expiresIn: Time)
    requires Approve(p, y, actor, now, expiresIn, true).Some?
    requires p.createdBy in y.contributors && actor in y.executors && Bound(p, y)
    ensures var r := Request(p, Approve(p, y, actor, now, expiresIn, true).value, actor, now, y);
            ValidatedInputs(r) && InWindow(r)
  {
    var r := Request(p, Approve(p, y, actor, now, expiresIn, true).value, actor, now, y);
    ApprovedExactly(p, y, actor, now, expiresIn, true);
    RequestValidExactly(r);
  }
}
