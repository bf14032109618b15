/** Write plans, approvals and the independence checks around them
    (mutations/models.py, approval.py, authorization.py). */
module WriteModels {
  import opened Common

  const FIFTEEN_MINUTES: Time := 15 * 60 * 1_000_000

  /** JSON objects; their values are only ever compared. */
  type Content = map<Text, Text>

  datatype WritePlan = WritePlan(
    caseId: Text, resolutionAction: Text, evidenceRefs: set<Text>,
    connectorId: Text, profileId: Text, profileVersion: Text, objectType: Text, targetRef: Text,
    bindingHash: Text, contractHash: Text, operation: Text, providerOperation: Text, targetId: Text,
    beforeVersion: Text, before: Content, after: Content, arguments: Content,
    conflictingAuthors: set<Text>, createdBy: Text, createdByAliases: set<Text>,
    createdAt: Time, expiresAt: Time)

  /** Identifiers are content addresses; the plan hash is the same address. */
  datatype PlanId = PlanDigest(plan: WritePlan)

  datatype Approval = Approval(
    planId: PlanId, targetVersion: Text, actor: Text, actorAliases: set<Text>,
    planCreatedAt: Time, planExpiresAt: Time, approvedAt: Time, expiresAt: Time)

  datatype ApprovalId = ApprovalDigest(approval: Approval)

  /** The local provider mapping; `hash` is its content address. */
  datatype Binding = Binding(
    hash: Text, profileId: Text, profileVersion: Text,
    actorPrincipals: map<Text, set<Text>>, tools: map<Text, Text>)

  /** Everything the executor consults besides plan and approval. `contracts` gives the
      write-contract hash of each operation, `bound` the arguments that schema
      validation and argument binding yield for a plan (absent when they fail). */
  datatype Policy = Policy(
    contributors: set<Text>, approvers: set<Text>, executors: set<Text>,
    aliases: map<Text, set<Text>>,
    profileId: Text, profileVersion: Text, targets: map<Text, Text>,
    contracts: map<Text, Text>, bound: map<PlanId, Content>, binding: Binding)

  predicate ValidPlan(p: WritePlan) {
    && p.createdAt < p.expiresAt <= p.createdAt + FIFTEEN_MINUTES
    && p.createdBy in p.createdByAliases
    && p.conflictingAuthors != {} && p.evidenceRefs != {}
    && p.before != map[] && p.after != map[] && p.arguments != map[] && p.before != p.after
  }

  predicate ValidApproval(a: Approval) {
    && a.actor in a.actorAliases
    && a.planCreatedAt < a.planExpiresAt
    && a.planCreatedAt <= a.approvedAt < a.planExpiresAt
    && a.approvedAt < a.expiresAt <= a.approvedAt + FIFTEEN_MINUTES
    && a.expiresAt <= a.planExpiresAt
  }

  /** `identity_aliases_for`; None is the ValueError. */
  function IdentityAliases(aliases: map<Text, set<Text>>, actor: Text, principals: set<Text>): Option<set<Text>> {
    if actor in aliases && actor in aliases[actor] && principals <= aliases[actor] then Some(aliases[actor]) else None
  }

  /** `authenticated_approval_aliases`. */
  function AuthenticatedAliases(plan: WritePlan, binding: Binding, actor: Text, contributors: set<Text>,
                                approvers: set<Text>, aliases: map<Text, set<Text>>): (r: Option<set<Text>>)
    ensures r.Some? ==> actor in r.value && r.value !! plan.createdByAliases && r.value !! plan.conflictingAuthors
  {
    if plan.createdBy !in contributors || actor !in approvers || actor == plan.createdBy
       || actor in plan.conflictingAuthors
       || binding.profileId != plan.profileId || binding.profileVersion != plan.profileVersion
       || binding.hash != plan.bindingHash
       || plan.createdBy !in binding.actorPrincipals || binding.actorPrincipals[plan.createdBy] == {}
       || actor !in binding.actorPrincipals || binding.actorPrincipals[actor] == {} then None
    else
      var creator := IdentityAliases(aliases, plan.createdBy, binding.actorPrincipals[plan.createdBy]);
      var mine := IdentityAliases(aliases, actor, binding.actorPrincipals[actor]);
      if creator != Some(plan.createdByAliases) || mine.None?
         || !(mine.value !! plan.createdByAliases) || !(mine.value !! plan.conflictingAuthors) then None
      else mine
  }

  /** `approve_plan`: `confirmed` says that the interactive confirmation named this plan. */
  function Approve(plan: WritePlan, policy: Policy, actor: Text, now: Time, expiresIn: Time,
                   confirmed: bool): (r: Option<Approval>)
    ensures r.Some? ==>
              && ValidApproval(r.value)
              && r.value.actor == actor
              && r.value.planId == PlanDigest(plan)
              && r.value.actorAliases !! plan.createdByAliases
              && r.value.actorAliases !! plan.conflictingAuthors
              && plan.createdAt <= r.value.approvedAt < r.value.expiresAt <= plan.expiresAt
  {
    var mine := AuthenticatedAliases(plan, policy.binding, actor, {plan.createdBy}, policy.approvers, policy.aliases);
    if !ValidPlan(plan) || !confirmed || !(0 < expiresIn <= FIFTEEN_MINUTES) || mine.None?
       || !(plan.createdAt <= now < plan.expiresAt) then None
    else
      var expiresAt := if now + expiresIn <= plan.expiresAt then now + expiresIn else plan.expiresAt;
      Some(Approval(PlanDigest(plan), plan.beforeVersion, actor, mine.value,
                    plan.createdAt, plan.expiresAt, now, expiresAt))
  }

  datatype Request = Request(plan: WritePlan, approval: Approval, actor: Text, now: Time, policy: Policy)

  /** `_validated_inputs` over a stored plan and approval. */
  predicate ValidatedInputs(r: Request) {
    var p, a, y := r.plan, r.approval, r.policy;
    && ValidPlan(p) && ValidApproval(a)
    && y.binding.profileId == y.profileId && y.binding.profileVersion == y.profileVersion
    && p.createdBy in y.contributors
    && a.actor in y.approvers
    && r.actor in y.executors
    && r.actor == a.actor
    && a.planId == PlanDigest(p)
    && a.targetVersion == p.beforeVersion
    && a.planCreatedAt == p.createdAt
    && a.planExpiresAt == p.expiresAt
    && y.profileId == p.profileId && y.profileVersion == p.profileVersion
    && y.binding.hash == p.bindingHash
    && p.operation in y.targets && y.targets[p.operation] == p.objectType
    && p.targetRef == y.profileId + ":" + p.targetId
    && p.operation in y.binding.tools && y.binding.tools[p.operation] == p.providerOperation
    && p.operation in y.contracts && y.contracts[p.operation] == p.contractHash
    && AuthenticatedAliases(p, y.binding, a.actor, y.contributors, y.approvers, y.aliases) == Some(a.actorAliases)
    && PlanDigest(p) in y.bound && y.bound[PlanDigest(p)] == p.arguments
  }

  predicate InWindow(r: Request) {
    && r.plan.createdAt <= r.now < r.plan.expiresAt
    && r.approval.approvedAt <= r.now < r.approval.expiresAt
  }

  /** What a provider write call needs: the window, the actor's identity and independence, and the
      roles and aliases held under the policy in force at execution. */
  ghost predicate Authorized(r: Request) {
    && r.approval.approvedAt <= r.now < r.approval.expiresAt
    && r.plan.createdAt <= r.now < r.plan.createdAt + FIFTEEN_MINUTES
    && r.actor == r.approval.actor
    && r.approval.planId == PlanDigest(r.plan)
    && r.actor in r.approval.actorAliases
    && r.approval.actorAliases !! r.plan.createdByAliases
    && r.approval.actorAliases !! r.plan.conflictingAuthors
    && r.plan.createdBy in r.plan.createdByAliases
    && r.actor in r.policy.aliases && r.policy.aliases[r.actor] == r.approval.actorAliases
    && r.plan.createdBy in r.policy.aliases && r.policy.aliases[r.plan.createdBy] == r.plan.createdByAliases
    && r.plan.createdBy in r.policy.contributors && r.actor in r.policy.approvers && r.actor in r.policy.executors
    && Bound(r.plan, r.policy)
  }

  /** The call goes to the profile's own target and tool, under its contract, with the arguments that
      binding yields for the plan. */
  ghost predicate Bound(p: WritePlan, y: Policy) {
    && y.profileId == p.profileId && y.profileVersion == p.profileVersion && y.binding.hash == p.bindingHash
    && p.targetRef == p.profileId + ":" + p.targetId
    && p.operation in y.targets && y.targets[p.operation] == p.objectType
    && p.operation in y.binding.tools && y.binding.tools[p.operation] == p.providerOperation
    && p.operation in y.contracts && y.contracts[p.operation] == p.contractHash
    && PlanDigest(p) in y.bound && y.bound[PlanDigest(p)] == p.arguments
  }
}
