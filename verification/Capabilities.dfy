/** The registry of short-lived capabilities (intent_workflow/authorization.py) and the
    one-shot use of a capability by post-task evaluation (intent_workflow/post_task.py).
    Clocks, random tokens and the validity of detached inputs are parameters. */
module Capabilities {
  import opened Common
  import opened Collections

  const TTL: Time := 5 * 60 * 1_000_000
  const MAX_LIVE_GRANTS := 1_024

  /** The registry stores only digests of tokens. */
  datatype TokenDigest = TokenHash(token: Text)

  datatype Classification = NoSemanticImpact | Aligned

  datatype Grant = Grant(
    digest: TokenDigest, actor: Text, repositoryId: Text, taskId: Text, requestDigest: Text,
    classification: Classification, graphVersion: int, graphDigest: Text,
    permittedPaths: set<Text>, relevantNodeIds: set<Text>, issuedAt: Time, expiresAt: Time)

  /** The detached preflight a token is issued for; `authorized` stands for the checks that
      its envelope and result are well formed and agree. */
  datatype Preflight = Preflight(
    actor: Text, repositoryId: Text, taskId: Text, requestDigest: Text, classification: Classification,
    graphVersion: int, graphDigest: Text, scope: set<Text>, relevantNodeIds: set<Text>,
    createdAt: Time, authorized: bool)

  /** The operation a token is presented for; `wellFormed` covers the syntactic checks of
      every argument but the token. */
  datatype Call = Call(
    token: Text, actor: Text, repositoryId: Text, taskId: Text, graphVersion: int, graphDigest: Text,
    paths: set<Text>, now: Time, requestDigest: Option<Text>, wellFormed: bool)

  datatype Reason =
    | Authorized | Unknown | Expired | ActorMismatch | RepositoryMismatch | TaskMismatch
    | RequestMismatch | GraphMismatch | ScopeMismatch

  type Grants = map<TokenDigest, Grant>

  predicate TokenCharacter(c: char) { 'A' <= c <= 'Z' || 'a' <= c <= 'z' || '0' <= c <= '9' || c == '_' || c == '-' }

  predicate WellFormedToken(t: Text) { |t| == 43 && forall i :: 0 <= i < |t| ==> TokenCharacter(t[i]) }

  predicate Issuable(p: Preflight, now: Time) {
    && p.authorized
    && p.createdAt <= now <= p.createdAt + TTL
    && (p.classification.Aligned? <==> p.relevantNodeIds != {})
  }

  function GrantFor(p: Preflight, token: Text, now: Time): Grant {
    Grant(TokenHash(token), p.actor, p.repositoryId, p.taskId, p.requestDigest, p.classification,
          p.graphVersion, p.graphDigest, p.scope, p.relevantNodeIds, now, now + TTL)
  }

  function Unexpired(grants: Grants, now: Time): (live: Grants)
    ensures live.Keys <= grants.Keys && |live| <= |grants|
    ensures forall d :: d in live <==> d in grants && now < grants[d].expiresAt
    ensures forall d :: d in live ==> live[d] == grants[d]
  {
    var live := map d | d in grants && now < grants[d].expiresAt :: grants[d];
    SubsetSize(live.Keys, grants.Keys);
    live
  }

  /** The first of four drawn tokens whose digest is free; an ill-formed draw ends the search. */
  function Draw(draws: seq<Text>, grants: Grants, attempts: nat := 4): (t: Option<Text>)
    ensures t.Some? ==> WellFormedToken(t.value) && TokenHash(t.value) !in grants && t.value in draws
  {
    if attempts == 0 || draws == [] || !WellFormedToken(draws[0]) then None
    else if TokenHash(draws[0]) !in grants then Some(draws[0])
    else Draw(draws[1..], grants, attempts - 1)
  }

  /** The call is inside the grant's lifetime and matches each of its bindings. */
  predicate Permits(g: Grant, c: Call) {
    && c.now < g.expiresAt
    && c.actor == g.actor && c.repositoryId == g.repositoryId && c.taskId == g.taskId
    && c.graphVersion == g.graphVersion && c.graphDigest == g.graphDigest
    && (c.requestDigest.Some? ==> c.requestDigest.value == g.requestDigest)
    && c.paths <= g.permittedPaths && (c.paths == {} ==> g.permittedPaths == {})
  }

  function VerifyReason(grants: Grants, c: Call): Reason {
    var d := TokenHash(c.token);
    if !WellFormedToken(c.token) || !c.wellFormed || d !in grants then Unknown
    else
      var g := grants[d];
      if c.now >= g.expiresAt then Expired
      else if c.actor != g.actor then ActorMismatch
      else if c.repositoryId != g.repositoryId then RepositoryMismatch
      else if c.taskId != g.taskId then TaskMismatch
      else if c.requestDigest.Some? && c.requestDigest.value != g.requestDigest then RequestMismatch
      else if c.graphVersion != g.graphVersion || c.graphDigest != g.graphDigest then GraphMismatch
      else if (c.paths == {} && g.permittedPaths != {}) || !(c.paths <= g.permittedPaths) then ScopeMismatch
      else Authorized
  }

  // ----- Registry operations with their history

  /** Operations, with the re-entrant operations an action performs while it runs. */
  datatype Op =
    | Issue(preflight: Preflight, now: Time, draws: seq<Text>, interrupted: bool)
    | Verify(call: Call)
    | Consume(call: Call, action: seq<Op>)
    | Revoke(token: Text)
    | RevokeAll

  datatype ActionRun = ActionRun(call: Call, grant: Grant)

  /** The live grants, every token handed out and every action started. */
  datatype State = State(grants: Grants, minted: seq<Text>, ran: seq<ActionRun>)

  function ApplyIssue(capacity: nat, s: State, p: Preflight, now: Time, draws: seq<Text>, interrupted: bool): State {
    if !Issuable(p, now) then s
    else
      var live := Unexpired(s.grants, now);
      var t := if |live| >= capacity then None else Draw(draws, live);
      if t.None? || interrupted then s.(grants := live)
      else s.(grants := live[TokenHash(t.value) := GrantFor(p, t.value, now)], minted := s.minted + [t.value])
  }

  function ApplyVerify(s: State, c: Call): State {
    if VerifyReason(s.grants, c).Expired? then s.(grants := s.grants - {TokenHash(c.token)}) else s
  }

  function ApplyRevoke(s: State, t: Text): State {
    if WellFormedToken(t) then s.(grants := s.grants - {TokenHash(t)}) else s
  }

  /** The grant is gone before the action starts. */
  function StartAction(s: State, c: Call): State requires VerifyReason(s.grants, c).Authorized? {
    s.(grants := s.grants - {TokenHash(c.token)}, ran := s.ran + [ActionRun(c, s.grants[TokenHash(c.token)])])
  }

  function Apply(capacity: nat, s: State, op: Op): State
    decreases op, 1
  {
    match op
    case Issue(p, now, draws, interrupted) => ApplyIssue(capacity, s, p, now, draws, interrupted)
    case Verify(c) => ApplyVerify(s, c)
    case Consume(c, action) =>
      if VerifyReason(s.grants, c).Authorized? then ApplyAll(capacity, StartAction(s, c), action) else ApplyVerify(s, c)
    case Revoke(t) => ApplyRevoke(s, t)
    case RevokeAll => s.(grants := map[])
  }

  function ApplyAll(capacity: nat, s: State, ops: seq<Op>): State
    decreases ops, 0
  {
    if ops == [] then s else ApplyAll(capacity, Apply(capacity, s, ops[0]), ops[1..])
  }

  // ----- Safety of every run

  function Minted(minted: seq<Text>, t: Text): nat { multiset(minted)[t] }

  function Tokens(ran: seq<ActionRun>): seq<Text> {
    seq(|ran|, i requires 0 <= i < |ran| => ran[i].call.token)
  }

  function Ran(ran: seq<ActionRun>, t: Text): nat { multiset(Tokens(ran))[t] }

  function Live(grants: Grants, t: Text): nat { if TokenHash(t) in grants then 1 else 0 }

  /** Every binding of the capability matched, inside its lifetime. */
  ghost predicate Matched(run: ActionRun) {
    && run.grant.digest == TokenHash(run.call.token)
    && Permits(run.grant, run.call)
    && run.grant.expiresAt == run.grant.issuedAt + TTL
  }

  ghost predicate Safe(capacity: nat, s: State) {
    && |s.grants| <= capacity
    && (forall d :: d in s.grants ==>
          && s.grants[d].digest == d && WellFormedToken(d.token)
          && s.grants[d].expiresAt == s.grants[d].issuedAt + TTL)
    && (forall i :: 0 <= i < |s.ran| ==> Matched(s.ran[i]))
    && (forall t :: Ran(s.ran, t) + Live(s.grants, t) <= Minted(s.minted, t))
  }

  /** Fewer grants are as safe. */
  lemma FewerGrants(capacity: nat, s: State, grants: Grants)
    requires Safe(capacity, s) && grants.Keys <= s.grants.Keys
    requires forall d :: d in grants ==> grants[d] == s.grants[d]
    ensures Safe(capacity, s.(grants := grants))
  {
    SubsetSize(grants.Keys, s.grants.Keys);
  }

  lemma IssueSafe(capacity: nat, s: State, p: Preflight, now: Time, draws: seq<Text>, interrupted: bool)
    requires Safe(capacity, s)
    ensures Safe(capacity, ApplyIssue(capacity, s, p, now, draws, interrupted))
  {
    if Issuable(p, now) {
      var live := Unexpired(s.grants, now);
      FewerGrants(capacity, s, live);
      if |live| < capacity && Draw(draws, live).Some? && !interrupted {
        var t := Draw(draws, live).value;
        MintSafe(capacity, s.(grants := live), GrantFor(p, t, now), t);
      }
    }
  }

  lemma MintSafe(capacity: nat, s: State, g: Grant, t: Text)
    requires Safe(capacity, s) && |s.grants| < capacity && TokenHash(t) !in s.grants && WellFormedToken(t)
    requires g.digest == TokenHash(t) && g.expiresAt == g.issuedAt + TTL
    ensures Safe(capacity, s.(grants := s.grants[TokenHash(t) := g], minted := s.minted + [t]))
  {}

  lemma StartActionSafe(capacity: nat, s: State, c: Call)
    requires Safe(capacity, s) && VerifyReason(s.grants, c).Authorized?
    ensures Safe(capacity, StartAction(s, c))
  {
    var s' := StartAction(s, c);
    var run := ActionRun(c, s.grants[TokenHash(c.token)]);
    FewerGrants(capacity, s, s'.grants);
    assert Tokens(s'.ran) == Tokens(s.ran) + [c.token];
    forall u ensures Ran(s'.ran, u) + Live(s'.grants, u) <= Minted(s'.minted, u) {
      assert Ran(s.ran, u) + Live(s.grants, u) <= Minted(s.minted, u);
    }
  }

  lemma {:induction false} ApplySafe(capacity: nat, s: State, op: Op)
    requires Safe(capacity, s)
    ensures Safe(capacity, Apply(capacity, s, op))
    decreases op, 1
  {
    match op
    case Issue(p, now, draws, interrupted) => IssueSafe(capacity, s, p, now, draws, interrupted);
    case Verify(c) => FewerGrants(capacity, s, ApplyVerify(s, c).grants);
    case Consume(c, action) =>
      if VerifyReason(s.grants, c).Authorized? {
        StartActionSafe(capacity, s, c);
        ApplyAllSafe(capacity, StartAction(s, c), action);
      } else {
        FewerGrants(capacity, s, ApplyVerify(s, c).grants);
      }
    case Revoke(t) => FewerGrants(capacity, s, ApplyRevoke(s, t).grants);
    case RevokeAll => FewerGrants(capacity, s, map[]);
  }

  lemma {:induction false} ApplyAllSafe(capacity: nat, s: State, ops: seq<Op>)
    requires Safe(capacity, s)
    ensures Safe(capacity, ApplyAll(capacity, s, ops))
    decreases ops, 0
  {
    if ops != [] {
      ApplySafe(capacity, s, ops[0]);
      ApplyAllSafe(capacity, Apply(capacity, s, ops[0]), ops[1..]);
    }
  }

  /** Over any sequence of operations, re-entrant ones included and under any clocks: live
      grants stay within capacity and are keyed by their own digest, every action ran with
      all bindings matched, and no token ran more actions than it was handed out times. */
  lemma EveryRunSafe(capacity: nat, ops: seq<Op>)
    ensures Safe(capacity, ApplyAll(capacity, State(map[], [], []), ops))
  {
    ApplyAllSafe(capacity, State(map[], [], []), ops);
  }

  /** A token handed out once runs at most one action. */
  lemma OneActionPerToken(capacity: nat, ops: seq<Op>, t: Text)
    requires Minted(ApplyAll(capacity, State(map[], [], []), ops).minted, t) <= 1
    ensures Ran(ApplyAll(capacity, State(map[], [], []), ops).ran, t) <= 1
  {
    EveryRunSafe(capacity, ops);
  }

  // ----- Death of a token is permanent

  /** Dead at s, and not handed out again: dead at s' too, with no further action. */
  ghost predicate StillDead(s: State, s': State, t: Text) {
    && Minted(s.minted, t) <= Minted(s'.minted, t)
    && (Minted(s'.minted, t) == Minted(s.minted, t) ==>
          TokenHash(t) !in s'.grants && Ran(s'.ran, t) == Ran(s.ran, t))
  }

  lemma IssueStaysDead(capacity: nat, s: State, p: Preflight, now: Time, draws: seq<Text>, interrupted: bool, t: Text)
    requires TokenHash(t) !in s.grants
    ensures StillDead(s, ApplyIssue(capacity, s, p, now, draws, interrupted), t)
  {}

  lemma {:induction false} ApplyStaysDead(capacity: nat, s: State, op: Op, t: Text)
    requires TokenHash(t) !in s.grants
    ensures StillDead(s, Apply(capacity, s, op), t)
    decreases op, 1
  {
    match op
    case Issue(p, now, draws, interrupted) => IssueStaysDead(capacity, s, p, now, draws, interrupted, t);
    case Verify(c) =>
    case Consume(c, action) =>
      if VerifyReason(s.grants, c).Authorized? {
        var s' := StartAction(s, c);
        assert Tokens(s'.ran) == Tokens(s.ran) + [c.token];
        ApplyAllStaysDead(capacity, s', action, t);
      }
    case Revoke(_) =>
    case RevokeAll =>
  }

  lemma {:induction false} ApplyAllStaysDead(capacity: nat, s: State, ops: seq<Op>, t: Text)
    requires TokenHash(t) !in s.grants
    ensures StillDead(s, ApplyAll(capacity, s, ops), t)
    decreases ops, 0
  {
    if ops != [] {
      var s' := Apply(capacity, s, ops[0]);
      ApplyStaysDead(capacity, s, ops[0], t);
      if TokenHash(t) !in s'.grants {
        ApplyAllStaysDead(capacity, s', ops[1..], t);
      }
      MintedGrows(capacity, s', ops[1..], t);
    }
  }

  lemma {:induction false} MintedGrows(capacity: nat, s: State, ops: seq<Op>, t: Text)
    ensures Minted(s.minted, t) <= Minted(ApplyAll(capacity, s, ops).minted, t)
    decreases ops, 0
  {
    if ops != [] {
      MintedGrowsOne(capacity, s, ops[0], t);
      MintedGrows(capacity, Apply(capacity, s, ops[0]), ops[1..], t);
    }
  }

  lemma {:induction false} MintedGrowsOne(capacity: nat, s: State, op: Op, t: Text)
    ensures Minted(s.minted, t) <= Minted(Apply(capacity, s, op).minted, t)
    decreases op, 1
  {
    if op.Consume? && VerifyReason(s.grants, op.call).Authorized? {
      MintedGrows(capacity, StartAction(s, op.call), op.action, t);
    }
  }

  /** Expiry, once observed by a verification, is permanent: no later clock revives the token. */
  lemma ObservedExpiryIsPermanent(capacity: nat, s: State, c: Call, ops: seq<Op>)
    requires VerifyReason(s.grants, c).Expired?
    ensures TokenHash(c.token) !in ApplyVerify(s, c).grants
    ensures StillDead(ApplyVerify(s, c), ApplyAll(capacity, ApplyVerify(s, c), ops), c.token)
  {
    ApplyAllStaysDead(capacity, ApplyVerify(s, c), ops, c.token);
  }

  // ----- What the holder of a token can count on

  /** A call is authorized exactly when it is well formed and matches every binding of a
      live grant. */
  lemma AuthorizedExactly(capacity: nat, s: State, c: Call)
    requires Safe(capacity, s)
    ensures VerifyReason(s.grants, c).Authorized? <==>
              && c.wellFormed && TokenHash(c.token) in s.grants
              && Matched(ActionRun(c, s.grants[TokenHash(c.token)]))
  {}

  /** The call a preflight was made for. */
  predicate AsPreflighted(c: Call, p: Preflight) {
    && c.wellFormed && c.actor == p.actor && c.repositoryId == p.repositoryId && c.taskId == p.taskId
    && c.graphVersion == p.graphVersion && c.graphDigest == p.graphDigest
    && (c.requestDigest.None? || c.requestDigest.value == p.requestDigest)
    && c.paths <= p.scope && (c.paths == {} ==> p.scope == {})
  }

  lemma IssuedGrant(capacity: nat, s: State, p: Preflight, now: Time, draws: seq<Text>, c: Call)
    requires var s1 := ApplyIssue(capacity, s, p, now, draws, false);
             |s1.minted| == |s.minted| + 1 && c.token == s1.minted[|s.minted|]
    requires AsPreflighted(c, p)
    ensures var s1 := ApplyIssue(capacity, s, p, now, draws, false);
            && TokenHash(c.token) in s1.grants && s1.grants[TokenHash(c.token)] == GrantFor(p, c.token, now)
            && VerifyReason(s1.grants, c) == (if c.now < now + TTL then Authorized else Expired)
            && s1.ran == s.ran
  {
    var t := Draw(draws, Unexpired(s.grants, now)).value;
    assert ApplyIssue(capacity, s, p, now, draws, false).minted == s.minted + [t];
  }

  /** A token just issued starts its action exactly when its five minutes are not over, whatever
      the action does. From then on, through any operations that do not draw the same token
      again, it runs nothing more, and using it changes nothing. */
  lemma IssuedRunsOnce(capacity: nat, s: State, p: Preflight, now: Time, draws: seq<Text>, c: Call, action: seq<Op>,
                       between: seq<Op>, again: Call, action': seq<Op>)
    requires var s1 := ApplyIssue(capacity, s, p, now, draws, false);
             |s1.minted| == |s.minted| + 1 && c.token == again.token == s1.minted[|s.minted|]
    requires AsPreflighted(c, p)
    requires var s1 := ApplyIssue(capacity, s, p, now, draws, false);
             var s3 := ApplyAll(capacity, Apply(capacity, s1, Consume(c, action)), between);
             Minted(s3.minted, c.token) == Minted(s1.minted, c.token)
    ensures var s1 := ApplyIssue(capacity, s, p, now, draws, false);
            var s3 := ApplyAll(capacity, Apply(capacity, s1, Consume(c, action)), between);
            && Ran(s3.ran, c.token) == Ran(s.ran, c.token) + (if c.now < now + TTL then 1 else 0)
            && TokenHash(c.token) !in s3.grants
            && Apply(capacity, s3, Consume(again, action')) == s3
  {
    var s1 := ApplyIssue(capacity, s, p, now, draws, false);
    IssuedGrant(capacity, s, p, now, draws, c);
    var s2 := Apply(capacity, s1, Consume(c, action));
    MintedGrows(capacity, s2, between, c.token);
    MintedGrowsOne(capacity, s1, Consume(c, action), c.token);
    if c.now < now + TTL {
      var started := StartAction(s1, c);
      assert Tokens(started.ran) == Tokens(s1.ran) + [c.token];
      ApplyAllStaysDead(capacity, started, action, c.token);
    }
    ApplyAllStaysDead(capacity, s2, between, c.token);
  }

  // ----- The issuer and its clients

  /** The facts `VerifyToken` states determine the registry it leaves. */
  lemma VerifiedView(s: State, s': State, c: Call)
    requires forall d :: d in s'.grants <==>
              d in s.grants && !(VerifyReason(s.grants, c).Expired? && d == TokenHash(c.token))
    requires forall d :: d in s'.grants ==> s'.grants[d] == s.grants[d]
    requires s'.minted == s.minted && s'.ran == s.ran
    ensures s' == ApplyVerify(s, c)
  {
    assert s'.grants == ApplyVerify(s, c).grants;
  }

  /** So do those of `RevokeToken`. */
  lemma RevokedView(s: State, s': State, t: Text)
    requires WellFormedToken(t) ==> TokenHash(t) !in s'.grants
    requires forall d :: d != TokenHash(t) ==> (d in s'.grants <==> d in s.grants)
    requires forall d :: d in s'.grants ==> d in s.grants && s'.grants[d] == s.grants[d]
    requires !WellFormedToken(t) ==> s'.grants == s.grants
    requires s'.minted == s.minted && s'.ran == s.ran
    ensures s' == ApplyRevoke(s, t)
  {
    assert s'.grants == ApplyRevoke(s, t).grants;
  }

  class AuthorizationIssuer {
    const capacity: nat
    var grants: Grants
    ghost var minted: seq<Text>
    ghost var ran: seq<ActionRun>

    ghost function View(): State reads this { State(grants, minted, ran) }

    constructor (maxLiveGrants: nat)
      requires 1 <= maxLiveGrants <= MAX_LIVE_GRANTS
      ensures capacity == maxLiveGrants <= 1_024 && View() == State(map[], [], []) && Safe(capacity, View())
    {
      capacity := maxLiveGrants;
      grants, minted, ran := map[], [], [];
    }

    method IssueToken(p: Preflight, now: Time, draws: seq<Text>, interrupted: bool) returns (token: Option<Text>)
      modifies this
      ensures View() == ApplyIssue(capacity, old(View()), p, now, draws, interrupted)
      ensures token.Some? ==> minted == old(minted) + [token.value] && TokenHash(token.value) in grants
      ensures token.None? ==> minted == old(minted)
      ensures forall d :: d in old(grants) && now < old(grants)[d].expiresAt ==>
                d in grants && grants[d] == old(grants)[d]
      ensures forall d :: d in grants && d !in old(grants) ==> token.Some? && d == TokenHash(token.value)
    {
      if !Issuable(p, now) {
        return None;
      }
      grants := Unexpired(grants, now);
      if |grants| >= capacity {
        return None;
      }
      token := Draw(draws, grants);
      if token.None? || interrupted {
        return None;
      }
      grants := grants[TokenHash(token.value) := GrantFor(p, token.value, now)];
      minted := minted + [token.value];
    }

    /** `verify`: the grant is searched among all candidates, then the bindings are compared one
        by one; only a grant seen to be expired is removed. */
    method VerifyToken(c: Call) returns (reason: Reason)
      modifies this
      ensures reason.Authorized? <==>
                && WellFormedToken(c.token) && c.wellFormed && TokenHash(c.token) in old(grants)
                && Permits(old(grants)[TokenHash(c.token)], c)
      ensures reason.Expired? <==>
                && WellFormedToken(c.token) && c.wellFormed && TokenHash(c.token) in old(grants)
                && c.now >= old(grants)[TokenHash(c.token)].expiresAt
      ensures reason == VerifyReason(old(grants), c)
      ensures forall d :: d in grants <==> d in old(grants) && !(reason.Expired? && d == TokenHash(c.token))
      ensures forall d :: d in grants ==> grants[d] == old(grants)[d]
      ensures minted == old(minted) && ran == old(ran)
    {
      if !WellFormedToken(c.token) || !c.wellFormed {
        return Unknown;
      }
      var digest := TokenHash(c.token);
      var matched := Search(digest);
      if !matched {
        return Unknown;
      }
      var g := grants[digest];
      if c.now >= g.expiresAt {
        grants := grants - {digest};
        return Expired;
      }
      if c.actor != g.actor { return ActorMismatch; }
      if c.repositoryId != g.repositoryId { return RepositoryMismatch; }
      if c.taskId != g.taskId { return TaskMismatch; }
      if c.requestDigest.Some? && c.requestDigest.value != g.requestDigest { return RequestMismatch; }
      if c.graphVersion != g.graphVersion || c.graphDigest != g.graphDigest { return GraphMismatch; }
      if c.paths == {} && g.permittedPaths != {} { return ScopeMismatch; }
      if !(c.paths <= g.permittedPaths) { return ScopeMismatch; }
      return Authorized;
    }

    /** The constant-time search compares every candidate. */
    method Search(digest: TokenDigest) returns (matched: bool)
      ensures matched <==> digest in grants
    {
      matched := false;
      var todo := grants.Keys;
      while todo != {}
        invariant todo <= grants.Keys && (matched <==> digest in grants.Keys - todo)
        decreases todo
      {
        var candidate :| candidate in todo;
        if candidate == digest { matched := true; }
        todo := todo - {candidate};
      }
    }

    /** `revoke`: no grant of this token remains, and no other grant is touched. */
    method RevokeToken(t: Text)
      modifies this
      ensures WellFormedToken(t) || Safe(capacity, old(View())) ==> TokenHash(t) !in grants
      ensures forall d :: d != TokenHash(t) ==> (d in grants <==> d in old(grants))
      ensures forall d :: d in grants ==> d in old(grants) && grants[d] == old(grants)[d]
      ensures !WellFormedToken(t) ==> grants == old(grants)
      ensures minted == old(minted) && ran == old(ran)
    {
      if WellFormedToken(t) {
        grants := grants - {TokenHash(t)};
      }
    }

    /** The action runs re-entrant operations while the lock is held. */
    method ConsumeToken(c: Call, action: seq<Op>) returns (started: bool)
      modifies this
      ensures started == VerifyReason(old(grants), c).Authorized?
      ensures View() == Apply(capacity, old(View()), Consume(c, action))
      decreases action, 1
    {
      ghost var before := View();
      var reason := VerifyToken(c);
      VerifiedView(before, View(), c);
      started := reason.Authorized?;
      if started {
        ran := ran + [ActionRun(c, grants[TokenHash(c.token)])];
        grants := grants - {TokenHash(c.token)};
        Perform(action);
      }
    }

    method Perform(ops: seq<Op>)
      modifies this
      ensures View() == ApplyAll(capacity, old(View()), ops)
      decreases ops, 0
    {
      if ops != [] {
        match ops[0] {
          case Issue(p, now, draws, interrupted) => var _ := IssueToken(p, now, draws, interrupted);
          case Verify(c) =>
            ghost var before := View();
            var _ := VerifyToken(c);
            VerifiedView(before, View(), c);
          case Consume(c, action) => var _ := ConsumeToken(c, action);
          case Revoke(t) =>
            ghost var before := View();
            RevokeToken(t);
            RevokedView(before, View(), t);
          case RevokeAll => grants := map[];
        }
        Perform(ops[1..]);
      }
    }
  }

  /** How the parts of an evaluation outside the issuer turn out. */
  datatype Evaluation = Evaluation(
    submissionValid: bool, completedAt: Time, firstClock: Time, snapshotReadable: bool,
    secondClock: Time, call: Call, action: seq<Op>, commits: bool)

  datatype PostTaskResult = Recorded | PreflightRequired | PostTaskRejected | Raised

  /** `evaluate`: verify, consume around the commit, and revoke on every way out. */
  method Evaluate(issuer: AuthorizationIssuer, token: Text, e: Evaluation) returns (result: PostTaskResult)
    requires Safe(issuer.capacity, issuer.View())
    modifies issuer
    ensures Safe(issuer.capacity, issuer.View())
    ensures TokenHash(token) !in issuer.grants
    ensures result.Raised? <==> !e.submissionValid
    ensures result.Recorded? <==>
              && e.submissionValid && e.completedAt <= e.firstClock && e.snapshotReadable && e.commits
              && VerifyReason(old(issuer.grants), e.call.(token := token, now := e.firstClock)).Authorized?
              && VerifyReason(old(issuer.grants), e.call.(token := token, now := e.secondClock)).Authorized?
    ensures result.PreflightRequired? <==>
              && e.submissionValid && e.completedAt <= e.firstClock && e.snapshotReadable
              && VerifyReason(old(issuer.grants), e.call.(token := token, now := e.firstClock)).ScopeMismatch?
    ensures result.Recorded? ==>
              issuer.View() == ApplyRevoke(Apply(issuer.capacity, old(issuer.View()),
                   Consume(e.call.(token := token, now := e.secondClock), e.action)), token)
    ensures issuer.ran != old(issuer.ran) ==>
              VerifyReason(old(issuer.grants), e.call.(token := token, now := e.firstClock)).Authorized?
  {
    if !e.submissionValid {
      result := Raised;
    } else if e.completedAt > e.firstClock || !e.snapshotReadable {
      result := PostTaskRejected;
    } else {
      var presented := e.call.(token := token, now := e.firstClock);
      ApplySafe(issuer.capacity, issuer.View(), Verify(presented));
      ghost var before := issuer.View();
      var reason := issuer.VerifyToken(presented);
      VerifiedView(before, issuer.View(), presented);
      if !reason.Authorized? {
        result := if reason.ScopeMismatch? then PreflightRequired else PostTaskRejected;
      } else {
        var consumed := e.call.(token := token, now := e.secondClock);
        ApplySafe(issuer.capacity, issuer.View(), Consume(consumed, e.action));
        var started := issuer.ConsumeToken(consumed, e.action);
        result := if started && e.commits then Recorded else PostTaskRejected;
      }
    }
    ghost var last := issuer.View();
    RevokedIsDead(issuer.capacity, last, token);
    issuer.RevokeToken(token);
    RevokedView(last, issuer.View(), token);
  }

  /** Revoking kills the token even when it is ill formed: such a token is never live. */
  lemma RevokedIsDead(capacity: nat, s: State, t: Text)
    requires Safe(capacity, s)
    ensures Safe(capacity, ApplyRevoke(s, t)) && TokenHash(t) !in ApplyRevoke(s, t).grants
  {}
}
