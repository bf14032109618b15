/** Exactly when capabilities are issued and honoured (intent_workflow/authorization.py). */
module CapabilityFacts {
  import opened Common
  import opened Capabilities

  /** A token is 43 characters of the URL-safe base64 alphabet: digits, letters, `-` and `_`. */
  lemma TokenExactly(t: Text)
    ensures WellFormedToken(t) <==>
              |t| == 43 && forall i :: 0 <= i < |t| ==>
                var n := t[i] as int; 48 <= n <= 57 || 65 <= n <= 90 || 97 <= n <= 122 || n == 45 || n == 95
  {}

  // ----- Issuing

  /** Draw k is the first with a free digest, within four, after well-formed draws only. */
  ghost predicate Drawn(draws: seq<Text>, live: Grants, attempts: nat, k: int) {
    && 0 <= k < |draws| && k < attempts
    && (forall j :: 0 <= j <= k ==> WellFormedToken(draws[j]))
    && (forall j :: 0 <= j < k ==> TokenHash(draws[j]) in live)
    && TokenHash(draws[k]) !in live
  }

  lemma {:induction false} DrawExactly(draws: seq<Text>, live: Grants, attempts: nat, t: Text)
    ensures Draw(draws, live, attempts) == Some(t) <==> exists k :: Drawn(draws, live, attempts, k) && draws[k] == t
  {
    if attempts > 0 && draws != [] && WellFormedToken(draws[0]) {
      if TokenHash(draws[0]) !in live {
        assert Drawn(draws, live, attempts, 0);
        forall k | Drawn(draws, live, attempts, k) ensures k == 0 {}
      } else {
        DrawExactly(draws[1..], live, attempts - 1, t);
        forall k | Drawn(draws, live, attempts, k) ensures Drawn(draws[1..], live, attempts - 1, k - 1) {}
        if exists k :: Drawn(draws[1..], live, attempts - 1, k) && draws[1..][k] == t {
          var k :| Drawn(draws[1..], live, attempts - 1, k) && draws[1..][k] == t;
          assert Drawn(draws, live, attempts, k + 1) && draws[k + 1] == t;
        }
        if exists k :: Drawn(draws, live, attempts, k) && draws[k] == t {
          var k :| Drawn(draws, live, attempts, k) && draws[k] == t;
          assert Drawn(draws[1..], live, attempts - 1, k - 1) && draws[1..][k - 1] == t;
        }
      }
    } else {
      assert forall k :: Drawn(draws, live, attempts, k) ==> attempts > 0 && draws != [] && WellFormedToken(draws[0]);
    }
  }

  /** An authorized preflight, used within five minutes, that names nodes exactly when aligned. */
  ghost predicate Fit(p: Preflight, now: Time) {
    && p.authorized && p.createdAt <= now && now - p.createdAt <= 300_000_000
    && (p.classification == Aligned ==> p.relevantNodeIds != {})
    && (p.classification == NoSemanticImpact ==> p.relevantNodeIds == {})
  }

  /** A token is minted exactly for a fit preflight, uninterrupted, when the grants still alive leave
      room and one of the first four draws is free. Then its grant is bound to the preflight for five
      minutes. Whatever happens, grants still alive are kept and no others appear. */
  lemma IssuedExactly(capacity: nat, s: State, p: Preflight, now: Time, draws: seq<Text>, interrupted: bool, t: Text)
    ensures var s' := ApplyIssue(capacity, s, p, now, draws, interrupted);
            var live := map d | d in s.grants && now < s.grants[d].expiresAt :: s.grants[d];
            && (s'.minted == s.minted + [t] <==>
                  && Fit(p, now) && !interrupted && |live| < capacity
                  && exists k :: Drawn(draws, live, 4, k) && draws[k] == t)
            && (s'.minted == s.minted + [t] ==>
                  s'.grants == live[TokenHash(t) :=
                    Grant(TokenHash(t), p.actor, p.repositoryId, p.taskId, p.requestDigest, p.classification,
                          p.graphVersion, p.graphDigest, p.scope, p.relevantNodeIds, now, now + 300_000_000)])
            && (s'.minted == s.minted ==> s'.grants == if Fit(p, now) then live else s.grants)
            && s'.ran == s.ran
  {
    var live := map d | d in s.grants && now < s.grants[d].expiresAt :: s.grants[d];
    assert Unexpired(s.grants, now) == live;
    assert Issuable(p, now) <==> Fit(p, now);
    DrawExactly(draws, live, 4, t);
    var s' := ApplyIssue(capacity, s, p, now, draws, interrupted);
    if s'.minted != s.minted {
      var drawn := Draw(draws, live).value;
      assert s'.minted == s.minted + [drawn] && (s.minted + [drawn])[|s.minted|] == drawn;
      assert (s.minted + [t])[|s.minted|] == t;
    }
  }

  // ----- Denials

  /** The first binding that does not match decides the reason. */
  lemma ReasonsExactly(grants: Grants, c: Call)
    ensures var reason := VerifyReason(grants, c);
            if !WellFormedToken(c.token) || !c.wellFormed || TokenHash(c.token) !in grants then reason == Unknown
            else
              var g := grants[TokenHash(c.token)];
              var graph := c.graphVersion == g.graphVersion && c.graphDigest == g.graphDigest;
              var request := c.requestDigest.None? || c.requestDigest.value == g.requestDigest;
              var scope := && (forall path :: path in c.paths ==> path in g.permittedPaths)
                           && (|c.paths| == 0 ==> |g.permittedPaths| == 0);
              && (reason == Expired <==> g.expiresAt <= c.now)
              && (reason == ActorMismatch <==> c.now < g.expiresAt && c.actor != g.actor)
              && (reason == RepositoryMismatch <==>
                  c.now < g.expiresAt && c.actor == g.actor && c.repositoryId != g.repositoryId)
              && (reason == TaskMismatch <==>
                    c.now < g.expiresAt && c.actor == g.actor && c.repositoryId == g.repositoryId &&
                        c.taskId != g.taskId)
              && (reason in {RequestMismatch, GraphMismatch, ScopeMismatch, Authorized} <==>
                    c.now < g.expiresAt && c.actor == g.actor && c.repositoryId == g.repositoryId &&
                        c.taskId == g.taskId)
              && (reason == RequestMismatch ==> !request)
              && (reason == GraphMismatch ==> request && !graph)
              && (reason == ScopeMismatch ==> request && graph && !scope)
              && (reason == Authorized ==> request && graph && scope)
  {}

  // ----- Consuming

  /** A consumption runs its action exactly when the call is authorized, after removing the grant;
      a refused one changes nothing but an expired grant. */
  lemma ConsumedExactly(capacity: nat, s: State, c: Call, action: seq<Op>)
    ensures var s' := Apply(capacity, s, Consume(c, action)); var d := TokenHash(c.token);
            if VerifyReason(s.grants, c) == Authorized
            then s' == ApplyAll(capacity, State(s.grants - {d}, s.minted, s.ran + [ActionRun(c, s.grants[d])]), action)
            else s' == s.(grants := if VerifyReason(s.grants, c) == Expired then s.grants - {d} else s.grants)
  {}

  /** Revoking everything leaves no grant and forgets no token. */
  lemma RevokedAll(capacity: nat, s: State)
    ensures Apply(capacity, s, RevokeAll) == State(map[], s.minted, s.ran)
  {}

  /** A verification drops at most the expired grant of its token; a revocation drops the grant of a
      well-formed token, whatever its state. */
  lemma DropsExactly(capacity: nat, s: State, c: Call, t: Text)
    ensures Apply(capacity, s, Verify(c))
            == s.(grants := if VerifyReason(s.grants, c) == Expired then s.grants - {TokenHash(c.token)} else s.grants)
    ensures Apply(capacity, s, Revoke(t))
            == s.(grants := if WellFormedToken(t) then s.grants - {TokenHash(t)} else s.grants)
  {}

  /** A run performs its operations one after the other. */
  lemma {:induction false} RunExactly(capacity: nat, s: State, ops: seq<Op>, op: Op)
    ensures ApplyAll(capacity, s, []) == s
    ensures ApplyAll(capacity, s, ops + [op]) == Apply(capacity, ApplyAll(capacity, s, ops), op)
    decreases |ops|
  {
    if ops == [] {
      assert [op][1..] == [] && ops + [op] == [op];
    } else {
      RunExactly(capacity, Apply(capacity, s, ops[0]), ops[1..], op);
      assert (ops + [op])[1..] == ops[1..] + [op] && (ops + [op])[0] == ops[0];
    }
  }
}
