/** What registrations and verified decisions rest on, over ledgers, verdicts and runs directly
    (control_plane/webauthn_service.py). */
module WebAuthnFacts {
  import opened Common
  import opened WebAuthnLedgers
  import opened WebAuthnService

  // ----- The ledgers

  /** Record i is the last one of the credential. */
  ghost predicate LastAt(records: seq<Credential>, cid: Text, i: int) {
    && 0 <= i < |records| && records[i].credentialId == cid
    && forall j :: i < j < |records| ==> records[j].credentialId != cid
  }

  lemma {:induction false} LastExactly(records: seq<Credential>, cid: Text, r: Credential)
    ensures LastOf(records, cid) == Some(r) <==> exists i :: LastAt(records, cid, i) && records[i] == r
  {
    if records != [] {
      var n := |records| - 1;
      LastExactly(records[..n], cid, r);
      if records[n].credentialId == cid {
        assert LastAt(records, cid, n);
        forall i | LastAt(records, cid, i) ensures i == n {}
      } else {
        forall i: int ensures LastAt(records, cid, i) <==> LastAt(records[..n], cid, i) {}
      }
    }
  }

  /** A challenge of the ledger is issued, not consumed, and inside its half-open lifetime. */
  ghost predicate Consumable(frames: seq<ChallengeFrame>, c: Challenge, now: Time) {
    && Issued(c) in frames
    && (forall f :: f in frames && f.Consumed? ==> f.record.id != c.id)
    && c.issuedAt <= now && now < c.expiresAt
  }

  lemma {:induction false} ChallengeSets(frames: seq<ChallengeFrame>, id: Text)
    requires Challenges(frames).Some?
    ensures id in Challenges(frames).value.consumed <==> exists f :: f in frames && f.Consumed? && f.record.id == id
    ensures id in Challenges(frames).value.issued <==> exists f :: f in frames && f.Issued? && f.record.id == id
    ensures forall c :: Issued(c) in frames && c.id == id ==>
              id in Challenges(frames).value.issued && Challenges(frames).value.issued[id] == c
  {
    if frames != [] {
      var front, f := frames[..|frames| - 1], frames[|frames| - 1];
      ChallengeSets(front, id);
      assert frames == front + [f] && f in frames;
      forall g | g in front ensures g in frames {}
    }
  }

  lemma ConsumableExactly(frames: seq<ChallengeFrame>, id: Text, now: Time, c: Challenge)
    requires Challenges(frames).Some?
    ensures ConsumableChallenge(frames, id, now) == Some(c) <==> c.id == id && Consumable(frames, c, now)
  {
    ChallengeSets(frames, id);
    ConsumedOnce(frames);
  }

  /** A frame fits a ledger: its challenge is well formed and lives at most five minutes; an issued one
      is new; a consumed one is that ledger's, not consumed, and inside its half-open lifetime. */
  ghost predicate Fits(frames: seq<ChallengeFrame>, f: ChallengeFrame) {
    var c := f.record;
    && (c.ceremony == Registration <==> c.payloadDigest == None)
    && c.issuedAt <= c.expiresAt && c.expiresAt - c.issuedAt <= 300_000_000
    && match f
       case Issued(_) => forall g :: g in frames && g.Issued? ==> g.record.id != c.id
       case Consumed(_, at) => Consumable(frames, c, at)
  }

  /** A challenge ledger is readable exactly when every frame fits those before it. */
  lemma {:induction false} ChallengesExactly(frames: seq<ChallengeFrame>)
    ensures Challenges(frames).Some? <==> forall n :: 0 <= n < |frames| ==> Fits(frames[..n], frames[n])
  {
    if frames != [] {
      var k := |frames| - 1;
      ChallengesExactly(frames[..k]);
      forall n | 0 <= n < k ensures frames[..k][..n] == frames[..n] && frames[..k][n] == frames[n] {}
      if Challenges(frames[..k]).Some? { FrameFits(frames[..k], frames[k]); }
    }
  }

  lemma FrameFits(frames: seq<ChallengeFrame>, f: ChallengeFrame)
    requires Challenges(frames).Some?
    ensures ChallengeStep(Challenges(frames).value, f).Some? <==> Fits(frames, f)
  {
    ChallengeSets(frames, f.record.id);
    if f.Consumed? {
      ConsumableExactly(frames, f.record.id, f.at, f.record);
    }
  }

  // ----- Current credentials

  /** Record i has the credential's greatest counter, and no other record has it. */
  ghost predicate Top(records: seq<Credential>, cid: Text, i: int) {
    && 0 <= i < |records| && records[i].credentialId == cid
    && forall j :: 0 <= j < |records| && j != i && records[j].credentialId == cid ==>
         records[j].signCount < records[i].signCount
  }

  ghost predicate TopIn(group: seq<Credential>, k: int) {
    0 <= k < |group| && forall j :: 0 <= j < |group| && j != k ==> group[j].signCount < group[k].signCount
  }

  ghost predicate OnlyWith(group: seq<Credential>, n: int, k: int) {
    && 0 <= k < |group| && group[k].signCount == n
    && forall j :: 0 <= j < |group| && j != k ==> group[j].signCount != n
  }

  lemma {:induction false} WithCountExactly(group: seq<Credential>, n: int)
    ensures WithCount(group, n) == [] <==> forall k :: 0 <= k < |group| ==> group[k].signCount != n
    ensures |WithCount(group, n)| == 1 <==> exists k :: OnlyWith(group, n, k)
    ensures forall k :: OnlyWith(group, n, k) ==> WithCount(group, n) == [group[k]]
  {
    if group != [] {
      var m := |group| - 1;
      var init := group[..m];
      WithCountExactly(init, n);
      if group[m].signCount == n {
        if WithCount(init, n) == [] { assert OnlyWith(group, n, m); }
        forall k | OnlyWith(group, n, k) ensures k == m && WithCount(init, n) == [] {
          forall j | 0 <= j < m ensures init[j].signCount != n { assert init[j] == group[j]; }
        }
      } else {
        forall k: int ensures OnlyWith(group, n, k) <==> OnlyWith(init, n, k) {}
      }
    }
  }

  lemma {:induction false} MaxExactly(group: seq<Credential>)
    requires group != []
    ensures forall k :: 0 <= k < |group| ==> group[k].signCount <= MaxCount(group)
    ensures exists k :: 0 <= k < |group| && group[k].signCount == MaxCount(group)
  {
    var m := |group| - 1;
    if m > 0 {
      MaxExactly(group[..m]);
      var k :| 0 <= k < m && group[..m][k].signCount == MaxCount(group[..m]);
      assert group[k].signCount == MaxCount(group[..m]);
      assert group[m].signCount == MaxCount(group) || group[k].signCount == MaxCount(group);
      forall j | 0 <= j < m ensures group[j].signCount <= MaxCount(group[..m]) { assert group[..m][j] == group[j]; }
    } else {
      assert group[0].signCount == MaxCount(group);
    }
  }

  lemma TopExactly(group: seq<Credential>)
    requires group != []
    ensures |WithCount(group, MaxCount(group))| == 1 <==> exists k :: TopIn(group, k)
    ensures forall k :: TopIn(group, k) ==> WithCount(group, MaxCount(group)) == [group[k]]
  {
    MaxExactly(group);
    WithCountExactly(group, MaxCount(group));
    forall k: int ensures OnlyWith(group, MaxCount(group), k) <==> TopIn(group, k) {}
  }

  /** The positions of a credential's records, in order. */
  ghost predicate Locates(at: seq<nat>, group: seq<Credential>, records: seq<Credential>, cid: Text) {
    && |at| == |group|
    && (forall k :: 0 <= k < |at| ==> at[k] < |records| && records[at[k]] == group[k])
    && (forall j, k :: 0 <= j < k < |at| ==> at[j] < at[k])
    && (forall i :: 0 <= i < |records| && records[i].credentialId == cid ==> i in at)
  }

  lemma LocatesSnoc(at: seq<nat>, group: seq<Credential>, records: seq<Credential>, cid: Text, r: Credential)
    requires Locates(at, group, records, cid)
    ensures r.credentialId == cid ==> Locates(at + [|records|], group + [r], records + [r], cid)
    ensures r.credentialId != cid ==> Locates(at, group, records + [r], cid)
  {
    var all := records + [r];
    forall i | 0 <= i < |records| ensures all[i] == records[i] {}
    assert r.credentialId == cid ==> (at + [|records|])[|at|] == |records|;
    forall i | i in at ensures i in at + [|records|] {}
  }

  lemma {:induction false} Positions(records: seq<Credential>, cid: Text) returns (at: seq<nat>)
    ensures Locates(at, Group(records, cid), records, cid)
  {
    if records == [] {
      at := [];
    } else {
      var init, r := records[..|records| - 1], records[|records| - 1];
      assert records == init + [r];
      at := Positions(init, cid);
      LocatesSnoc(at, Group(init, cid), init, cid, r);
      if r.credentialId == cid { at := at + [|init|]; }
    }
  }

  lemma GroupTop(records: seq<Credential>, cid: Text)
    requires Group(records, cid) != []
    ensures |WithCount(Group(records, cid), MaxCount(Group(records, cid)))| == 1 <==> exists i :: Top(records, cid, i)
    ensures forall i :: Top(records, cid, i) ==>
              WithCount(Group(records, cid), MaxCount(Group(records, cid))) == [records[i]]
  {
    var group := Group(records, cid);
    var at := Positions(records, cid);
    GroupMembers(records, cid);
    TopExactly(group);
    forall k | TopIn(group, k) ensures Top(records, cid, at[k]) {
      assert group[k] in group;
      forall j | 0 <= j < |records| && j != at[k] && records[j].credentialId == cid
        ensures records[j].signCount < records[at[k]].signCount
      {
        var m :| 0 <= m < |at| && at[m] == j;
      }
    }
    forall i | Top(records, cid, i) ensures exists k :: TopIn(group, k) && group[k] == records[i] {
      var k :| 0 <= k < |at| && at[k] == i;
      forall j | 0 <= j < |group| && j != k ensures group[j].signCount < group[k].signCount {
        assert group[j] in group && at[j] != at[k];
      }
      assert TopIn(group, k);
    }
  }

  /** All records of the credential are of one actor, key and time. */
  ghost predicate OneIdentity(records: seq<Credential>, cid: Text) {
    forall r, q :: r in records && q in records && r.credentialId == cid && q.credentialId == cid ==>
      && r.actor == q.actor && r.publicKey == q.publicKey && r.createdAt == q.createdAt
      && r.projectId == q.projectId && r.repositoryId == q.repositoryId
  }

  lemma UnambiguousExactly(records: seq<Credential>, cid: Text)
    requires cid in CredentialIds(records)
    ensures Group(records, cid) != []
    ensures Unambiguous(Group(records, cid)) <==> OneIdentity(records, cid) && exists i :: Top(records, cid, i)
  {
    var group := Group(records, cid);
    GroupMembers(records, cid);
    var r :| r in records && r.credentialId == cid;
    assert r in group;
    GroupTop(records, cid);
    forall i | 0 <= i < |group| ensures group[i] in group {}
    if forall i :: 0 <= i < |group| ==> SameButCounter(group[0], group[i]) {
      forall r | r in group ensures SameButCounter(group[0], r) { var i :| 0 <= i < |group| && group[i] == r; }
    }
  }

  /** Current credentials exist exactly when every record is the site's and each credential has one
      identity and one record with its greatest counter; they are those records of the actor. */
  lemma CurrentExactly(records: seq<Credential>, site: Site, actor: Text, c: Credential)
    ensures var current := Current(records, site.projectId, site.repositoryId, actor);
            && (current.Some? <==>
                  && (forall r :: r in records ==> r.projectId == site.projectId && r.repositoryId == site.repositoryId)
                  && (forall r :: r in records ==>
                      OneIdentity(records, r.credentialId) && exists i :: Top(records, r.credentialId, i)))
            && (current.Some? ==>
                  ((c.credentialId in current.value && current.value[c.credentialId] == c) <==>
                     c.actor == actor && exists i :: Top(records, c.credentialId, i) && records[i] == c))
  {
    forall r | r in records
      ensures Unambiguous(Group(records, r.credentialId)) <==>
                OneIdentity(records, r.credentialId) && exists i :: Top(records, r.credentialId, i)
    {
      assert r.credentialId in CredentialIds(records);
      UnambiguousExactly(records, r.credentialId);
    }
    var current := Current(records, site.projectId, site.repositoryId, actor);
    if current.Some? { CurrentIsTop(records, site, actor, c); }
  }

  lemma CurrentIsTop(records: seq<Credential>, site: Site, actor: Text, c: Credential)
    requires Current(records, site.projectId, site.repositoryId, actor).Some?
    ensures var current := Current(records, site.projectId, site.repositoryId, actor).value;
            (c.credentialId in current && current[c.credentialId] == c) <==>
              c.actor == actor && exists i :: Top(records, c.credentialId, i) && records[i] == c
  {
    var cid := c.credentialId;
    if cid in CredentialIds(records) {
      UnambiguousExactly(records, cid);
      var group := Group(records, cid);
      GroupMembers(records, cid);
      GroupTop(records, cid);
      var i :| Top(records, cid, i);
      assert Newest(group) == records[i] && group[0] in group;
      assert records[i] in records && records[i].actor == group[0].actor;
      forall j | Top(records, cid, j) ensures j == i {}
    } else {
      forall i: int ensures !Top(records, cid, i) { TopHeld(records, cid, i); }
    }
  }

  lemma TopHeld(records: seq<Credential>, cid: Text, i: int)
    ensures Top(records, cid, i) ==> cid in CredentialIds(records)
  {
    if Top(records, cid, i) { assert records[i] in records; }
  }

  /** A history in which two records share an identifier stops every ceremony that reads it. */
  lemma RepeatedRefused(site: Site, s: State, i: int, j: int, op: Op)
    requires 0 <= i < j < |s.credentials| && s.credentials[i].id == s.credentials[j].id && !op.RegistrationOptions?
    ensures Effect(site, s, op) == None
  {}

  // ----- When ceremonies succeed

  /** A response accepted for a credential whose last record is `stored`. */
  ghost predicate Fresh(stored: Credential, v: Verdict) {
    && v.userVerified && v.credentialId == stored.credentialId && v.credentialId != ""
    && 0 <= v.signCount < 0x1_0000_0000
    && (v.signCount > stored.signCount || (v.signCount == 0 && stored.signCount == 0))
  }

  /** The record a decision rests on: the stored one at the response's counter. */
  function Used(stored: Credential, v: Verdict): Credential {
    stored.(id := CounterRecord(stored.credentialId, v.signCount), signCount := v.signCount)
  }

  ghost predicate Rests(site: Site, s: State, p: Payload, now: Time, v: Verdict, stored: Credential, c: Challenge) {
    && p.projectId == site.projectId && p.repositoryId == site.repositoryId && p.issuedAt <= now && now < p.expiresAt
    && c.id == p.challenge && Consumable(s.challenges, c, now)
    && c.projectId == site.projectId && c.repositoryId == site.repositoryId && c.actor == p.actor
    && c.ceremony.Authentication? && c.payloadDigest == Some(PayloadHash(p)) && c.nonce == PayloadHash(p)
    && LastOf(s.credentials, v.credentialId) == Some(stored) && stored.actor == p.actor && Fresh(stored, v)
  }

  /** In every state the service reaches, a decision is verified exactly for a user-verified
      response inside both lifetimes, for the challenge issued for this payload, by a credential
      whose last record is the actor's and whose counter advances; it spends that challenge and
      appends the advanced record. */
  lemma VerifiedExactly(site: Site, s: State, p: Payload, now: Time, verdict: Option<Verdict>)
    requires Inv(site, s)
    ensures VerifyEffect(site, s, p, now, verdict).Some? <==>
              verdict.Some? && exists stored, c :: Rests(site, s, p, now, verdict.value, stored, c)
    ensures forall stored, c :: verdict.Some? && Rests(site, s, p, now, verdict.value, stored, c) ==>
              VerifyEffect(site, s, p, now, verdict) ==
              Some(State(s.challenges + [Consumed(c, now)],
                         Appended(s.credentials, stored, verdict.value),
                         s.verified + [Decision(p, Used(stored, verdict.value), now)]))
  {
    if verdict.Some? {
      var v := verdict.value;
      CurrentIsLast(s.credentials, site.projectId, site.repositoryId, p.actor);
      forall stored, c | Rests(site, s, p, now, v, stored, c)
        ensures VerifyEffect(site, s, p, now, verdict) ==
                Some(State(s.challenges + [Consumed(c, now)], Appended(s.credentials, stored, v),
                           s.verified + [Decision(p, Used(stored, v), now)]))
      {
        ConsumableExactly(s.challenges, p.challenge, now, c);
        RestsJudged(site, s, p, now, v, stored, c);
      }
      if VerifyEffect(site, s, p, now, verdict).Some? {
        var c := ConsumableChallenge(s.challenges, p.challenge, now).value;
        ConsumableExactly(s.challenges, p.challenge, now, c);
        StoredIsLast(site, s, p.actor, v.credentialId);
        var stored := Current(s.credentials, site.projectId, site.repositoryId, p.actor).value[v.credentialId];
        assert Rests(site, s, p, now, v, stored, c);
      }
    }
  }

  function Appended(records: seq<Credential>, stored: Credential, v: Verdict): seq<Credential> {
    if v.signCount == stored.signCount then records else records + [Used(stored, v)]
  }

  lemma RestsJudged(site: Site, s: State, p: Payload, now: Time, v: Verdict, stored: Credential, c: Challenge)
    requires Inv(site, s) && Rests(site, s, p, now, v, stored, c)
    ensures JudgeResponse(site, s.credentials, p, Some(v)) ==
              Some((Appended(s.credentials, stored, v), Used(stored, v)))
  {
    HistoryReadable(s.credentials, site);
    CurrentIsLast(s.credentials, site.projectId, site.repositoryId, p.actor);
    LastExactly(s.credentials, v.credentialId, stored);
    var i :| LastAt(s.credentials, v.credentialId, i) && s.credentials[i] == stored;
    assert stored in s.credentials && stored.id == CounterRecord(stored.credentialId, stored.signCount);
    assert v.credentialId in CredentialIds(s.credentials);
    RestsAdvances(site, s, v, stored);
  }

  lemma RestsAdvances(site: Site, s: State, v: Verdict, stored: Credential)
    requires Inv(site, s) && Fresh(stored, v) && stored.id == CounterRecord(stored.credentialId, stored.signCount)
    requires CredentialsReadable(s.credentials) && LastOf(s.credentials, v.credentialId) == Some(stored)
    ensures AdvanceCounter(s.credentials, stored, v.credentialId, v.signCount)
            == Some((Appended(s.credentials, stored, v), Used(stored, v)))
  {
    if v.signCount > stored.signCount {
      forall r | r in s.credentials ensures r.id != CounterRecord(v.credentialId, v.signCount) {
        FreshCounter(s.credentials, site, v.credentialId, v.signCount, r);
      }
    } else {
      assert Used(stored, v) == stored;
    }
  }

  /** A credential is registered exactly for a user-verified response to a live registration
      challenge of the actor, when no record has that credential; the new record carries the
      response's key and counter. */
  lemma RegisteredExactly(site: Site, s: State, actor: Text, bytes: Text, now: Time, verdict: Option<Verdict>)
    requires Inv(site, s)
    ensures RegisterEffect(site, s, actor, bytes, now, verdict).Some? <==>
              verdict.Some? && exists c :: Admits(site, s, actor, bytes, now, verdict.value, c)
    ensures forall c :: verdict.Some? && Admits(site, s, actor, bytes, now, verdict.value, c) ==>
              RegisterEffect(site, s, actor, bytes, now, verdict) ==
              Some(State(s.challenges + [Consumed(c, now)],
                         s.credentials + [Registered(site, actor, verdict.value, now)], s.verified))
  {
    HistoryReadable(s.credentials, site);
    if verdict.Some? {
      forall c | Admits(site, s, actor, bytes, now, verdict.value, c)
        ensures RegisterEffect(site, s, actor, bytes, now, verdict) ==
                Some(State(s.challenges + [Consumed(c, now)],
                           s.credentials + [Registered(site, actor, verdict.value, now)], s.verified))
      {
        ConsumableExactly(s.challenges, bytes, now, c);
        forall r | r in s.credentials
          ensures r.id != CounterRecord(verdict.value.credentialId, verdict.value.signCount)
        {
          var i :| 0 <= i < |s.credentials| && s.credentials[i] == r;
        }
      }
      if RegisterEffect(site, s, actor, bytes, now, verdict).Some? {
        var c := ConsumableChallenge(s.challenges, bytes, now).value;
        ConsumableExactly(s.challenges, bytes, now, c);
        assert Admits(site, s, actor, bytes, now, verdict.value, c);
      }
    }
  }

  ghost predicate Admits(site: Site, s: State, actor: Text, bytes: Text, now: Time, v: Verdict, c: Challenge) {
    && c.id == bytes && Consumable(s.challenges, c, now)
    && c.projectId == site.projectId && c.repositoryId == site.repositoryId && c.actor == actor
    && c.ceremony.Registration? && c.nonce == Random(bytes)
    && v.userVerified && v.credentialId != "" && v.publicKey != "" && 0 <= v.signCount < 0x1_0000_0000
    && forall r :: r in s.credentials ==> r.credentialId != v.credentialId
  }

  function Registered(site: Site, actor: Text, v: Verdict, now: Time): Credential {
    Credential(CounterRecord(v.credentialId, v.signCount), site.projectId, site.repositoryId, actor, v.credentialId,
               v.publicKey, v.signCount, now)
  }

  /** Authentication options are issued exactly inside the payload's lifetime, for an actor with a
      credential, and a challenge identifier never issued before; the challenge is bound to the
      payload and lives five minutes. */
  lemma OptionsExactly(site: Site, s: State, p: Payload, now: Time)
    requires Inv(site, s)
    ensures AuthenticationOptionsEffect(site, s, p, now).Some? <==>
              && p.projectId == site.projectId && p.repositoryId == site.repositoryId
              && p.issuedAt <= now && now < p.expiresAt
              && (exists r :: r in s.credentials && r.actor == p.actor)
              && (forall f :: f in s.challenges && f.Issued? ==> f.record.id != p.challenge)
    ensures AuthenticationOptionsEffect(site, s, p, now).Some? ==>
              AuthenticationOptionsEffect(site, s, p, now) ==
              Some(s.(challenges := s.challenges + [Issued(
                Challenge(p.challenge, site.projectId, site.repositoryId, p.actor, Authentication, PayloadHash(p),
                          Some(PayloadHash(p)), now, now + 300_000_000))]))
  {
    HistoryReadable(s.credentials, site);
    ChallengeSets(s.challenges, p.challenge);
    CurrentIsLast(s.credentials, site.projectId, site.repositoryId, p.actor);
    HasCredential(site, s, p.actor);
  }

  lemma HasCredential(site: Site, s: State, actor: Text)
    requires Inv(site, s)
    ensures var m := Current(s.credentials, site.projectId, site.repositoryId, actor);
            m.Some? && (m.value != map[] <==> exists r :: r in s.credentials && r.actor == actor)
  {
    CurrentIsLast(s.credentials, site.projectId, site.repositoryId, actor);
    var m := Current(s.credentials, site.projectId, site.repositoryId, actor).value;
    if m != map[] {
      var cid :| cid in m;
      LastExactly(s.credentials, cid, m[cid]);
      var i :| LastAt(s.credentials, cid, i) && s.credentials[i] == m[cid];
      assert s.credentials[i] in s.credentials;
    }
    if exists r :: r in s.credentials && r.actor == actor {
      var i :| 0 <= i < |s.credentials| && s.credentials[i].actor == actor;
      LastDominates(s.credentials, site, s.credentials[i].credentialId, i);
      assert s.credentials[i] in s.credentials;
      assert s.credentials[i].credentialId in m;
    }
  }

  /** Registration options are issued exactly for a challenge never issued before. */
  lemma RegistrationOptionsExactly(site: Site, s: State, actor: Text, bytes: Text, now: Time)
    requires Inv(site, s)
    ensures var issued := Effect(site, s, RegistrationOptions(actor, bytes, now));
            && (issued.Some? <==> forall f :: f in s.challenges && f.Issued? ==> f.record.id != bytes)
            && (issued.Some? ==>
                  issued == Some(s.(challenges := s.challenges + [Issued(
                    Challenge(bytes, site.projectId, site.repositoryId, actor, Registration, Random(bytes), None,
                              now, now + 300_000_000))])))
  {
    ChallengeSets(s.challenges, bytes);
  }

  // ----- Whole runs

  /** A run starts from empty ledgers and performs its ceremonies one after the other; a failed one
      changes nothing. */
  lemma RunExactly(site: Site, ops: seq<Op>, op: Op)
    ensures RunOps(site, []) == State([], [], [])
    ensures var s := RunOps(site, ops);
            RunOps(site, ops + [op]) == match Effect(site, s, op) case None => s case Some(s') => s'
  {
    assert (ops + [op])[..|ops|] == ops;
  }

  /** Operation k registered the record's credential for its actor with a user-verified response. */
  ghost predicate RegisteredBy(ops: seq<Op>, r: Credential, k: int) {
    && 0 <= k < |ops| && ops[k].Register? && ops[k].actor == r.actor
    && ops[k].verdict.Some? && ops[k].verdict.value.userVerified
    && ops[k].verdict.value.credentialId == r.credentialId && ops[k].verdict.value.publicKey == r.publicKey
    && ops[k].now == r.createdAt
  }

  ghost predicate AllRegistered(ops: seq<Op>, records: seq<Credential>) {
    forall r :: r in records ==> exists k :: RegisteredBy(ops, r, k)
  }

  lemma RegisteredSnoc(ops: seq<Op>, op: Op, r: Credential)
    requires exists k :: RegisteredBy(ops, r, k)
    ensures exists k :: RegisteredBy(ops + [op], r, k)
  {
    var k :| RegisteredBy(ops, r, k);
    assert (ops + [op])[k] == ops[k];
    assert RegisteredBy(ops + [op], r, k);
  }

  /** Every credential record of a run goes back to a registration of the same actor with a
      user-verified response. */
  lemma {:induction false} CredentialsRegistered(site: Site, ops: seq<Op>)
    ensures AllRegistered(ops, RunOps(site, ops).credentials)
  {
    if ops != [] {
      var init, op := ops[..|ops| - 1], ops[|ops| - 1];
      var s := RunOps(site, init);
      assert ops == init + [op];
      CredentialsRegistered(site, init);
      EveryRunKeeps(site, init);
      forall r | r in RunOps(site, ops).credentials ensures exists k :: RegisteredBy(ops, r, k) {
        if r in s.credentials { RegisteredSnoc(init, op, r); } else { NewlyRegistered(site, init, op, r); }
      }
    }
  }

  lemma NewlyRegistered(site: Site, init: seq<Op>, op: Op, r: Credential)
    requires var s := RunOps(site, init); Inv(site, s) && AllRegistered(init, s.credentials)
    requires r in Apply(site, RunOps(site, init), op).credentials && r !in RunOps(site, init).credentials
    ensures exists k :: RegisteredBy(init + [op], r, k)
  {
    var s := RunOps(site, init);
    if op.Register? {
      RegisteredExactly(site, s, op.actor, op.bytes, op.now, op.verdict);
      assert r == Registered(site, op.actor, op.verdict.value, op.now);
      assert RegisteredBy(init + [op], r, |init|);
    } else if op.Verify? {
      var stored := NewlyAdvanced(site, s, op, r);
      var k :| RegisteredBy(init, stored, k);
      assert RegisteredBy(init, r, k);
      RegisteredSnoc(init, op, r);
    }
  }

  lemma NewlyAdvanced(site: Site, s: State, op: Op, r: Credential) returns (stored: Credential)
    requires Inv(site, s) && op.Verify?
    requires r in Apply(site, s, op).credentials && r !in s.credentials
    ensures stored in s.credentials && op.verdict.Some? && r == Used(stored, op.verdict.value)
    ensures op.verdict.value.credentialId == stored.credentialId
  {
    VerifiedExactly(site, s, op.payload, op.now, op.verdict);
    var c;
    stored, c :| Rests(site, s, op.payload, op.now, op.verdict.value, stored, c);
    LastExactly(s.credentials, op.verdict.value.credentialId, stored);
  }

  /** Operation k verified the decision on a user-verified response by the actor's credential, whose
      last record it advanced, and spent a challenge that an earlier operation had issued for this
      payload less than five minutes before. */
  ghost predicate VerifiedBy(site: Site, ops: seq<Op>, d: Decision, k: int) {
    && 0 <= k < |ops| && ops[k].Verify? && ops[k].payload == d.payload && ops[k].now == d.verifiedAt
    && ops[k].verdict.Some?
    && (exists stored, c ::
          && Rests(site, RunOps(site, ops[..k]), d.payload, d.verifiedAt, ops[k].verdict.value, stored, c)
          && d.credential == Used(stored, ops[k].verdict.value))
    && (exists j :: IssuedBy(ops, k, j, d))
  }

  ghost predicate IssuedBy(ops: seq<Op>, k: int, j: int, d: Decision)
    requires 0 <= k < |ops|
  {
    && 0 <= j < k && ops[j].AuthenticationOptions? && ops[j].payload == d.payload
    && ops[j].now <= d.verifiedAt < ops[j].now + 300_000_000
  }

  /** Every authentication challenge of a run was issued by an options operation for its payload. */
  ghost predicate ChallengeFrom(ops: seq<Op>, c: Challenge, j: int) {
    && 0 <= j < |ops| && ops[j].AuthenticationOptions? && c.nonce == PayloadHash(ops[j].payload)
    && c.issuedAt == ops[j].now && c.expiresAt == ops[j].now + 300_000_000
  }

  lemma {:induction false} ChallengesIssued(site: Site, ops: seq<Op>, c: Challenge)
    requires Issued(c) in RunOps(site, ops).challenges && c.ceremony.Authentication?
    ensures exists j :: ChallengeFrom(ops, c, j)
  {
    var init, op := ops[..|ops| - 1], ops[|ops| - 1];
    assert ops == init + [op];
    var s := RunOps(site, init);
    EveryRunKeeps(site, init);
    if Issued(c) in s.challenges {
      ChallengesIssued(site, init, c);
      var j :| ChallengeFrom(init, c, j);
      assert ChallengeFrom(ops, c, j);
    } else {
      match op
      case AuthenticationOptions(p, now) =>
        OptionsExactly(site, s, p, now);
        assert ChallengeFrom(ops, c, |init|);
      case Verify(p, now, verdict) => VerifiedExactly(site, s, p, now, verdict);
      case Register(actor, bytes, now, verdict) => RegisteredExactly(site, s, actor, bytes, now, verdict);
      case RegistrationOptions(actor, bytes, now) => RegistrationOptionsExactly(site, s, actor, bytes, now);
    }
  }

  /** Every verified decision of a run rests on such an operation. */
  lemma {:induction false} DecisionsRest(site: Site, ops: seq<Op>, d: Decision)
    requires d in RunOps(site, ops).verified
    ensures exists k :: VerifiedBy(site, ops, d, k)
  {
    var init, op := ops[..|ops| - 1], ops[|ops| - 1];
    assert ops == init + [op];
    var s := RunOps(site, init);
    EveryRunKeeps(site, init);
    if d in s.verified {
      DecisionsRest(site, init, d);
      var k :| VerifiedBy(site, init, d, k);
      VerifiedSnoc(site, init, op, d, k);
    } else {
      assert op.Verify?;
      NewlyVerified(site, init, op, d);
    }
  }

  lemma VerifiedSnoc(site: Site, init: seq<Op>, op: Op, d: Decision, k: int)
    requires VerifiedBy(site, init, d, k)
    ensures VerifiedBy(site, init + [op], d, k)
  {
    var ops := init + [op];
    assert ops[k] == init[k] && ops[..k] == init[..k];
    var j :| IssuedBy(init, k, j, d);
    assert IssuedBy(ops, k, j, d);
  }

  lemma NewlyVerified(site: Site, init: seq<Op>, op: Op, d: Decision)
    requires Inv(site, RunOps(site, init)) && op.Verify?
    requires d in Apply(site, RunOps(site, init), op).verified && d !in RunOps(site, init).verified
    ensures VerifiedBy(site, init + [op], d, |init|)
  {
    var s, ops := RunOps(site, init), init + [op];
    VerifiedExactly(site, s, op.payload, op.now, op.verdict);
    var stored, c :| Rests(site, s, op.payload, op.now, op.verdict.value, stored, c);
    assert d == Decision(op.payload, Used(stored, op.verdict.value), op.now);
    ChallengesIssued(site, init, c);
    var j :| ChallengeFrom(init, c, j);
    assert ops[j] == init[j] && ops[..|init|] == init;
    assert IssuedBy(ops, |init|, j, d);
  }
}
