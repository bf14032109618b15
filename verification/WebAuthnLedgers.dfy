/** Single-use challenges and credential histories (control_plane/webauthn_store.py and
    the history fold of webauthn_service.py). */
module WebAuthnLedgers {
  import opened Common

  const FIVE_MINUTES: Time := 5 * 60 * 1_000_000

  datatype Payload = Payload(
    projectId: Text, repositoryId: Text, actor: Text, challenge: Text, issuedAt: Time, expiresAt: Time, decision: Text)

  datatype Ceremony = Registration | Authentication

  /** Challenge bytes: random for a registration, the payload's hash for an authentication. */
  datatype Nonce = Random(bytes: Text) | PayloadHash(payload: Payload)

  datatype Challenge = Challenge(
    id: Text, projectId: Text, repositoryId: Text, actor: Text, ceremony: Ceremony, nonce: Nonce,
    payloadDigest: Option<Nonce>, issuedAt: Time, expiresAt: Time)

  datatype ChallengeFrame = Issued(record: Challenge) | Consumed(record: Challenge, at: Time)

  predicate ValidChallenge(c: Challenge) {
    && (c.ceremony.Registration? <==> c.payloadDigest.None?)
    && c.issuedAt <= c.expiresAt <= c.issuedAt + FIVE_MINUTES
  }

  predicate WithinLifetime(c: Challenge, at: Time) { c.issuedAt <= at < c.expiresAt }

  datatype ChallengeState = ChallengeState(issued: map<Text, Challenge>, consumed: set<Text>)

  function ChallengeStep(st: ChallengeState, f: ChallengeFrame): Option<ChallengeState> {
    if !ValidChallenge(f.record) then None
    else match f
      case Issued(c) => if c.id in st.issued then None else Some(st.(issued := st.issued[c.id := c]))
      case Consumed(c, at) =>
        if c.id !in st.issued || st.issued[c.id] != c || c.id in st.consumed || !WithinLifetime(c, at) then None
        else Some(st.(consumed := st.consumed + {c.id}))
  }

  function Challenges(frames: seq<ChallengeFrame>): Option<ChallengeState> {
    if frames == [] then Some(ChallengeState(map[], {}))
    else match Challenges(frames[..|frames| - 1])
      case None => None
      case Some(st) => ChallengeStep(st, frames[|frames| - 1])
  }

  lemma ChallengesSnoc(frames: seq<ChallengeFrame>, f: ChallengeFrame)
    ensures Challenges(frames + [f]) ==
            match Challenges(frames) case None => None case Some(st) => ChallengeStep(st, f)
  {}

  lemma {:induction false} ChallengesPrefix(frames: seq<ChallengeFrame>, n: nat)
    requires n <= |frames| && Challenges(frames).Some?
    ensures Challenges(frames[..n]).Some?
    decreases |frames|
  {
    if n == |frames| {
      assert frames[..n] == frames;
    } else {
      ChallengesPrefix(frames[..|frames| - 1], n);
      assert frames[..|frames| - 1][..n] == frames[..n];
    }
  }

  /** `_records_unlocked` of the challenge store. */
  method DecodeChallenges(frames: seq<ChallengeFrame>) returns (result: Option<ChallengeState>)
    ensures result == Challenges(frames)
  {
    var issued: map<Text, Challenge> := map[];
    var consumed: set<Text> := {};
    var i := 0;
    while i < |frames|
      invariant 0 <= i <= |frames|
      invariant Challenges(frames[..i]) == Some(ChallengeState(issued, consumed))
    {
      assert frames[..i + 1] == frames[..i] + [frames[i]];
      ChallengesSnoc(frames[..i], frames[i]);
      if Challenges(frames).Some? {
        ChallengesPrefix(frames, i + 1);
      }
      if !ValidChallenge(frames[i].record) {
        return None;
      }
      match frames[i] {
        case Issued(c) =>
          if c.id in issued {
            return None;
          }
          issued := issued[c.id := c];
        case Consumed(c, at) =>
          if c.id !in issued || issued[c.id] != c || c.id in consumed || !WithinLifetime(c, at) {
            return None;
          }
          consumed := consumed + {c.id};
      }
      i := i + 1;
    }
    assert frames[..i] == frames;
    return Some(ChallengeState(issued, consumed));
  }

  ghost predicate ConsumptionsInv(frames: seq<ChallengeFrame>, st: ChallengeState) {
    && (forall id :: id in st.issued ==> st.issued[id].id == id)
    && st.consumed <= st.issued.Keys
    && (forall j :: 0 <= j < |frames| && frames[j].Consumed? ==>
          && frames[j].record.id in st.consumed
          && WithinLifetime(frames[j].record, frames[j].at)
          && Issued(frames[j].record) in frames[..j])
    && (forall i, j :: 0 <= i < j < |frames| && frames[i].Consumed? && frames[j].Consumed? ==>
          frames[i].record.id != frames[j].record.id)
    && (forall id :: id in st.issued ==> Issued(st.issued[id]) in frames)
  }

  /** In every decodable challenge ledger each challenge is consumed at most once, inside
      its half-open lifetime, after it was issued exactly as consumed. */
  lemma {:induction false} ConsumedOnce(frames: seq<ChallengeFrame>)
    requires Challenges(frames).Some?
    ensures ConsumptionsInv(frames, Challenges(frames).value)
  {
    if frames != [] {
      var front, f := frames[..|frames| - 1], frames[|frames| - 1];
      ConsumedOnce(front);
      assert frames == front + [f];
      ConsumedStep(front, f);
    }
  }

  lemma ConsumedStep(front: seq<ChallengeFrame>, f: ChallengeFrame)
    requires Challenges(front).Some? && ConsumptionsInv(front, Challenges(front).value)
    requires ChallengeStep(Challenges(front).value, f).Some?
    ensures ConsumptionsInv(front + [f], ChallengeStep(Challenges(front).value, f).value)
  {
    var st, st' := Challenges(front).value, ChallengeStep(Challenges(front).value, f).value;
    var frames := front + [f];
    forall j | 0 <= j < |frames| && frames[j].Consumed?
      ensures frames[j].record.id in st'.consumed && WithinLifetime(frames[j].record, frames[j].at)
      ensures Issued(frames[j].record) in frames[..j]
    {
      if j < |front| {
        assert frames[j] == front[j] && frames[..j] == front[..j];
      } else {
        assert frames[..j] == front;
      }
    }
    forall i, j | 0 <= i < j < |frames| && frames[i].Consumed? && frames[j].Consumed?
      ensures frames[i].record.id != frames[j].record.id
    {
      assert frames[i] == front[i];
      if j < |front| { assert frames[j] == front[j]; }
    }
    forall id | id in st'.issued ensures Issued(st'.issued[id]) in frames {
      if id in st.issued { assert Issued(st.issued[id]) in front; } else { assert frames[|front|] == f; }
    }
  }

  // ----- Credentials

  const MAX_SIGN_COUNT := 0xFFFF_FFFF

  /** The identifier hashes the credential and carries the counter. */
  datatype RecordId = CounterRecord(credentialId: Text, signCount: int)

  datatype Credential = Credential(
    id: RecordId, projectId: Text, repositoryId: Text, actor: Text, credentialId: Text, publicKey: Text,
    signCount: int, createdAt: Time)

  /** The records of one credential in ledger order. */
  function Group(records: seq<Credential>, cid: Text): seq<Credential> {
    if records == [] then []
    else Group(records[..|records| - 1], cid)
         + (if records[|records| - 1].credentialId == cid then [records[|records| - 1]] else [])
  }

  predicate SameButCounter(a: Credential, b: Credential) { a.(id := b.id, signCount := b.signCount) == b }

  function MaxCount(group: seq<Credential>): int requires group != [] {
    if |group| == 1 then group[0].signCount
    else var m := MaxCount(group[..|group| - 1]);
      if m < group[|group| - 1].signCount then group[|group| - 1].signCount else m
  }

  function WithCount(group: seq<Credential>, n: int): seq<Credential> {
    if group == [] then []
    else WithCount(group[..|group| - 1], n) + (if group[|group| - 1].signCount == n then [group[|group| - 1]] else [])
  }

  predicate Unambiguous(group: seq<Credential>) {
    && group != []
    && (forall i :: 0 <= i < |group| ==> SameButCounter(group[0], group[i]))
    && |WithCount(group, MaxCount(group))| == 1
  }

  function CredentialIds(records: seq<Credential>): set<Text> { set r | r in records :: r.credentialId }

  /** The result of `_current_credentials`, keyed by credential; None is the ValueError. */
  function Current(records: seq<Credential>, projectId: Text, repositoryId: Text, actor: Text)
    : Option<map<Text, Credential>>
  {
    if !Bound(records, projectId, repositoryId)
       || (exists cid :: cid in CredentialIds(records) && !Unambiguous(Group(records, cid))) then None
    else
      Some(map cid | cid in CredentialIds(records) && Group(records, cid)[0].actor == actor ::
             Newest(Group(records, cid)))
  }

  predicate Bound(records: seq<Credential>, projectId: Text, repositoryId: Text) {
    forall r :: r in records ==> r.projectId == projectId && r.repositoryId == repositoryId
  }

  ghost predicate Grouped(groups: map<Text, seq<Credential>>, records: seq<Credential>) {
    && (forall cid :: cid in groups <==> Group(records, cid) != [])
    && (forall cid :: cid in groups ==> groups[cid] == Group(records, cid))
  }

  function AddToGroup(groups: map<Text, seq<Credential>>, r: Credential): map<Text, seq<Credential>> {
    groups[r.credentialId := (if r.credentialId in groups then groups[r.credentialId] else []) + [r]]
  }

  lemma GroupedSnoc(groups: map<Text, seq<Credential>>, records: seq<Credential>, r: Credential)
    requires Grouped(groups, records)
    ensures Grouped(AddToGroup(groups, r), records + [r])
  {}

  /** The grouping loop of `_current_credentials`; false is the binding error. */
  method GroupRecords(records: seq<Credential>, projectId: Text, repositoryId: Text)
    returns (ok: bool, groups: map<Text, seq<Credential>>)
    ensures ok <==> Bound(records, projectId, repositoryId)
    ensures ok ==> Grouped(groups, records)
  {
    groups := map[];
    var i := 0;
    while i < |records|
      invariant 0 <= i <= |records|
      invariant Grouped(groups, records[..i])
      invariant Bound(records[..i], projectId, repositoryId)
    {
      var r := records[i];
      assert records[..i + 1] == records[..i] + [r];
      GroupedSnoc(groups, records[..i], r);
      if r.projectId != projectId || r.repositoryId != repositoryId {
        return false, groups;
      }
      groups := AddToGroup(groups, r);
      i := i + 1;
    }
    assert records[..i] == records;
    return true, groups;
  }

  function Newest(group: seq<Credential>): Credential requires Unambiguous(group) {
    WithCount(group, MaxCount(group))[0]
  }

  /** The selection loop: the record with the largest counter of each of the actor's credentials. */
  method SelectNewest(groups: map<Text, seq<Credential>>, actor: Text) returns (result: Option<map<Text, Credential>>)
    ensures result.Some? <==> forall cid :: cid in groups ==> Unambiguous(groups[cid])
    ensures result.Some? ==>
              && (forall cid :: cid in result.value <==> cid in groups && groups[cid][0].actor == actor)
              && (forall cid :: cid in result.value ==> result.value[cid] == Newest(groups[cid]))
  {
    var current: map<Text, Credential> := map[];
    var todo := groups.Keys;
    while todo != {}
      invariant todo <= groups.Keys
      invariant forall cid :: cid in groups && cid !in todo ==> Unambiguous(groups[cid])
      invariant forall cid :: cid in current <==> cid in groups && cid !in todo && groups[cid][0].actor == actor
      invariant forall cid :: cid in current ==> current[cid] == Newest(groups[cid])
      decreases todo
    {
      var cid :| cid in todo;
      if !Unambiguous(groups[cid]) {
        return None;
      }
      if groups[cid][0].actor == actor {
        current := current[cid := Newest(groups[cid])];
      }
      todo := todo - {cid};
    }
    return Some(current);
  }

  /** `_current_credentials`: group the ledger, then pick the record with the largest counter. */
  method CurrentCredentials(records: seq<Credential>, projectId: Text, repositoryId: Text, actor: Text)
    returns (result: Option<map<Text, Credential>>)
    ensures result == Current(records, projectId, repositoryId, actor)
  {
    var ok, groups := GroupRecords(records, projectId, repositoryId);
    if !ok {
      return None;
    }
    forall cid ensures cid in groups <==> cid in CredentialIds(records) {
      GroupMembers(records, cid);
      assert cid in groups ==> Group(records, cid)[0] in records;
    }
    result := SelectNewest(groups, actor);
    assert result.Some? ==> result.value == Current(records, projectId, repositoryId, actor).value;
  }

  /** Histories the service writes: bound to it, and per credential equal up to the
      counter, which strictly increases. */
  ghost predicate HistoryInv(records: seq<Credential>, projectId: Text, repositoryId: Text) {
    && (forall i :: 0 <= i < |records| ==>
          && records[i].projectId == projectId && records[i].repositoryId == repositoryId
          && records[i].id == CounterRecord(records[i].credentialId, records[i].signCount)
          && 0 <= records[i].signCount <= MAX_SIGN_COUNT)
    && (forall i, j :: 0 <= i < j < |records| && records[i].credentialId == records[j].credentialId ==>
          SameButCounter(records[i], records[j]) && records[i].signCount < records[j].signCount)
  }

  function LastOf(records: seq<Credential>, cid: Text): Option<Credential> {
    if records == [] then None
    else if records[|records| - 1].credentialId == cid then Some(records[|records| - 1])
    else LastOf(records[..|records| - 1], cid)
  }

  ghost predicate Increasing(group: seq<Credential>) {
    forall i, j :: 0 <= i < j < |group| ==>
        SameButCounter(group[i], group[j]) && group[i].signCount < group[j].signCount
  }

  lemma {:induction false} GroupMembers(records: seq<Credential>, cid: Text)
    ensures forall g :: g in Group(records, cid) <==> g in records && g.credentialId == cid
  {
    if records != [] {
      GroupMembers(records[..|records| - 1], cid);
      assert records == records[..|records| - 1] + [records[|records| - 1]];
    }
  }

  lemma {:induction false} GroupIncreasing(records: seq<Credential>, projectId: Text, repositoryId: Text, cid: Text)
    requires HistoryInv(records, projectId, repositoryId)
    ensures Increasing(Group(records, cid))
    ensures var group := Group(records, cid);
            LastOf(records, cid) == if group == [] then None else Some(group[|group| - 1])
  {
    if records != [] {
      var front, r := records[..|records| - 1], records[|records| - 1];
      GroupIncreasing(front, projectId, repositoryId, cid);
      GroupMembers(front, cid);
      if r.credentialId == cid {
        forall g | g in Group(front, cid) ensures SameButCounter(g, r) && g.signCount < r.signCount {
          var i :| 0 <= i < |front| && front[i] == g;
          assert records[i] == g;
        }
      }
    }
  }

  lemma {:induction false} NoneWithCount(group: seq<Credential>, n: int)
    requires forall i :: 0 <= i < |group| ==> group[i].signCount != n
    ensures WithCount(group, n) == []
  {
    if group != [] { NoneWithCount(group[..|group| - 1], n); }
  }

  lemma {:induction false} MaxIsLast(group: seq<Credential>)
    requires group != [] && Increasing(group)
    ensures MaxCount(group) == group[|group| - 1].signCount
    ensures WithCount(group, MaxCount(group)) == [group[|group| - 1]]
  {
    var front := group[..|group| - 1];
    if |group| > 1 {
      MaxIsLast(front);
      assert front[|front| - 1] == group[|group| - 2];
    }
    NoneWithCount(front, group[|group| - 1].signCount);
  }

  lemma GroupUnambiguous(records: seq<Credential>, projectId: Text, repositoryId: Text, cid: Text)
    requires HistoryInv(records, projectId, repositoryId) && cid in CredentialIds(records)
    ensures var g := Group(records, cid);
            && Unambiguous(g) && LastOf(records, cid) == Some(Newest(g))
            && g[0].actor == LastOf(records, cid).value.actor
  {
    var r :| r in records && r.credentialId == cid;
    GroupMembers(records, cid);
    GroupIncreasing(records, projectId, repositoryId, cid);
    var g := Group(records, cid);
    assert r in g;
    MaxIsLast(g);
    assert |g| > 1 ==> SameButCounter(g[0], g[|g| - 1]);
  }

  /** On such a history the current credentials are never ambiguous: they are the last
      appended record of each of the actor's credentials. */
  lemma CurrentIsLast(records: seq<Credential>, projectId: Text, repositoryId: Text, actor: Text)
    requires HistoryInv(records, projectId, repositoryId)
    ensures Current(records, projectId, repositoryId, actor).Some?
    ensures var m := Current(records, projectId, repositoryId, actor).value;
            && (forall cid :: cid in m <==>
                  && cid in CredentialIds(records)
                  && LastOf(records, cid).Some? && LastOf(records, cid).value.actor == actor)
            && (forall cid :: cid in m ==> LastOf(records, cid) == Some(m[cid]))
  {
    forall cid | cid in CredentialIds(records)
      ensures Unambiguous(Group(records, cid))
      ensures LastOf(records, cid) == Some(Newest(Group(records, cid)))
      ensures Group(records, cid)[0].actor == LastOf(records, cid).value.actor
    {
      GroupUnambiguous(records, projectId, repositoryId, cid);
    }
  }
}
