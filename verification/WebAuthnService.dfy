/** Registration and one-shot verification of human decisions
    (control_plane/webauthn_service.py). The authenticator library's verdicts are
    arbitrary parameters; each ceremony is one transaction, rolled back on failure. */
module WebAuthnService {
  import opened Common
  import opened WebAuthnLedgers

  datatype Verdict = Verdict(credentialId: Text, publicKey: Text, signCount: int, userVerified: bool)

  datatype Decision = Decision(payload: Payload, credential: Credential, verifiedAt: Time)

  /** The two ledgers, and every decision verified so far. */
  datatype State = State(challenges: seq<ChallengeFrame>, credentials: seq<Credential>, verified: seq<Decision>)

  datatype Site = Site(projectId: Text, repositoryId: Text)

  // ----- The stores

  /** `issue` of a challenge nobody holds yet; None is a collision or an unreadable ledger. */
  function IssueChallenge(frames: seq<ChallengeFrame>, c: Challenge): Option<seq<ChallengeFrame>> {
    match Challenges(frames)
    case None => None
    case Some(st) => if !ValidChallenge(c) || c.id in st.issued then None else Some(frames + [Issued(c)])
  }

  function ConsumableChallenge(frames: seq<ChallengeFrame>, id: Text, now: Time): Option<Challenge> {
    match Challenges(frames)
    case None => None
    case Some(st) =>
      if id !in st.issued || id in st.consumed || !WithinLifetime(st.issued[id], now) then None else Some(st.issued[id])
  }

  predicate CredentialsReadable(records: seq<Credential>) {
    forall i, j :: 0 <= i < j < |records| ==> records[i].id != records[j].id
  }

  function PutCredential(records: seq<Credential>, c: Credential): Option<seq<Credential>> {
    if !CredentialsReadable(records) || (exists r :: r in records && r.id == c.id) then None else Some(records + [c])
  }

  // ----- The ceremonies

  /** A user-verified response for a named credential, with a 32-bit counter. */
  predicate ProperVerdict(v: Verdict) { v.userVerified && v.credentialId != "" && 0 <= v.signCount <= MAX_SIGN_COUNT }

  function RegistrationChallenge(site: Site, actor: Text, bytes: Text, now: Time): Challenge {
    Challenge(bytes, site.projectId, site.repositoryId, actor, Registration, Random(bytes), None, now,
        now + FIVE_MINUTES)
  }

  function AuthenticationChallenge(site: Site, p: Payload, now: Time): Challenge {
    Challenge(p.challenge, site.projectId, site.repositoryId, p.actor, Authentication, PayloadHash(p),
              Some(PayloadHash(p)), now, now + FIVE_MINUTES)
  }

  predicate ValidDecisionCall(site: Site, p: Payload, now: Time) {
    p.projectId == site.projectId && p.repositoryId == site.repositoryId && p.issuedAt <= now < p.expiresAt
  }

  function Issue(s: State, c: Challenge): Option<State> {
    match IssueChallenge(s.challenges, c) case None => None case Some(frames) => Some(s.(challenges := frames))
  }

  function RegisterEffect(site: Site, s: State, actor: Text, bytes: Text, now: Time,
                          verdict: Option<Verdict>): Option<State> {
    var c := ConsumableChallenge(s.challenges, bytes, now);
    if c.None? || c.value.projectId != site.projectId || c.value.repositoryId != site.repositoryId
       || c.value.actor != actor || !c.value.ceremony.Registration? || c.value.nonce != Random(bytes) then None
    else if verdict.None? || !ProperVerdict(verdict.value) || verdict.value.publicKey == ""
       || !CredentialsReadable(s.credentials)
       || (exists r :: r in s.credentials && r.credentialId == verdict.value.credentialId) then None
    else
      var v := verdict.value;
      var record := Credential(CounterRecord(v.credentialId, v.signCount), site.projectId, site.repositoryId, actor,
                               v.credentialId, v.publicKey, v.signCount, now);
      match PutCredential(s.credentials, record)
      case None => None
      case Some(records) => Some(s.(challenges := s.challenges + [Consumed(c.value, now)], credentials := records))
  }

  function AuthenticationOptionsEffect(site: Site, s: State, p: Payload, now: Time): Option<State> {
    if !ValidDecisionCall(site, p, now) || !CredentialsReadable(s.credentials) then None
    else
      var current := Current(s.credentials, site.projectId, site.repositoryId, p.actor);
      if current.None? || current.value == map[] then None else Issue(s, AuthenticationChallenge(site, p, now))
  }

  /** The counter rule of sections 6.1.1 and 7.2 of Web Authentication Level 2. */
  predicate CounterAccepted(stored: int, reported: int) { (stored == 0 && reported == 0) || reported > stored }

  /** The credential records after the counter rule, and the record the decision rests on. */
  function AdvanceCounter(records: seq<Credential>, stored: Credential, cid: Text, n: int)
    : Option<(seq<Credential>, Credential)>
  {
    if !CounterAccepted(stored.signCount, n) then None
    else if n == stored.signCount then Some((records, stored))
    else
      var advanced := stored.(id := CounterRecord(cid, n), signCount := n);
      match PutCredential(records, advanced)
      case None => None
      case Some(more) => Some((more, advanced))
  }

  /** The challenge was issued on this site to authenticate this payload. */
  predicate IssuedFor(site: Site, c: Challenge, p: Payload) {
    && c.projectId == site.projectId && c.repositoryId == site.repositoryId && c.actor == p.actor
    && c.ceremony.Authentication? && c.payloadDigest == Some(PayloadHash(p)) && c.nonce == PayloadHash(p)
  }

  /** The credential records after an accepted authenticator response, and the record it used. */
  function JudgeResponse(site: Site, records: seq<Credential>, p: Payload, verdict: Option<Verdict>)
    : Option<(seq<Credential>, Credential)>
  {
    if !CredentialsReadable(records) then None
    else
      var current := Current(records, site.projectId, site.repositoryId, p.actor);
      if current.None? || current.value == map[] || verdict.None? || !ProperVerdict(verdict.value)
         || verdict.value.credentialId !in current.value then None
      else
        var cid := verdict.value.credentialId;
        AdvanceCounter(records, current.value[cid], cid, verdict.value.signCount)
  }

  function VerifyEffect(site: Site, s: State, p: Payload, now: Time, verdict: Option<Verdict>): Option<State> {
    if !ValidDecisionCall(site, p, now) then None
    else
      var c := ConsumableChallenge(s.challenges, p.challenge, now);
      var judged := JudgeResponse(site, s.credentials, p, verdict);
      if c.None? || !IssuedFor(site, c.value, p) || judged.None? then None
      else
        var (records, used) := judged.value;
        Some(State(s.challenges + [Consumed(c.value, now)], records, s.verified + [Decision(p, used, now)]))
  }

  datatype Op =
    | RegistrationOptions(actor: Text, bytes: Text, now: Time)
    | Register(actor: Text, bytes: Text, now: Time, verdict: Option<Verdict>)
    | AuthenticationOptions(payload: Payload, now: Time)
    | Verify(payload: Payload, now: Time, verdict: Option<Verdict>)

  function Effect(site: Site, s: State, op: Op): Option<State> {
    match op
    case RegistrationOptions(actor, bytes, now) => Issue(s, RegistrationChallenge(site, actor, bytes, now))
    case Register(actor, bytes, now, verdict) => RegisterEffect(site, s, actor, bytes, now, verdict)
    case AuthenticationOptions(p, now) => AuthenticationOptionsEffect(site, s, p, now)
    case Verify(p, now, verdict) => VerifyEffect(site, s, p, now, verdict)
  }

  function Apply(site: Site, s: State, op: Op): State {
    match Effect(site, s, op) case None => s case Some(s') => s'
  }

  function RunOps(site: Site, ops: seq<Op>): State {
    if ops == [] then State([], [], []) else Apply(site, RunOps(site, ops[..|ops| - 1]), ops[|ops| - 1])
  }

  // ----- The service object

  class Service {
    const site: Site
    var challenges: seq<ChallengeFrame>
    var credentials: seq<Credential>
    ghost var verified: seq<Decision>

    ghost function View(): State reads this { State(challenges, credentials, verified) }

    constructor (site: Site)
      ensures this.site == site && View() == State([], [], [])
    {
      this.site := site;
      challenges, credentials, verified := [], [], [];
    }

    method IssueRecord(c: Challenge) returns (ok: bool)
      modifies this
      ensures ok == Issue(old(View()), c).Some?
      ensures View() == if ok then Issue(old(View()), c).value else old(View())
    {
      var state := DecodeChallenges(challenges);
      ok := state.Some? && ValidChallenge(c) && c.id !in state.value.issued;
      if ok {
        challenges := challenges + [Issued(c)];
      }
    }

    method OptionsForRegistration(actor: Text, bytes: Text, now: Time) returns (ok: bool)
      modifies this
      ensures View() == Apply(site, old(View()), RegistrationOptions(actor, bytes, now))
      ensures ok == Effect(site, old(View()), RegistrationOptions(actor, bytes, now)).Some?
    {
      ok := IssueRecord(RegistrationChallenge(site, actor, bytes, now));
    }

    method OptionsForAuthentication(p: Payload, now: Time) returns (ok: bool)
      modifies this
      ensures View() == Apply(site, old(View()), AuthenticationOptions(p, now))
      ensures ok == Effect(site, old(View()), AuthenticationOptions(p, now)).Some?
    {
      if !ValidDecisionCall(site, p, now) || !CredentialsReadable(credentials) {
        return false;
      }
      var current := CurrentCredentials(credentials, site.projectId, site.repositoryId, p.actor);
      if current.None? || current.value == map[] {
        return false;
      }
      ok := IssueRecord(AuthenticationChallenge(site, p, now));
    }

    /** Consume a challenge inside the running transaction. */
    method ConsumeChallenge(id: Text, now: Time) returns (c: Option<Challenge>)
      modifies this`challenges
      ensures c == ConsumableChallenge(old(challenges), id, now)
      ensures challenges == if c.Some? then old(challenges) + [Consumed(c.value, now)] else old(challenges)
    {
      var state := DecodeChallenges(challenges);
      if state.None? || id !in state.value.issued || id in state.value.consumed
         || !WithinLifetime(state.value.issued[id], now) {
        return None;
      }
      c := Some(state.value.issued[id]);
      challenges := challenges + [Consumed(c.value, now)];
    }

    method RegisterCredential(actor: Text, bytes: Text, now: Time, verdict: Option<Verdict>) returns (ok: bool)
      modifies this
      ensures View() == Apply(site, old(View()), Register(actor, bytes, now, verdict))
      ensures ok == Effect(site, old(View()), Register(actor, bytes, now, verdict)).Some?
    {
      var before := challenges;
      var c := ConsumeChallenge(bytes, now);
      ok := false;
      if c.Some? && c.value.projectId == site.projectId && c.value.repositoryId == site.repositoryId
         && c.value.actor == actor && c.value.ceremony.Registration? && c.value.nonce == Random(bytes)
         && verdict.Some? && ProperVerdict(verdict.value) && verdict.value.publicKey != ""
         && CredentialsReadable(credentials)
         && !(exists r :: r in credentials && r.credentialId == verdict.value.credentialId) {
        var v := verdict.value;
        var records := PutCredential(credentials,
          Credential(CounterRecord(v.credentialId, v.signCount), site.projectId, site.repositoryId, actor,
                     v.credentialId, v.publicKey, v.signCount, now));
        if records.Some? {
          credentials, ok := records.value, true;
        }
      }
      if !ok {
        challenges := before;
      }
    }

    /** Apply the counter rule and append the advanced record. */
    method UseCounter(stored: Credential, cid: Text, n: int) returns (used: Option<Credential>)
      requires CredentialsReadable(credentials)
      modifies this`credentials
      ensures used.Some? == AdvanceCounter(old(credentials), stored, cid, n).Some?
      ensures used.Some? ==> AdvanceCounter(old(credentials), stored, cid, n) == Some((credentials, used.value))
      ensures used.None? ==> credentials == old(credentials)
    {
      if stored.signCount == 0 && n == 0 {
        return Some(stored);
      }
      if n <= stored.signCount {
        return None;
      }
      var advanced := stored.(id := CounterRecord(cid, n), signCount := n);
      var records := PutCredential(credentials, advanced);
      if records.None? {
        return None;
      }
      credentials := records.value;
      return Some(advanced);
    }

    method VerifyDecision(p: Payload, now: Time, verdict: Option<Verdict>) returns (ok: bool)
      modifies this
      ensures ok == VerifyEffect(site, old(View()), p, now, verdict).Some?
      ensures View() == if ok then VerifyEffect(site, old(View()), p, now, verdict).value else old(View())
    {
      if !ValidDecisionCall(site, p, now) {
        return false;
      }
      var before := challenges;
      var c := ConsumeChallenge(p.challenge, now);
      ok := false;
      if c.Some? && IssuedFor(site, c.value, p) {
        var used := Judge(p, verdict);
        if used.Some? {
          ok := true;
          verified := verified + [Decision(p, used.value, now)];
        }
      }
      if !ok {
        challenges := before;
      }
    }

    /** Check the authenticator's verdict against the current credentials. */
    method Judge(p: Payload, verdict: Option<Verdict>) returns (used: Option<Credential>)
      modifies this`credentials
      ensures used.Some? == JudgeResponse(site, old(credentials), p, verdict).Some?
      ensures used.Some? ==> JudgeResponse(site, old(credentials), p, verdict) == Some((credentials, used.value))
      ensures used.None? ==> credentials == old(credentials)
    {
      if !CredentialsReadable(credentials) {
        return None;
      }
      var current := CurrentCredentials(credentials, site.projectId, site.repositoryId, p.actor);
      if current.None? || verdict.None? || !ProperVerdict(verdict.value)
         || verdict.value.credentialId !in current.value {
        return None;
      }
      var stored := current.value[verdict.value.credentialId];
      used := UseCounter(stored, verdict.value.credentialId, verdict.value.signCount);
    }
  }

  // ----- Every reachable state

  /** Each verified decision spent its own challenge, issued for its actor and its digest. */
  ghost predicate VerifiedInv(s: State, st: ChallengeState) {
    && (forall i :: 0 <= i < |s.verified| ==> Spent(s.verified[i], st))
    && (forall i, j :: 0 <= i < j < |s.verified| ==> s.verified[i].payload.challenge != s.verified[j].payload.challenge)
  }

  ghost predicate Spent(d: Decision, st: ChallengeState) {
    && d.payload.challenge in st.consumed
    && d.payload.challenge in st.issued
    && st.issued[d.payload.challenge].actor == d.payload.actor
    && st.issued[d.payload.challenge].payloadDigest == Some(PayloadHash(d.payload))
  }

  ghost predicate Inv(site: Site, s: State) {
    && Challenges(s.challenges).Some?
    && HistoryInv(s.credentials, site.projectId, site.repositoryId)
    && VerifiedInv(s, Challenges(s.challenges).value)
  }

  /** Distinct counters give distinct record identifiers. */
  lemma HistoryReadable(records: seq<Credential>, site: Site)
    requires HistoryInv(records, site.projectId, site.repositoryId)
    ensures CredentialsReadable(records)
  {}

  lemma IssueKeeps(site: Site, s: State, c: Challenge)
    requires Inv(site, s) && Issue(s, c).Some?
    ensures Inv(site, Issue(s, c).value)
  {}

  /** Spending a challenge keeps the ledger decodable. */
  lemma ConsumeKeeps(s: State, id: Text, now: Time)
    requires ConsumableChallenge(s.challenges, id, now).Some?
    ensures var st := Challenges(s.challenges).value;
            Challenges(s.challenges + [Consumed(ConsumableChallenge(s.challenges, id, now).value, now)])
            == Some(st.(consumed := st.consumed + {id}))
  {
    var c := ConsumableChallenge(s.challenges, id, now).value;
    ConsumedOnce(s.challenges);
    IssuedValid(s.challenges, id);
    ChallengesSnoc(s.challenges, Consumed(c, now));
  }

  lemma {:induction false} IssuedValid(frames: seq<ChallengeFrame>, id: Text)
    requires Challenges(frames).Some? && id in Challenges(frames).value.issued
    ensures ValidChallenge(Challenges(frames).value.issued[id])
  {
    var front := frames[..|frames| - 1];
    if id in Challenges(front).value.issued { IssuedValid(front, id); }
  }

  lemma HistoryAppend(records: seq<Credential>, site: Site, c: Credential)
    requires HistoryInv(records, site.projectId, site.repositoryId)
    requires c.projectId == site.projectId && c.repositoryId == site.repositoryId
    requires c.id == CounterRecord(c.credentialId, c.signCount) && 0 <= c.signCount <= MAX_SIGN_COUNT
    requires forall i :: 0 <= i < |records| && records[i].credentialId == c.credentialId ==>
               SameButCounter(records[i], c) && records[i].signCount < c.signCount
    ensures HistoryInv(records + [c], site.projectId, site.repositoryId)
  {}

  lemma RegisterKeeps(site: Site, s: State, op: Op)
    requires Inv(site, s) && op.Register? && Effect(site, s, op).Some?
    ensures Inv(site, Effect(site, s, op).value)
  {
    ConsumeKeeps(s, op.bytes, op.now);
    var v := op.verdict.value;
    HistoryAppend(s.credentials, site,
      Credential(CounterRecord(v.credentialId, v.signCount), site.projectId, site.repositoryId, op.actor,
                 v.credentialId, v.publicKey, v.signCount, op.now));
  }

  /** Every record of a credential precedes the last one in counter order. */
  lemma {:induction false} LastDominates(records: seq<Credential>, site: Site, cid: Text, i: nat)
    requires HistoryInv(records, site.projectId, site.repositoryId) && i < |records| && records[i].credentialId == cid
    ensures LastOf(records, cid).Some?
    ensures var last := LastOf(records, cid).value;
            && last.credentialId == cid && last in records
            && (records[i] == last || (SameButCounter(records[i], last) && records[i].signCount < last.signCount))
  {
    var n := |records| - 1;
    if records[n].credentialId != cid {
      LastDominates(records[..n], site, cid, i);
    }
  }

  lemma AdvanceKeeps(site: Site, s: State, stored: Credential, cid: Text, n: int)
    requires HistoryInv(s.credentials, site.projectId, site.repositoryId) && LastOf(s.credentials, cid) == Some(stored)
    requires stored in s.credentials && stored.credentialId == cid && stored.signCount < n <= MAX_SIGN_COUNT
    ensures HistoryInv(s.credentials + [stored.(id := CounterRecord(cid, n), signCount := n)], site.projectId,
              site.repositoryId)
  {
    var advanced := stored.(id := CounterRecord(cid, n), signCount := n);
    forall i | 0 <= i < |s.credentials| && s.credentials[i].credentialId == cid
      ensures SameButCounter(s.credentials[i], advanced) && s.credentials[i].signCount < n
    {
      LastDominates(s.credentials, site, cid, i);
    }
    HistoryAppend(s.credentials, site, advanced);
  }

  lemma VerifiedAppend(s: State, s': State, st: ChallengeState, d: Decision)
    requires VerifiedInv(s, st) && s'.verified == s.verified + [d]
    requires d.payload.challenge in st.issued && d.payload.challenge !in st.consumed
    requires st.issued[d.payload.challenge].actor == d.payload.actor
    requires st.issued[d.payload.challenge].payloadDigest == Some(PayloadHash(d.payload))
    ensures VerifiedInv(s', st.(consumed := st.consumed + {d.payload.challenge}))
  {}

  lemma StoredIsLast(site: Site, s: State, actor: Text, cid: Text)
    requires HistoryInv(s.credentials, site.projectId, site.repositoryId)
    requires Current(s.credentials, site.projectId, site.repositoryId, actor).Some?
    requires cid in Current(s.credentials, site.projectId, site.repositoryId, actor).value
    ensures var stored := Current(s.credentials, site.projectId, site.repositoryId, actor).value[cid];
            LastOf(s.credentials, cid) == Some(stored) && stored in s.credentials && stored.credentialId == cid
  {
    CurrentIsLast(s.credentials, site.projectId, site.repositoryId, actor);
    var r :| r in s.credentials && r.credentialId == cid;
    var i :| 0 <= i < |s.credentials| && s.credentials[i] == r;
    LastDominates(s.credentials, site, cid, i);
  }

  lemma VerifyKeeps(site: Site, s: State, p: Payload, now: Time, verdict: Option<Verdict>)
    requires Inv(site, s) && VerifyEffect(site, s, p, now, verdict).Some?
    ensures Inv(site, VerifyEffect(site, s, p, now, verdict).value)
  {
    var s' := VerifyEffect(site, s, p, now, verdict).value;
    var st := Challenges(s.challenges).value;
    ConsumeKeeps(s, p.challenge, now);
    StoredIsLast(site, s, p.actor, verdict.value.credentialId);
    var stored := Current(s.credentials, site.projectId, site.repositoryId, p.actor).value[verdict.value.credentialId];
    if verdict.value.signCount != stored.signCount {
      AdvanceKeeps(site, s, stored, verdict.value.credentialId, verdict.value.signCount);
    }
    VerifiedAppend(s, s', st, s'.verified[|s.verified|]);
  }

  lemma ApplyKeeps(site: Site, s: State, op: Op)
    requires Inv(site, s)
    ensures Inv(site, Apply(site, s, op))
  {
    if Effect(site, s, op).Some? {
      match op
      case RegistrationOptions(actor, bytes, now) =>
        IssueKeeps(site, s, RegistrationChallenge(site, actor, bytes, now));
      case Register(_, _, _, _) => RegisterKeeps(site, s, op);
      case AuthenticationOptions(p, now) => IssueKeeps(site, s, AuthenticationChallenge(site, p, now));
      case Verify(p, now, verdict) => VerifyKeeps(site, s, p, now, verdict);
    }
  }

  /** Over every run of ceremonies both ledgers stay readable, credential counters strictly
      increase, and every verified decision spent its own challenge. */
  lemma {:induction false} EveryRunKeeps(site: Site, ops: seq<Op>)
    ensures Inv(site, RunOps(site, ops))
    ensures CredentialsReadable(RunOps(site, ops).credentials)
  {
    if ops != [] {
      EveryRunKeeps(site, ops[..|ops| - 1]);
      ApplyKeeps(site, RunOps(site, ops[..|ops| - 1]), ops[|ops| - 1]);
    }
    HistoryReadable(RunOps(site, ops).credentials, site);
  }

  /** At most one verification ever succeeds per decision payload. */
  lemma VerifiedOnce(site: Site, ops: seq<Op>, i: nat, j: nat)
    requires i < j < |RunOps(site, ops).verified|
    ensures RunOps(site, ops).verified[i].payload != RunOps(site, ops).verified[j].payload
  {
    EveryRunKeeps(site, ops);
  }

  /** In every reachable state an actor's current credentials are the last appended records,
      never ambiguous. */
  lemma CurrentNeverAmbiguous(site: Site, ops: seq<Op>, actor: Text)
    ensures var s := RunOps(site, ops); var current := Current(s.credentials, site.projectId, site.repositoryId, actor);
            && current.Some?
            && (forall cid :: cid in current.value ==> LastOf(s.credentials, cid) == Some(current.value[cid]))
  {
    EveryRunKeeps(site, ops);
    CurrentIsLast(RunOps(site, ops).credentials, site.projectId, site.repositoryId, actor);
  }

  /** A counter beyond the stored one never collides with a stored record. */
  lemma CounterNeverCollides(site: Site, ops: seq<Op>, cid: Text, n: int, r: Credential)
    requires LastOf(RunOps(site, ops).credentials, cid).Some?
    requires LastOf(RunOps(site, ops).credentials, cid).value.signCount < n
    requires r in RunOps(site, ops).credentials
    ensures r.id != CounterRecord(cid, n)
  {
    EveryRunKeeps(site, ops);
    FreshCounter(RunOps(site, ops).credentials, site, cid, n, r);
  }

  lemma FreshCounter(records: seq<Credential>, site: Site, cid: Text, n: int, r: Credential)
    requires HistoryInv(records, site.projectId, site.repositoryId) && r in records
    requires LastOf(records, cid).Some? && LastOf(records, cid).value.signCount < n
    ensures r.id != CounterRecord(cid, n)
  {
    var i :| 0 <= i < |records| && records[i] == r;
    if r.credentialId == cid {
      LastDominates(records, site, cid, i);
    }
  }

  // ----- A ceremony succeeds once

  ghost predicate Acceptable(site: Site, s: State, p: Payload, v: Verdict) {
    var current := Current(s.credentials, site.projectId, site.repositoryId, p.actor);
    && ProperVerdict(v)
    && current.Some? && v.credentialId in current.value
    && CounterAccepted(current.value[v.credentialId].signCount, v.signCount)
  }

  lemma IssuedIsConsumable(site: Site, s: State, p: Payload, now: Time, later: Time)
    requires AuthenticationOptionsEffect(site, s, p, now).Some? && Inv(site, s)
    requires now <= later < now + FIVE_MINUTES
    ensures var s1 := AuthenticationOptionsEffect(site, s, p, now).value;
            && ConsumableChallenge(s1.challenges, p.challenge, later) == Some(AuthenticationChallenge(site, p, now))
            && s1.credentials == s.credentials && Inv(site, s1)
  {
    var c := AuthenticationChallenge(site, p, now);
    IssueKeeps(site, s, c);
    ChallengesSnoc(s.challenges, Issued(c));
    ConsumedOnce(s.challenges);
  }

  /** The state after further ceremonies. */
  function Continue(site: Site, s: State, more: seq<Op>): State {
    if more == [] then s else Apply(site, Continue(site, s, more[..|more| - 1]), more[|more| - 1])
  }

  ghost predicate IsConsumed(s: State, id: Text) {
    Challenges(s.challenges).Some? && id in Challenges(s.challenges).value.consumed
  }

  lemma AppliedStaysConsumed(site: Site, s: State, op: Op, id: Text)
    requires IsConsumed(s, id) && Inv(site, s)
    ensures IsConsumed(Apply(site, s, op), id)
  {
    match op
    case RegistrationOptions(actor, bytes, now) =>
      ChallengesSnoc(s.challenges, Issued(RegistrationChallenge(site, actor, bytes, now)));
    case AuthenticationOptions(p, now) => ChallengesSnoc(s.challenges, Issued(AuthenticationChallenge(site, p, now)));
    case Register(_, bytes, now, _) => if Effect(site, s, op).Some? { ConsumeKeeps(s, bytes, now); }
    case Verify(p, now, _) => if Effect(site, s, op).Some? { ConsumeKeeps(s, p.challenge, now); }
  }

  lemma {:induction false} StaysConsumed(site: Site, s: State, more: seq<Op>, id: Text)
    requires IsConsumed(s, id) && Inv(site, s)
    ensures IsConsumed(Continue(site, s, more), id) && Inv(site, Continue(site, s, more))
  {
    if more != [] {
      StaysConsumed(site, s, more[..|more| - 1], id);
      AppliedStaysConsumed(site, Continue(site, s, more[..|more| - 1]), more[|more| - 1], id);
      ApplyKeeps(site, Continue(site, s, more[..|more| - 1]), more[|more| - 1]);
    }
  }

  /** After options were issued in any reachable state, an acceptable response inside both
      lifetimes is verified, and after any further ceremonies no response is verified for that
      payload again. */
  lemma IssuedVerifiesOnce(site: Site, ops: seq<Op>, p: Payload, now: Time, later: Time, v: Verdict,
                           more: seq<Op>, when: Time, other: Option<Verdict>)
    requires AuthenticationOptionsEffect(site, RunOps(site, ops), p, now).Some?
    requires now <= later < now + FIVE_MINUTES && ValidDecisionCall(site, p, later) &&
              Acceptable(site, RunOps(site, ops), p, v)
    ensures var s1 := AuthenticationOptionsEffect(site, RunOps(site, ops), p, now).value;
            && VerifyEffect(site, s1, p, later, Some(v)).Some?
            && var s2 := VerifyEffect(site, s1, p, later, Some(v)).value;
            && |s2.verified| == |s1.verified| + 1 && s2.verified[|s1.verified|].payload == p
            && VerifyEffect(site, Continue(site, s2, more), p, when, other).None?
  {
    EveryRunKeeps(site, ops);
    IssuedVerifies(site, RunOps(site, ops), p, now, later, v);
    var s1 := AuthenticationOptionsEffect(site, RunOps(site, ops), p, now).value;
    VerifiedForGood(site, s1, p, later, v, more, when, other);
  }

  lemma IssuedVerifies(site: Site, s: State, p: Payload, now: Time, later: Time, v: Verdict)
    requires Inv(site, s) && AuthenticationOptionsEffect(site, s, p, now).Some?
    requires now <= later < now + FIVE_MINUTES && ValidDecisionCall(site, p, later) && Acceptable(site, s, p, v)
    ensures var s1 := AuthenticationOptionsEffect(site, s, p, now).value;
            Inv(site, s1) && VerifyEffect(site, s1, p, later, Some(v)).Some?
  {
    IssuedIsConsumable(site, s, p, now, later);
    VerifySucceeds(site, AuthenticationOptionsEffect(site, s, p, now).value, p, now, later, v);
  }

  lemma VerifiedForGood(site: Site, s: State, p: Payload, now: Time, v: Verdict, more: seq<Op>, when: Time,
                        other: Option<Verdict>)
    requires Inv(site, s) && VerifyEffect(site, s, p, now, Some(v)).Some?
    ensures var s' := VerifyEffect(site, s, p, now, Some(v)).value;
            && |s'.verified| == |s.verified| + 1 && s'.verified[|s.verified|].payload == p
            && VerifyEffect(site, Continue(site, s', more), p, when, other).None?
  {
    VerifiedSpends(site, s, p, now, v);
    var s' := VerifyEffect(site, s, p, now, Some(v)).value;
    StaysConsumed(site, s', more, p.challenge);
    ConsumedRefuses(site, Continue(site, s', more), p, when, other);
  }

  lemma VerifiedSpends(site: Site, s: State, p: Payload, now: Time, v: Verdict)
    requires Inv(site, s) && VerifyEffect(site, s, p, now, Some(v)).Some?
    ensures var s' := VerifyEffect(site, s, p, now, Some(v)).value;
            && Inv(site, s') && IsConsumed(s', p.challenge)
            && |s'.verified| == |s.verified| + 1 && s'.verified[|s.verified|].payload == p
  {
    VerifyKeeps(site, s, p, now, Some(v));
    ConsumeKeeps(s, p.challenge, now);
  }

  lemma ConsumedRefuses(site: Site, s: State, p: Payload, now: Time, verdict: Option<Verdict>)
    requires IsConsumed(s, p.challenge)
    ensures VerifyEffect(site, s, p, now, verdict).None?
  {}

  lemma VerifySucceeds(site: Site, s: State, p: Payload, issued: Time, now: Time, v: Verdict)
    requires Inv(site, s) && ValidDecisionCall(site, p, now) && Acceptable(site, s, p, v)
    requires ConsumableChallenge(s.challenges, p.challenge, now) == Some(AuthenticationChallenge(site, p, issued))
    ensures VerifyEffect(site, s, p, now, Some(v)).Some?
  {
    HistoryReadable(s.credentials, site);
    StoredIsLast(site, s, p.actor, v.credentialId);
    var stored := Current(s.credentials, site.projectId, site.repositoryId, p.actor).value[v.credentialId];
    if v.signCount != stored.signCount {
      forall r | r in s.credentials ensures r.id != CounterRecord(v.credentialId, v.signCount) {
        FreshCounter(s.credentials, site, v.credentialId, v.signCount, r);
      }
    }
  }
}
