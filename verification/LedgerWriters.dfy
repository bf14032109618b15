/** The writers of the proposal ledger: the store's `put`, `decide` and
    `append_clarification` (proposal_store.py), the coordinator's `_propose` and
    the confirmation service's `_confirm` (clarification.py). Each call is one
    atomic step. Guards that read other stores (graph version, evidence
    visibility, changeset and role checks, review policy) arrive as the Boolean
    `admissible`. */
module LedgerWriters {
  import opened Common
  import opened IntentModels
  import opened ProposalLedger
  import opened LedgerInvariant
  import LedgerHistory

  datatype Outcome = Added | Duplicate | Invalid

  datatype Submission = Submission(
    sessionId: SessionId, taskId: Text, baseline: int, actor: Text, timestamp: Time,
    evidenceRefs: seq<Text>, rest: Text)

  datatype Confirmation = Confirmation(
    proposalId: ProposalId, actor: Text, at: Time, actorAliases: seq<Text>,
    activation: Text, governance: Text)

  function Append(frames: seq<Frame>, p: Payload): seq<Frame> { frames + [Frame(|frames|, p)] }

  // ----- Specifications of the writers

  function PutOutcome(frames: seq<Frame>, p: Proposal): Outcome {
    match Decode(frames)
    case None => Invalid
    case Some(st) =>
      if !ValidProposal(p) then Invalid
      else if p.id in st.proposals then (if st.proposals[p.id] == p then Duplicate else Invalid)
      else Added
  }

  function DecideOutcome(frames: seq<Frame>, d: Decision): Outcome {
    match Decode(frames)
    case None => Invalid
    case Some(st) =>
      var pid := d.content.proposalId;
      if !ValidDecision(d) || pid !in st.proposals || IsClarification(st.proposals[pid])
         || !DecisionNames(d, st.proposals[pid]) then Invalid
      else if pid in st.decisions then (if st.decisions[pid] == d then Duplicate else Invalid)
      else Added
  }

  function EventsWithId(events: seq<Event>, id: EventId): seq<Event> {
    if events == [] then []
    else (if events[0].id == id then [events[0]] else []) + EventsWithId(events[1..], id)
  }

  /** The last event of a session, searched from the end. */
  function LatestOf(events: seq<Event>, sid: SessionId): Option<Event> {
    if events == [] then None
    else if Last(events).session.id == sid then Some(Last(events))
    else LatestOf(events[..|events| - 1], sid)
  }

  function ClarifyOutcome(frames: seq<Frame>, e: Event): Outcome {
    match Decode(frames)
    case None => Invalid
    case Some(st) =>
      var existing := EventsWithId(st.events, e.id);
      if !ValidEvent(e) then Invalid
      else if existing != [] then (if existing == [e] then Duplicate else Invalid)
      else if !ValidTransition(Lookup(st.sessions, e.session.id), e, LatestOf(st.events, e.session.id)) then Invalid
      else Added
  }

  function ProposedContent(sub: Submission): ProposalContent {
    ProposalContent(sub.actor, sub.timestamp, sub.baseline, sub.evidenceRefs, sub.rest,
                    Some(Binding(sub.sessionId, sub.taskId)))
  }

  function ProposedProposal(sub: Submission): Proposal {
    Proposal(ProposalDigest(ProposedContent(sub)), ProposedContent(sub))
  }

  predicate Proposable(s: Session, sub: Submission) {
    && !s.status.Closed?
    && s.conflicts == []
    && RequiredAnswered(s)
    && sub.taskId == s.core.taskId
    && sub.baseline == s.core.baseline
    && s.answers != []
    && sub.actor == Last(s.answers).actor
    && sub.timestamp >= Last(s.answers).answeredAt
  }

  function ProposingEvent(s: Session, sub: Submission): Event {
    MakeEvent(s.(status := Proposed), Proposing, sub.actor, sub.timestamp, s.latestEventId,
              Some(ProposedProposal(sub).id))
  }

  function ProposeOutcome(frames: seq<Frame>, sub: Submission, admissible: bool): Outcome {
    match Decode(frames)
    case None => Invalid
    case Some(st) =>
      if sub.sessionId !in st.sessions || !admissible || !Proposable(st.sessions[sub.sessionId], sub) then Invalid
      else if st.sessions[sub.sessionId].status.Proposed? then
        var p := ProposedProposal(sub);
        if p.id in st.proposals && st.proposals[p.id] == p then Duplicate else Invalid
      else Added
  }

  function ConfirmedDecision(p: Proposal, c: Confirmation): Decision {
    var content := DecisionContent(p.id, p.id, c.actor, c.at, p.content.baseline,
                                   V3(c.activation, c.actorAliases, c.governance));
    Decision(DecisionDigest(content), content)
  }

  function ClosingEvent(s: Session, p: Proposal, c: Confirmation): Event {
    MakeEvent(s.(status := Closed), Closing, c.actor, c.at, s.latestEventId,
              Some(p.id), Some(ConfirmedDecision(p, c).id), Some(c.activation))
  }

  /** The proposal, its proposed session, and no decision yet. */
  predicate ConfirmReady(st: LedgerState, c: Confirmation) {
    && c.proposalId in st.proposals
    && IsClarification(st.proposals[c.proposalId])
    && var sid := st.proposals[c.proposalId].content.clarification.value.sessionId;
    && sid in st.sessions && st.sessions[sid].status.Proposed?
    && c.proposalId !in st.decisions && c.actor in c.actorAliases
  }

  function ConfirmSession(st: LedgerState, c: Confirmation): Session requires ConfirmReady(st, c) {
    st.sessions[st.proposals[c.proposalId].content.clarification.value.sessionId]
  }

  function ConfirmDecisionOf(st: LedgerState, c: Confirmation): Decision requires ConfirmReady(st, c) {
    ConfirmedDecision(st.proposals[c.proposalId], c)
  }

  function ConfirmClosing(st: LedgerState, c: Confirmation): Event requires ConfirmReady(st, c) {
    ClosingEvent(ConfirmSession(st, c), st.proposals[c.proposalId], c)
  }

  /** The confirmation passes every guard before the write. */
  predicate ConfirmAdmitted(frames: seq<Frame>, c: Confirmation, admissible: bool) {
    match Decode(frames)
    case None => false
    case Some(st) => admissible && ConfirmReady(st, c) && c.at >= st.proposals[c.proposalId].content.proposedAt
  }

  /** The ledger with the decision and the closing event written. */
  function ConfirmWritten(frames: seq<Frame>, c: Confirmation, admissible: bool): seq<Frame>
    requires ConfirmAdmitted(frames, c, admissible)
  {
    var st := Decode(frames).value;
    Append(Append(frames, DecisionFrame(ConfirmDecisionOf(st, c))), ClarificationFrame(ConfirmClosing(st, c)))
  }

  function ClosingsOf(events: seq<Event>, sid: SessionId): seq<Event> {
    if events == [] then []
    else
      ClosingsOf(events[..|events| - 1], sid)
      + (if Last(events).session.id == sid && Last(events).kind.Closing? then [Last(events)] else [])
  }

  /** What `_authenticate_applied` demands of the ledger it reads back: it decodes, still
      holds the proposal, and the session's one closing event is its last. */
  predicate ReadsBack(written: seq<Frame>, p: Proposal, closing: Event) {
    match Decode(written)
    case None => false
    case Some(st) =>
      && p.id in st.proposals && st.proposals[p.id] == p
      && ClosingsOf(st.events, closing.session.id) == [closing]
      && LatestOf(st.events, closing.session.id) == Some(closing)
  }

  /** A confirmation whose ledger does not read back raises, and the authority transaction
      restores the old ledger. A replay of an applied confirmation writes nothing; whether it
      is reported as applied depends on stores outside the ledger. */
  function ConfirmOutcome(frames: seq<Frame>, c: Confirmation, admissible: bool): Outcome {
    if ConfirmAdmitted(frames, c, admissible) then
      var st := Decode(frames).value;
      if ReadsBack(ConfirmWritten(frames, c, admissible), st.proposals[c.proposalId], ConfirmClosing(st, c))
      then Added else Invalid
    else if Decode(frames).Some? && ConfirmReplays(Decode(frames).value, c) && admissible then Duplicate
    else Invalid
  }

  predicate ConfirmReplays(st: LedgerState, c: Confirmation) {
    && c.proposalId in st.proposals && IsClarification(st.proposals[c.proposalId])
    && c.at >= st.proposals[c.proposalId].content.proposedAt && c.actor in c.actorAliases
    && c.proposalId in st.decisions
  }

  // ----- Frames each accepted call leaves behind

  function AfterPut(frames: seq<Frame>, p: Proposal): seq<Frame> {
    if PutOutcome(frames, p).Added? then Append(frames, ProposalFrame(p)) else frames
  }

  function AfterDecide(frames: seq<Frame>, d: Decision): seq<Frame> {
    if DecideOutcome(frames, d).Added? then Append(frames, DecisionFrame(d)) else frames
  }

  function AfterClarify(frames: seq<Frame>, e: Event): seq<Frame> {
    if ClarifyOutcome(frames, e).Added? then Append(frames, ClarificationFrame(e)) else frames
  }

  function AfterPropose(frames: seq<Frame>, sub: Submission, admissible: bool): seq<Frame> {
    if ProposeOutcome(frames, sub, admissible).Added? then
      var s := Decode(frames).value.sessions[sub.sessionId];
      Append(Append(frames, ClarificationFrame(ProposingEvent(s, sub))), ProposalFrame(ProposedProposal(sub)))
    else frames
  }

  function AfterConfirm(frames: seq<Frame>, c: Confirmation, admissible: bool): seq<Frame> {
    if ConfirmOutcome(frames, c, admissible).Added? then ConfirmWritten(frames, c, admissible) else frames
  }

  // ----- The store and its clients

  class IntentProposalStore {
    var frames: seq<Frame>

    constructor ()
      ensures frames == []
    { frames := []; }

    method Put(p: Proposal) returns (outcome: Outcome)
      modifies this
      ensures outcome == PutOutcome(old(frames), p) && frames == AfterPut(old(frames), p)
    {
      var state := DecodeLedger(frames);
      if !ValidProposal(p) || state.None? {
        return Invalid;
      }
      if p.id in state.value.proposals {
        return if state.value.proposals[p.id] == p then Duplicate else Invalid;
      }
      frames := Append(frames, ProposalFrame(p));
      return Added;
    }

    method Decide(d: Decision) returns (outcome: Outcome)
      modifies this
      ensures outcome == DecideOutcome(old(frames), d) && frames == AfterDecide(old(frames), d)
    {
      var state := DecodeLedger(frames);
      if !ValidDecision(d) || state.None? {
        return Invalid;
      }
      var proposal := Lookup(state.value.proposals, d.content.proposalId);
      if proposal.None? || IsClarification(proposal.value) || !DecisionNames(d, proposal.value) {
        return Invalid;
      }
      var existing := Lookup(state.value.decisions, d.content.proposalId);
      if existing.Some? {
        return if existing.value == d then Duplicate else Invalid;
      }
      frames := Append(frames, DecisionFrame(d));
      return Added;
    }

    method AppendClarification(e: Event) returns (outcome: Outcome)
      modifies this
      ensures outcome == ClarifyOutcome(old(frames), e) && frames == AfterClarify(old(frames), e)
    {
      var state := DecodeLedger(frames);
      if !ValidEvent(e) || state.None? {
        return Invalid;
      }
      var existing := EventsWithId(state.value.events, e.id);
      if existing != [] {
        return if |existing| == 1 && existing[0] == e then Duplicate else Invalid;
      }
      var previous := Lookup(state.value.sessions, e.session.id);
      var previousEvent := LatestOf(state.value.events, e.session.id);
      if !ValidTransition(previous, e, previousEvent) {
        return Invalid;
      }
      frames := Append(frames, ClarificationFrame(e));
      return Added;
    }
  }

  class ClarificationCoordinator {
    const store: IntentProposalStore

    constructor (store: IntentProposalStore)
      ensures this.store == store
    { this.store := store; }

    method Propose(sub: Submission, admissible: bool) returns (outcome: Outcome)
      modifies store
      ensures outcome == ProposeOutcome(old(store.frames), sub, admissible)
      ensures store.frames == AfterPropose(old(store.frames), sub, admissible)
    {
      var state := DecodeLedger(store.frames);
      if state.None? || sub.sessionId !in state.value.sessions {
        return Invalid;
      }
      var session := state.value.sessions[sub.sessionId];
      if !Proposable(session, sub) || !admissible {
        return Invalid;
      }
      var proposal := ProposedProposal(sub);
      if session.status.Proposed? {
        var replay := Lookup(state.value.proposals, proposal.id);
        return if replay == Some(proposal) then Duplicate else Invalid;
      }
      var event := ProposingEvent(session, sub);
      var ledger := store.frames;
      store.frames := ledger + [Frame(|ledger|, ClarificationFrame(event)),
                                Frame(|ledger| + 1, ProposalFrame(proposal))];
      assert store.frames == AfterPropose(ledger, sub, admissible);
      return Added;
    }
  }

  class ProposalConfirmationService {
    const store: IntentProposalStore

    constructor (store: IntentProposalStore)
      ensures this.store == store
    { this.store := store; }

    /** The ledger part of `_authenticate_applied`. */
    method Authenticate(proposal: Proposal, closing: Event) returns (ok: bool)
      ensures ok == ReadsBack(store.frames, proposal, closing)
    {
      var state := DecodeLedger(store.frames);
      if state.None? || Lookup(state.value.proposals, proposal.id) != Some(proposal) {
        return false;
      }
      var sid := closing.session.id;
      return ClosingsOf(state.value.events, sid) == [closing] && LatestOf(state.value.events, sid) == Some(closing);
    }

    method Confirm(c: Confirmation, admissible: bool) returns (outcome: Outcome)
      modifies store
      ensures outcome == ConfirmOutcome(old(store.frames), c, admissible)
      ensures store.frames == AfterConfirm(old(store.frames), c, admissible)
    {
      var state := DecodeLedger(store.frames);
      if state.None? || c.proposalId !in state.value.proposals {
        return Invalid;
      }
      var proposal := state.value.proposals[c.proposalId];
      if !IsClarification(proposal) || !admissible || c.at < proposal.content.proposedAt || c.actor !in c.actorAliases {
        return Invalid;
      }
      if c.proposalId in state.value.decisions {
        return Duplicate;
      }
      var session := Lookup(state.value.sessions, proposal.content.clarification.value.sessionId);
      if session.None? || !session.value.status.Proposed? {
        return Invalid;
      }
      var decision := ConfirmedDecision(proposal, c);
      var closing := ClosingEvent(session.value, proposal, c);
      var ledger := store.frames;
      store.frames := ledger + [Frame(|ledger|, DecisionFrame(decision)),
                                Frame(|ledger| + 1, ClarificationFrame(closing))];
      assert store.frames == ConfirmWritten(ledger, c, admissible);
      var authenticated := Authenticate(proposal, closing);
      if !authenticated {
        store.frames := ledger;
        return Invalid;
      }
      return Added;
    }
  }

  // ----- Every writer against the decoder

  /** Decoding one more frame, seen from a decodable ledger. */
  lemma DecodeAppend(frames: seq<Frame>, p: Payload)
    requires Decode(frames).Some?
    ensures Run(Append(frames, p)) == Step(Decode(frames).value, Frame(|frames|, p), |frames|)
  {}

  /** One more accepted frame. */
  lemma DecodeOne(frames: seq<Frame>, p: Payload, st': LedgerState)
    requires Decode(frames).Some? && Step(Decode(frames).value, Frame(|frames|, p), |frames|) == Some(st')
    ensures Decode(Append(frames, p)) == if st'.pending.None? && DecidedAreClosed(st') then Some(st') else None
  {}

  /** Two more frames; the state between them need not be decodable. */
  lemma DecodeTwo(frames: seq<Frame>, p: Payload, q: Payload, mid: LedgerState)
    requires Decode(frames).Some? && Step(Decode(frames).value, Frame(|frames|, p), |frames|) == Some(mid)
    ensures Decode(Append(Append(frames, p), q)) ==
            match Step(mid, Frame(|frames| + 1, q), |frames| + 1)
            case None => None
            case Some(st') => if st'.pending.None? && DecidedAreClosed(st') then Some(st') else None
  {
    DecodeAppend(frames, p);
    RunSnoc(Append(frames, p), Frame(|frames| + 1, q));
  }

  lemma StillClosed(st: LedgerState, st': LedgerState)
    requires DecidedAreClosed(st) && SessionsInv(st)
    requires st'.sessions == st.sessions && st'.latest == st.latest
    requires forall pid :: pid in st'.proposals && IsClarification(st'.proposals[pid]) && pid in st'.decisions ==>
               && pid in st.proposals && pid in st.decisions
               && st'.proposals[pid] == st.proposals[pid] && st'.decisions[pid] == st.decisions[pid]
    ensures DecidedAreClosed(st')
  {}

  /** `put` keeps the ledger decodable exactly for plain proposals: an added
      clarification proposal always makes it unreadable. */
  lemma PutKeepsLedger(frames: seq<Frame>, p: Proposal)
    requires PutOutcome(frames, p).Added?
    ensures Decode(AfterPut(frames, p)).Some? <==> !IsClarification(p)
    ensures !IsClarification(p) ==>
              var st := Decode(frames).value;
              Decode(AfterPut(frames, p)) == Some(st.(proposals := st.proposals[p.id := p], order := st.order + [p.id]))
  {
    var st := Decode(frames).value;
    if IsClarification(p) {
      DecodeAppend(frames, ProposalFrame(p));
      RunInv(frames);
      NeverAdmitted(st, p);
    } else {
      RunSessions(frames);
      StillClosed(st, StepProposal(st, p).value);
      DecodeOne(frames, ProposalFrame(p), StepProposal(st, p).value);
    }
  }

  /** With no proposal pending, every proposed session already has its proposal. */
  lemma NeverAdmitted(st: LedgerState, p: Proposal)
    requires SessionsInv(st) && LeftOpenInv(st) && st.pending.None? && IsClarification(p)
    ensures !AdmitsProposal(st, p)
  {}

  /** `decide` always keeps the ledger decodable and records its decision. */
  lemma DecideKeepsLedger(frames: seq<Frame>, d: Decision)
    requires DecideOutcome(frames, d).Added?
    ensures var st := Decode(frames).value;
            Decode(AfterDecide(frames, d)) == Some(st.(decisions := st.decisions[d.content.proposalId := d]))
  {}

  lemma LatestOfSnoc(events: seq<Event>, e: Event, sid: SessionId)
    ensures LatestOf(events + [e], sid) == if e.session.id == sid then Some(e) else LatestOf(events, sid)
  {}

  /** Searching the event list backwards finds the decoder's latest event. */
  lemma {:induction false} LatestOfRun(frames: seq<Frame>, sid: SessionId)
    requires Run(frames).Some?
    ensures LatestOf(Run(frames).value.events, sid) == Lookup(Run(frames).value.latest, sid)
  {
    if frames != [] {
      LatestOfRun(frames[..|frames| - 1], sid);
      var p := Last(frames).payload;
      if p.ClarificationFrame? {
        LatestOfSnoc(Run(frames[..|frames| - 1]).value.events, p.event, sid);
      }
    }
  }

  ghost predicate StandsAlone(kind: EventKind) { kind.Opening? || kind.Answering? || kind.Conflicting? }

  /** From a decodable ledger no closing event can be bound: its decision is not there yet. */
  lemma ClosingNeedsDecision(st: LedgerState, e: Event)
    requires Inv(st) && DecidedAreClosed(st) && e.kind.Closing?
    requires ValidTransition(Lookup(st.sessions, e.session.id), e, Lookup(st.latest, e.session.id))
    ensures !ClosureBound(st, e)
  {}

  /** The state an accepted stand-alone event leads to. */
  function Recorded(st: LedgerState, e: Event): LedgerState {
    st.(events := st.events + [e], sessions := st.sessions[e.session.id := e.session],
        latest := st.latest[e.session.id := e])
  }

  lemma StandaloneAt(st: LedgerState, e: Event)
    requires SessionsInv(st) && DecidedAreClosed(st) && st.pending.None? && StandsAlone(e.kind)
    requires ValidTransition(Lookup(st.sessions, e.session.id), e, Lookup(st.latest, e.session.id))
    ensures StepEvent(st, e) == Some(Recorded(st, e)) && DecidedAreClosed(Recorded(st, e))
  {}

  /** What an accepted event meets: the decoder's own view of its session. */
  lemma ClarifyTransition(frames: seq<Frame>, e: Event)
    requires ClarifyOutcome(frames, e).Added?
    ensures var st := Decode(frames).value;
            && ValidEvent(e)
            && ValidTransition(Lookup(st.sessions, e.session.id), e, Lookup(st.latest, e.session.id))
  {
    LatestOfRun(frames, e.session.id);
  }

  lemma StandaloneStep(frames: seq<Frame>, e: Event)
    requires ClarifyOutcome(frames, e).Added? && StandsAlone(e.kind)
    ensures StepEvent(Decode(frames).value, e) == Some(Recorded(Decode(frames).value, e))
    ensures DecidedAreClosed(Recorded(Decode(frames).value, e))
  {
    ClarifyTransition(frames, e);
    RunSessions(frames);
    StandaloneAt(Decode(frames).value, e);
  }

  lemma RunSessions(frames: seq<Frame>)
    requires Run(frames).Some?
    ensures SessionsInv(Run(frames).value)
  {
    RunInv(frames);
  }

  /** `append_clarification` keeps the ledger decodable exactly for opened, answered and
      conflicted events; a proposed or closed event on its own always makes it unreadable. */
  lemma ClarifyKeepsLedger(frames: seq<Frame>, e: Event)
    requires ClarifyOutcome(frames, e).Added?
    ensures Decode(AfterClarify(frames, e)).Some? <==> StandsAlone(e.kind)
    ensures StandsAlone(e.kind) ==> Decode(AfterClarify(frames, e)) == Some(Recorded(Decode(frames).value, e))
  {
    if StandsAlone(e.kind) {
      StandaloneStep(frames, e);
      DecodeOne(frames, ClarificationFrame(e), Recorded(Decode(frames).value, e));
    } else {
      LoneEventRejected(frames, e);
    }
  }

  lemma LoneEventRejected(frames: seq<Frame>, e: Event)
    requires ClarifyOutcome(frames, e).Added? && !StandsAlone(e.kind)
    ensures Decode(AfterClarify(frames, e)).None?
  {
    DecodeAppend(frames, ClarificationFrame(e));
    LoneStep(frames, e);
  }

  /** Alone, a closed event fails and a proposed event leaves its proposal pending. */
  lemma LoneStep(frames: seq<Frame>, e: Event)
    requires ClarifyOutcome(frames, e).Added? && !StandsAlone(e.kind)
    ensures var next := StepEvent(Decode(frames).value, e); next.None? || next.value.pending.Some?
  {
    if e.kind.Closing? {
      RunInv(frames);
      ClarifyTransition(frames, e);
      ClosingNeedsDecision(Decode(frames).value, e);
    }
  }

  // ----- The frames that make a ledger unreadable are accepted

  /** `put` accepts a clarification proposal on an empty ledger. */
  lemma LoneProposalAccepted()
    ensures PutOutcome([], LedgerHistory.PROPOSAL).Added?
    ensures Decode(AfterPut([], LedgerHistory.PROPOSAL)).None?
  {
    PutKeepsLedger([], LedgerHistory.PROPOSAL);
  }

  lemma {:induction false} NoneWithId(events: seq<Event>, id: EventId)
    requires forall i :: 0 <= i < |events| ==> events[i].id != id
    ensures EventsWithId(events, id) == []
  {
    if events != [] { NoneWithId(events[1..], id); }
  }

  /** An event not recorded yet that makes a valid transition is accepted. */
  lemma NewEventAccepted(frames: seq<Frame>, e: Event)
    requires Decode(frames).Some? && ValidEvent(e)
    requires forall i :: 0 <= i < |Decode(frames).value.events| ==> Decode(frames).value.events[i].id != e.id
    requires var st := Decode(frames).value;
             ValidTransition(Lookup(st.sessions, e.session.id), e, Lookup(st.latest, e.session.id))
    ensures ClarifyOutcome(frames, e).Added?
  {
    NoneWithId(Decode(frames).value.events, e.id);
    LatestOfRun(frames, e.session.id);
  }

  /** `append_clarification` accepts a proposed event without its proposal. */
  lemma LoneProposingAccepted()
    ensures ClarifyOutcome(LedgerHistory.CONFLICTED_LEDGER, LedgerHistory.PROPOSED).Added?
    ensures Decode(AfterClarify(LedgerHistory.CONFLICTED_LEDGER, LedgerHistory.PROPOSED)).None?
  {
    LedgerHistory.ConflictForgotten();
    LedgerHistory.ExampleEventsValid();
    LedgerHistory.ExampleProposing();
    NewEventAccepted(LedgerHistory.CONFLICTED_LEDGER, LedgerHistory.PROPOSED);
    LoneEventRejected(LedgerHistory.CONFLICTED_LEDGER, LedgerHistory.PROPOSED);
  }

  const CLOSED: Event :=
    ClosingEvent(LedgerHistory.PROPOSED.session, LedgerHistory.PROPOSAL,
                 Confirmation(LedgerHistory.PROPOSAL.id, "human", 4, ["human"], "activation", ""))

  /** It accepts a closed event without its decision. */
  lemma LoneClosingAccepted()
    ensures ClarifyOutcome(LedgerHistory.FORGETFUL_LEDGER, CLOSED).Added?
    ensures Decode(AfterClarify(LedgerHistory.FORGETFUL_LEDGER, CLOSED)).None?
  {
    LedgerHistory.ConflictForgotten();
    ClosedFits();
    NewEventAccepted(LedgerHistory.FORGETFUL_LEDGER, CLOSED);
    LoneEventRejected(LedgerHistory.FORGETFUL_LEDGER, CLOSED);
  }

  lemma ClosedFits()
    ensures ValidEvent(CLOSED) && CLOSED.session.id == LedgerHistory.SID
    ensures ValidTransition(Some(LedgerHistory.PROPOSED.session), CLOSED, Some(LedgerHistory.PROPOSED))
  {
    LedgerHistory.ExampleEventsValid();
    var c := Confirmation(LedgerHistory.PROPOSAL.id, "human", 4, ["human"], "activation", "");
    ClosingValid(LedgerHistory.PROPOSED.session, LedgerHistory.PROPOSAL, c);
    ClosingTransition(LedgerHistory.PROPOSED.session, LedgerHistory.PROPOSED, LedgerHistory.PROPOSAL, c);
  }

  // ----- The two-frame groups

  /** A proposable open session turns into a valid proposed one. */
  lemma ProposingSteps(st: LedgerState, sub: Submission)
    requires SessionsInv(st) && EventsValid(st) && LastAnswerInv(st)
    requires sub.sessionId in st.sessions && st.sessions[sub.sessionId].status.Open?
    requires Proposable(st.sessions[sub.sessionId], sub)
    ensures var e := ProposingEvent(st.sessions[sub.sessionId], sub);
            && ValidEvent(e)
            && StepEvent(st, e) == Some(Recorded(st, e).(pending := Some((ProposedProposal(sub).id, sub.sessionId))))
  {
    StoredSessionValid(st, sub.sessionId);
    ProposingValid(st.sessions[sub.sessionId], sub);
    ProposingTransition(st.sessions[sub.sessionId], st.latest[sub.sessionId], sub);
  }

  lemma ProposingTransition(s: Session, latest: Event, sub: Submission)
    requires Proposable(s, sub) && s.status.Open? && latest.session == s &&
              RequiredAnswered(ProposingEvent(s, sub).session)
    requires latest.at == Last(s.answers).answeredAt && latest.at >= s.core.openedAt
    ensures ValidTransition(Some(s), ProposingEvent(s, sub), Some(latest))
  {}

  lemma StoredSessionValid(st: LedgerState, sid: SessionId)
    requires SessionsInv(st) && EventsValid(st) && sid in st.sessions
    ensures ValidSession(st.sessions[sid])
  {}

  lemma ProposingValid(s: Session, sub: Submission)
    requires ValidSession(s) && RequiredAnswered(s)
    ensures ValidEvent(ProposingEvent(s, sub)) && RequiredAnswered(ProposingEvent(s, sub).session)
  {}

  /** No stored proposal can already carry the content of a proposal for an open session. */
  lemma ProposalIsNew(st: LedgerState, sub: Submission)
    requires SessionsInv(st) && ProposalsInv(st) && BindingsInv(st)
    requires sub.sessionId in st.sessions && st.sessions[sub.sessionId].status.Open?
    ensures ProposedProposal(sub).id !in st.proposals
  {}

  function ProposedState(st: LedgerState, e: Event, p: Proposal): LedgerState {
    Recorded(st, e).(proposals := st.proposals[p.id := p], order := st.order + [p.id])
  }

  lemma ProposedStillClosed(st: LedgerState, e: Event, p: Proposal)
    requires SessionsInv(st) && BindingsInv(st) && ProposalsInv(st) && DecidedAreClosed(st)
    requires e.session.id in st.sessions && st.sessions[e.session.id].status.Open? && p.id !in st.proposals
    ensures DecidedAreClosed(ProposedState(st, e, p))
  {}

  lemma ProposeFacts(frames: seq<Frame>, sub: Submission, admissible: bool)
    requires ProposeOutcome(frames, sub, admissible).Added?
    ensures var st, p := Decode(frames).value, ProposedProposal(sub);
            var e := ProposingEvent(st.sessions[sub.sessionId], sub);
            && ValidEvent(e)
            && StepEvent(st, e) == Some(Recorded(st, e).(pending := Some((p.id, sub.sessionId))))
            && e.session.id == sub.sessionId
            && p.id !in st.proposals
            && DecidedAreClosed(ProposedState(st, e, p))
  {
    var st := Decode(frames).value;
    RunInv(frames);
    ProposingSteps(st, sub);
    ProposalIsNew(st, sub);
    ProposedStillClosed(st, ProposingEvent(st.sessions[sub.sessionId], sub), ProposedProposal(sub));
  }

  /** The pair [proposed event, proposal] always keeps the ledger decodable. */
  lemma ProposeKeepsLedger(frames: seq<Frame>, sub: Submission, admissible: bool)
    requires ProposeOutcome(frames, sub, admissible).Added?
    ensures var st := Decode(frames).value;
            Decode(AfterPropose(frames, sub, admissible)) ==
            Some(ProposedState(st, ProposingEvent(st.sessions[sub.sessionId], sub), ProposedProposal(sub)))
  {
    var st, p := Decode(frames).value, ProposedProposal(sub);
    var e := ProposingEvent(st.sessions[sub.sessionId], sub);
    ProposeFacts(frames, sub, admissible);
    ProposedNext(st, e, sub, |frames| + 1);
    DecodeTwo(frames, ClarificationFrame(e), ProposalFrame(p), StepEvent(st, e).value);
  }

  /** The awaited proposal settles what the proposed event left pending. */
  lemma ProposedNext(st: LedgerState, e: Event, sub: Submission, n: nat)
    requires sub.sessionId in st.sessions && Proposable(st.sessions[sub.sessionId], sub) && st.pending.None?
    requires e == ProposingEvent(st.sessions[sub.sessionId], sub) && e.session.id == sub.sessionId
    requires ProposedProposal(sub).id !in st.proposals
    ensures var p := ProposedProposal(sub);
            Step(Recorded(st, e).(pending := Some((p.id, sub.sessionId))), Frame(n, ProposalFrame(p)), n)
            == Some(ProposedState(st, e, p))
  {}

  function ConfirmedState(st: LedgerState, d: Decision, e: Event): LedgerState {
    Recorded(st, e).(decisions := st.decisions[d.content.proposalId := d])
  }

  lemma ConfirmDecisionStep(st: LedgerState, c: Confirmation)
    requires ProposalsInv(st) && ConfirmReady(st, c)
    ensures ValidDecision(ConfirmDecisionOf(st, c))
    ensures StepDecision(st, ConfirmDecisionOf(st, c)) ==
            Some(st.(decisions := st.decisions[c.proposalId := ConfirmDecisionOf(st, c)]))
  {}

  lemma ClosingValid(s: Session, p: Proposal, c: Confirmation)
    requires ValidSession(s)
    ensures ValidEvent(ClosingEvent(s, p, c))
  {}

  lemma ConfirmClosingValid(st: LedgerState, c: Confirmation)
    requires SessionsInv(st) && EventsValid(st) && ConfirmReady(st, c)
    ensures ConfirmSession(st, c).id in st.latest && ValidEvent(ConfirmClosing(st, c))
  {
    StoredSessionValid(st, st.proposals[c.proposalId].content.clarification.value.sessionId);
    ClosingValid(ConfirmSession(st, c), st.proposals[c.proposalId], c);
  }

  lemma ConfirmClosingStep(st: LedgerState, c: Confirmation)
    requires SessionsInv(st) && ProposalsInv(st) && LastAnswerInv(st) && ConfirmReady(st, c)
    requires ConfirmSession(st, c).id in st.latest
    ensures var decided := st.(decisions := st.decisions[c.proposalId := ConfirmDecisionOf(st, c)]);
            StepEvent(decided, ConfirmClosing(st, c)) ==
            if c.at >= st.latest[ConfirmSession(st, c).id].at
            then Some(ConfirmedState(st, ConfirmDecisionOf(st, c), ConfirmClosing(st, c))) else None
  {
    ClosingTransition(ConfirmSession(st, c), st.latest[ConfirmSession(st, c).id], st.proposals[c.proposalId], c);
  }

  lemma ClosingTransition(s: Session, latest: Event, p: Proposal, c: Confirmation)
    requires s.status.Proposed? && latest.session == s && latest.at >= s.core.openedAt
    ensures ValidTransition(Some(s), ClosingEvent(s, p, c), Some(latest)) <==> c.at >= latest.at
  {}

  lemma ConfirmedStillClosed(st: LedgerState, c: Confirmation)
    requires SessionsInv(st) && ProposalsInv(st) && BindingsInv(st) && DecidedAreClosed(st) && ConfirmReady(st, c)
    ensures DecidedAreClosed(ConfirmedState(st, ConfirmDecisionOf(st, c), ConfirmClosing(st, c)))
  {}

  lemma ConfirmFacts(frames: seq<Frame>, c: Confirmation, admissible: bool)
    requires ConfirmAdmitted(frames, c, admissible)
    ensures var st := Decode(frames).value;
            && ConfirmReady(st, c)
            && ConfirmSession(st, c).id in st.latest
            && ValidDecision(ConfirmDecisionOf(st, c)) && ValidEvent(ConfirmClosing(st, c))
            && var d, e := ConfirmDecisionOf(st, c), ConfirmClosing(st, c);
            && StepDecision(st, d) == Some(st.(decisions := st.decisions[c.proposalId := d]))
            && StepEvent(st.(decisions := st.decisions[c.proposalId := d]), e) ==
                 (if c.at >= st.latest[ConfirmSession(st, c).id].at then Some(ConfirmedState(st, d, e)) else None)
            && DecidedAreClosed(ConfirmedState(st, d, e))
  {
    var st := Decode(frames).value;
    RunInv(frames);
    ConfirmDecisionStep(st, c);
    ConfirmClosingValid(st, c);
    ConfirmClosingStep(st, c);
    ConfirmedStillClosed(st, c);
  }

  /** The written pair decodes exactly when it is not earlier than the session's latest event. */
  lemma WrittenDecodes(frames: seq<Frame>, c: Confirmation, admissible: bool)
    requires ConfirmAdmitted(frames, c, admissible)
    ensures var st := Decode(frames).value;
            && ConfirmSession(st, c).id in st.latest
            && Decode(ConfirmWritten(frames, c, admissible)) ==
               if c.at >= st.latest[ConfirmSession(st, c).id].at
               then Some(ConfirmedState(st, ConfirmDecisionOf(st, c), ConfirmClosing(st, c))) else None
  {
    ConfirmFacts(frames, c, admissible);
    var st := Decode(frames).value;
    var d, e := ConfirmDecisionOf(st, c), ConfirmClosing(st, c);
    DecodeTwo(frames, DecisionFrame(d), ClarificationFrame(e), StepDecision(st, d).value);
  }

  ghost predicate ClosingsClosed(st: LedgerState) {
    forall i :: 0 <= i < |st.events| && st.events[i].kind.Closing? ==>
      st.events[i].session.id in st.sessions && st.sessions[st.events[i].session.id].status.Closed?
  }

  /** A session with a closing event stays closed. */
  lemma {:induction false} ClosingsStay(frames: seq<Frame>)
    requires Run(frames).Some?
    ensures ClosingsClosed(Run(frames).value)
  {
    if frames != [] {
      var init := frames[..|frames| - 1];
      ClosingsStay(init);
      RunSessions(init);
      ClosingsStep(Run(init).value, Last(frames), |init|);
    }
  }

  lemma ClosingsStep(st: LedgerState, f: Frame, n: nat)
    requires ClosingsClosed(st) && SessionsInv(st) && Step(st, f, n).Some?
    ensures ClosingsClosed(Step(st, f, n).value)
  {
    if f.payload.ClarificationFrame? { ClosingsEvent(st, f.payload.event); }
  }

  lemma ClosingsEvent(st: LedgerState, e: Event)
    requires ClosingsClosed(st) && SessionsInv(st) && ValidEvent(e)
    requires ValidTransition(Lookup(st.sessions, e.session.id), e, Lookup(st.latest, e.session.id))
    ensures ClosingsClosed(Recorded(st, e))
  {
    if e.session.id in st.latest { LedgerHistory.TransitionAdvances(st.latest[e.session.id], e); }
  }

  lemma {:induction false} NoClosings(events: seq<Event>, sid: SessionId)
    requires forall i :: 0 <= i < |events| && events[i].kind.Closing? ==> events[i].session.id != sid
    ensures ClosingsOf(events, sid) == []
  {
    if events != [] { NoClosings(events[..|events| - 1], sid); }
  }

  lemma ConfirmReadsBack(frames: seq<Frame>, c: Confirmation, admissible: bool)
    requires ConfirmAdmitted(frames, c, admissible)
    requires var st := Decode(frames).value;
             Decode(ConfirmWritten(frames, c, admissible)) ==
             Some(ConfirmedState(st, ConfirmDecisionOf(st, c), ConfirmClosing(st, c)))
    ensures var st := Decode(frames).value;
            ReadsBack(ConfirmWritten(frames, c, admissible), st.proposals[c.proposalId], ConfirmClosing(st, c))
  {
    var st := Decode(frames).value;
    var e := ConfirmClosing(st, c);
    ConfirmIds(frames, c, admissible);
    ClosingsStay(frames);
    NoClosings(st.events, e.session.id);
    assert (st.events + [e])[..|st.events|] == st.events;
    LatestOfSnoc(st.events, e, e.session.id);
  }

  lemma ConfirmIds(frames: seq<Frame>, c: Confirmation, admissible: bool)
    requires ConfirmAdmitted(frames, c, admissible)
    ensures var st := Decode(frames).value;
            && st.proposals[c.proposalId].id == c.proposalId
            && ConfirmClosing(st, c).session.id in st.sessions
            && st.sessions[ConfirmClosing(st, c).session.id].status.Proposed?
  {
    RunInv(frames);
  }

  /** A confirmation that passes its guards is accepted exactly when it is not earlier than
      the session's latest event; otherwise the ledger stays as it was. */
  lemma ConfirmAcceptedExactly(frames: seq<Frame>, c: Confirmation, admissible: bool)
    requires ConfirmAdmitted(frames, c, admissible)
    ensures var st := Decode(frames).value;
            && ConfirmSession(st, c).id in st.latest
            && (ConfirmOutcome(frames, c, admissible).Added? <==> c.at >= st.latest[ConfirmSession(st, c).id].at)
    ensures !ConfirmOutcome(frames, c, admissible).Added? ==> AfterConfirm(frames, c, admissible) == frames
  {
    WrittenDecodes(frames, c, admissible);
    var st := Decode(frames).value;
    if c.at >= st.latest[ConfirmSession(st, c).id].at { ConfirmReadsBack(frames, c, admissible); }
  }

  /** Every accepted confirmation leaves a decodable ledger in which the session is closed
      by the recorded decision, and everything else is as before. */
  lemma ConfirmKeepsLedger(frames: seq<Frame>, c: Confirmation, admissible: bool)
    requires ConfirmOutcome(frames, c, admissible).Added?
    ensures var st := Decode(frames).value; var d, e := ConfirmDecisionOf(st, c), ConfirmClosing(st, c);
            && Decode(AfterConfirm(frames, c, admissible)) == Some(ConfirmedState(st, d, e))
            && Lookup(ConfirmedState(st, d, e).sessions, e.session.id) == Some(e.session) && e.session.status.Closed?
            && Lookup(ConfirmedState(st, d, e).decisions, c.proposalId) == Some(d)
  {
    WrittenDecodes(frames, c, admissible);
    ConfirmIds(frames, c, admissible);
  }

  // ----- Whole runs

  datatype Call =
    | PutCall(p: Proposal)
    | DecideCall(d: Decision)
    | ClarifyCall(e: Event)
    | ProposeCall(sub: Submission, admissible: bool)
    | ConfirmCall(c: Confirmation, admissible: bool)

  /** The calls the workflow makes: clarification proposals and proposed or closed
      events are only written in pairs. */
  ghost predicate Governed(call: Call) {
    && (call.PutCall? ==> !IsClarification(call.p))
    && (call.ClarifyCall? ==> StandsAlone(call.e.kind))
  }

  function AfterCall(frames: seq<Frame>, call: Call): seq<Frame> {
    match call
    case PutCall(p) => AfterPut(frames, p)
    case DecideCall(d) => AfterDecide(frames, d)
    case ClarifyCall(e) => AfterClarify(frames, e)
    case ProposeCall(sub, admissible) => AfterPropose(frames, sub, admissible)
    case ConfirmCall(c, admissible) => AfterConfirm(frames, c, admissible)
  }

  function AfterAll(calls: seq<Call>): seq<Frame> {
    if calls == [] then [] else AfterCall(AfterAll(calls[..|calls| - 1]), Last(calls))
  }

  /** A proposed session's event and proposal carry the same time. */
  ghost predicate Coherent(st: LedgerState) {
    forall sid :: sid in st.latest && st.latest[sid].session.status.Proposed? ==>
      && st.latest[sid].proposalId.Some?
      && st.latest[sid].proposalId.value in st.proposals
      && st.latest[sid].at == st.proposals[st.latest[sid].proposalId.value].content.proposedAt
  }

  /** No session loses a recorded conflict. */
  ghost predicate ConflictsGrow(st: LedgerState, st': LedgerState) {
    forall sid :: sid in st.sessions ==>
        sid in st'.sessions && st.sessions[sid].conflicts <= st'.sessions[sid].conflicts
  }

  /** What every governed call keeps. */
  ghost predicate Kept(frames: seq<Frame>, frames': seq<Frame>) {
    && Decode(frames).Some? && Decode(frames').Some?
    && ConflictsGrow(Decode(frames).value, Decode(frames').value)
    && (Coherent(Decode(frames).value) ==> Coherent(Decode(frames').value))
  }

  lemma PutCallSafe(frames: seq<Frame>, p: Proposal)
    requires Decode(frames).Some? && !IsClarification(p)
    ensures Kept(frames, AfterPut(frames, p))
  {
    if PutOutcome(frames, p).Added? { PutKeepsLedger(frames, p); }
  }

  lemma DecideCallSafe(frames: seq<Frame>, d: Decision)
    requires Decode(frames).Some?
    ensures Kept(frames, AfterDecide(frames, d))
  {
    if DecideOutcome(frames, d).Added? { DecideKeepsLedger(frames, d); }
  }

  lemma RecordedKept(st: LedgerState, e: Event)
    requires SessionsInv(st) && e.session.status.Open?
    requires e.session.id in st.sessions ==> st.sessions[e.session.id].conflicts <= e.session.conflicts
    ensures ConflictsGrow(st, Recorded(st, e))
    ensures Coherent(st) ==> Coherent(Recorded(st, e))
  {}

  /** A stand-alone event leaves its session open and drops no conflict. */
  lemma StandsOpen(previous: Option<Session>, e: Event, latest: Option<Event>)
    requires ValidEvent(e) && StandsAlone(e.kind) && ValidTransition(previous, e, latest)
    ensures e.session.status.Open? && (previous.Some? ==> previous.value.conflicts <= e.session.conflicts)
  {}

  lemma ClarifyCallSafe(frames: seq<Frame>, e: Event)
    requires Decode(frames).Some? && StandsAlone(e.kind)
    ensures Kept(frames, AfterClarify(frames, e))
  {
    if ClarifyOutcome(frames, e).Added? {
      ClarifyKeepsLedger(frames, e);
      ClarifyTransition(frames, e);
      RunSessions(frames);
      var st := Decode(frames).value;
      StandsOpen(Lookup(st.sessions, e.session.id), e, Lookup(st.latest, e.session.id));
      RecordedKept(st, e);
    }
  }

  lemma ProposedKept(st: LedgerState, e: Event, p: Proposal)
    requires SessionsInv(st) && e.session.id in st.sessions &&
              e.session.conflicts == st.sessions[e.session.id].conflicts
    requires p.id !in st.proposals && e.proposalId == Some(p.id) && e.at == p.content.proposedAt
    ensures ConflictsGrow(st, ProposedState(st, e, p))
    ensures Coherent(st) ==> Coherent(ProposedState(st, e, p))
  {}

  lemma ProposeCallSafe(frames: seq<Frame>, sub: Submission, admissible: bool)
    requires Decode(frames).Some?
    ensures Kept(frames, AfterPropose(frames, sub, admissible))
  {
    if ProposeOutcome(frames, sub, admissible).Added? {
      ProposeKeepsLedger(frames, sub, admissible);
      ProposeFacts(frames, sub, admissible);
      RunSessions(frames);
      var st := Decode(frames).value;
      ProposedKept(st, ProposingEvent(st.sessions[sub.sessionId], sub), ProposedProposal(sub));
    }
  }

  lemma ConfirmedKept(st: LedgerState, d: Decision, e: Event)
    requires SessionsInv(st) && e.session.id in st.sessions &&
              e.session.conflicts == st.sessions[e.session.id].conflicts
    requires e.session.status.Closed?
    ensures ConflictsGrow(st, ConfirmedState(st, d, e))
    ensures Coherent(st) ==> Coherent(ConfirmedState(st, d, e))
  {}

  lemma ConfirmCallSafe(frames: seq<Frame>, c: Confirmation, admissible: bool)
    requires Decode(frames).Some?
    ensures Kept(frames, AfterConfirm(frames, c, admissible))
  {
    if ConfirmOutcome(frames, c, admissible).Added? {
      ConfirmKeepsLedger(frames, c, admissible);
      ConfirmIds(frames, c, admissible);
      RunSessions(frames);
      var st := Decode(frames).value;
      ConfirmedKept(st, ConfirmDecisionOf(st, c), ConfirmClosing(st, c));
    }
  }

  /** From any decodable ledger every governed call, accepted or refused, leaves a decodable
      ledger and loses no conflict. */
  lemma CallSafe(frames: seq<Frame>, call: Call)
    requires Decode(frames).Some? && Governed(call)
    ensures Kept(frames, AfterCall(frames, call))
  {
    match call
    case PutCall(p) => PutCallSafe(frames, p);
    case DecideCall(d) => DecideCallSafe(frames, d);
    case ClarifyCall(e) => ClarifyCallSafe(frames, e);
    case ProposeCall(sub, admissible) => ProposeCallSafe(frames, sub, admissible);
    case ConfirmCall(c, admissible) => ConfirmCallSafe(frames, c, admissible);
  }

  /** Every run of governed calls from an empty ledger ends in a decodable ledger. */
  lemma {:induction false} EveryRunDecodes(calls: seq<Call>)
    requires forall i :: 0 <= i < |calls| ==> Governed(calls[i])
    ensures Decode(AfterAll(calls)).Some? && Coherent(Decode(AfterAll(calls)).value)
  {
    if calls != [] {
      EveryRunDecodes(calls[..|calls| - 1]);
      CallSafe(AfterAll(calls[..|calls| - 1]), Last(calls));
    }
  }

  /** In a ledger the writers produced, no confirmation that passes its guards is refused. */
  lemma ConfirmNeverRefused(calls: seq<Call>, c: Confirmation, admissible: bool)
    requires forall i :: 0 <= i < |calls| ==> Governed(calls[i])
    requires ConfirmAdmitted(AfterAll(calls), c, admissible)
    ensures ConfirmOutcome(AfterAll(calls), c, admissible).Added?
  {
    EveryRunDecodes(calls);
    ConfirmAcceptedExactly(AfterAll(calls), c, admissible);
    ConfirmOnTime(AfterAll(calls), c, admissible);
  }

  lemma ConfirmOnTime(frames: seq<Frame>, c: Confirmation, admissible: bool)
    requires ConfirmAdmitted(frames, c, admissible) && Coherent(Decode(frames).value)
    ensures var st := Decode(frames).value;
            ConfirmSession(st, c).id in st.latest && c.at >= st.latest[ConfirmSession(st, c).id].at
  {
    RunInv(frames);
  }
}
