/** The frame-by-frame decoder of the proposal ledger
    (intent_workflow/proposal_store.py). Frames are parsed records; the
    canonical-bytes comparison of each line is not modelled. */
module ProposalLedger {
  import opened Common
  import opened IntentModels

  datatype Payload =
    | ProposalFrame(proposal: Proposal)
    | DecisionFrame(decision: Decision)
    | ClarificationFrame(event: Event)

  datatype Frame = Frame(sequence: nat, payload: Payload)

  /** Decoder variables. `order` is the insertion order of the `proposals` dictionary. */
  datatype LedgerState = LedgerState(
    proposals: map<ProposalId, Proposal>,
    order: seq<ProposalId>,
    decisions: map<ProposalId, Decision>,
    events: seq<Event>,
    sessions: map<SessionId, Session>,
    latest: map<SessionId, Event>,
    pending: Option<(ProposalId, SessionId)>)

  const EMPTY := LedgerState(map[], [], map[], [], map[], map[], None)

  function Last<T>(s: seq<T>): T requires s != [] { s[|s| - 1] }

  function Lookup<K, V>(m: map<K, V>, k: K): Option<V> { if k in m then Some(m[k]) else None }

  predicate ValidPayload(p: Payload) {
    match p
    case ProposalFrame(proposal) => ValidProposal(proposal)
    case DecisionFrame(decision) => ValidDecision(decision)
    case ClarificationFrame(event) => ValidEvent(event)
  }

  // ----- `_valid_clarification_transition`

  /** The evidence that question i follows. */
  function QuestionPredecessor(core: SessionCore, i: nat): Text
    requires i < |core.questions|
  {
    if i == 0 then core.classificationRef else core.questions[i - 1].evidenceRef
  }

  /** The time that question i may not precede. */
  function NotBefore(core: SessionCore, i: nat): Time
    requires i < |core.questions|
  {
    if i == 0 then core.openedAt else core.questions[i - 1].askedAt
  }

  /** The scan over the questions of a newly opened session. */
  predicate QuestionsChained(core: SessionCore) { forall i :: 0 <= i < |core.questions| ==> QuestionFollows(core, i) }

  /** One turn of the scan. */
  predicate QuestionFollows(core: SessionCore, i: nat)
    requires i < |core.questions|
  {
    && core.questions[i].author == core.openedBy
    && core.questions[i].predecessor == Some(QuestionPredecessor(core, i))
    && core.questions[i].askedAt >= NotBefore(core, i)
  }

  predicate ValidOpening(e: Event) {
    && e.kind.Opening?
    && e.predecessor.None?
    && e.session.answers == []
    && e.session.status.Open?
    && e.actor == e.session.core.openedBy
    && e.at == e.session.core.openedAt
    && QuestionsChained(e.session.core)
  }

  /** The evidence a new answer must follow. */
  function AnswerPredecessor(s: Session): Option<Text> {
    if s.conflicts != [] then Some(Last(s.conflicts).conflictingRef)
    else if s.answers != [] then Some(Last(s.answers).evidenceRef)
    else if s.core.questions != [] then Some(Last(s.core.questions).evidenceRef)
    else None
  }

  function AcceptedAnswer(answers: seq<Answer>, questionId: Text): Option<Answer> {
    if answers == [] then None
    else if answers[0].questionId == questionId then Some(answers[0])
    else AcceptedAnswer(answers[1..], questionId)
  }

  predicate RequiredAnswered(s: Session) {
    forall q :: q in s.core.questions && q.required ==> Answered(s.answers, q.id)
  }

  predicate ValidAnswering(prev: Session, e: Event) {
    var s := e.session;
    && prev.status.Open? && s.status.Open?
    && |s.answers| == |prev.answers| + 1
    && s.answers[..|s.answers| - 1] == prev.answers
    && s.conflicts == prev.conflicts
    && Last(s.answers).actor == e.actor
    && Last(s.answers).answeredAt == e.at
    && Last(s.answers).predecessor == AnswerPredecessor(prev)
  }

  /** A conflict on a session with neither answers nor conflicts indexes an empty
      tuple in the source; it is a rejection here. */
  predicate ValidConflicting(prev: Session, e: Event) {
    var s := e.session;
    && (prev.conflicts != [] || prev.answers != [])
    && prev.status.Open? && s.status.Open?
    && s.answers == prev.answers
    && |s.conflicts| == |prev.conflicts| + 1
    && s.conflicts[..|s.conflicts| - 1] == prev.conflicts
    && var c := Last(s.conflicts);
    && c.actor == e.actor
    && c.observedAt == e.at
    && Some(c.predecessor) == AnswerPredecessor(prev)
    && var accepted := AcceptedAnswer(prev.answers, c.questionId);
    && accepted.Some?
    && c.originalRef == accepted.value.evidenceRef
  }

  predicate ValidProposing(prev: Session, e: Event) {
    var s := e.session;
    && prev.status.Open? && s.status.Proposed?
    && s.answers == prev.answers
    && s.conflicts == []
    && RequiredAnswered(s)
    && e.proposalId.Some?
    && s.answers != []
    && e.actor == Last(s.answers).actor
  }

  predicate ValidClosing(prev: Session, e: Event) {
    var s := e.session;
    && prev.status.Proposed? && s.status.Closed?
    && s.answers == prev.answers
    && s.conflicts == prev.conflicts
    && e.proposalId.Some? && e.decisionId.Some? && e.activation.Some?
  }

  predicate ValidTransition(previous: Option<Session>, e: Event, previousEvent: Option<Event>) {
    match previous
    case None => previousEvent.None? && ValidOpening(e)
    case Some(prev) =>
      && e.predecessor == prev.latestEventId
      && previousEvent.Some?
      && e.at >= previousEvent.value.at
      && prev.id == e.session.id && prev.core == e.session.core
      && e.at >= prev.core.openedAt
      && match e.kind
         case Opening => false
         case Answering => ValidAnswering(prev, e)
         case Conflicting => ValidConflicting(prev, e)
         case Proposing => ValidProposing(prev, e)
         case Closing => ValidClosing(prev, e)
  }

  // ----- `_decode_unlocked` as a fold

  /** While a proposal is pending, only that proposal may follow. */
  predicate PendingAdmits(pending: Option<(ProposalId, SessionId)>, p: Payload) {
    pending.Some? ==>
      && p.ProposalFrame?
      && p.proposal.id == pending.value.0
      && BoundTo(p.proposal, pending.value.1)
  }

  /** A closing event must name the decided proposal of its own session. */
  predicate ClosureBound(st: LedgerState, e: Event) {
    e.kind.Closing? ==>
      && e.proposalId.Some?
      && var pid := e.proposalId.value;
      && pid in st.proposals
      && pid in st.decisions
      && BoundTo(st.proposals[pid], e.session.id)
      && ClosureMatches(st.decisions[pid], e)
  }

  predicate ClosureMatches(d: Decision, e: Event) {
    && d.content.version.V3?
    && e.decisionId == Some(d.id)
    && d.content.actor == e.actor
    && d.content.decidedAt == e.at
    && e.activation == Some(d.content.version.activation)
  }

  function StepEvent(st: LedgerState, e: Event): Option<LedgerState> {
    var sid := e.session.id;
    if !ValidTransition(Lookup(st.sessions, sid), e, Lookup(st.latest, sid)) || !ClosureBound(st, e) then None
    else Some(st.(events := st.events + [e],
                  sessions := st.sessions[sid := e.session],
                  latest := st.latest[sid := e],
                  pending := if e.kind.Proposing? && e.proposalId.Some?
                             then Some((e.proposalId.value, sid)) else st.pending))
  }

  predicate AdmitsProposal(st: LedgerState, p: Proposal) {
    && p.id !in st.proposals
    && (IsClarification(p) ==>
          var b := p.content.clarification.value;
          && b.sessionId in st.sessions
          && b.sessionId in st.latest
          && st.sessions[b.sessionId].status.Proposed?
          && st.sessions[b.sessionId].core.taskId == b.taskId
          && st.sessions[b.sessionId].core.baseline == p.content.baseline
          && st.latest[b.sessionId].proposalId == Some(p.id))
  }

  function StepProposal(st: LedgerState, p: Proposal): Option<LedgerState> {
    if !AdmitsProposal(st, p) then None
    else Some(st.(proposals := st.proposals[p.id := p],
                  order := st.order + [p.id],
                  pending := if IsClarification(p) then None else st.pending))
  }

  predicate DecisionNames(d: Decision, p: Proposal) {
    d.content.proposalDigest == p.id && d.content.baseline == p.content.baseline
  }

  predicate AdmitsDecision(st: LedgerState, d: Decision) {
    var pid := d.content.proposalId;
    && pid in st.proposals
    && DecisionNames(d, st.proposals[pid])
    && pid !in st.decisions
    && (IsClarification(st.proposals[pid]) ==>
          var sid := st.proposals[pid].content.clarification.value.sessionId;
          && d.content.version.V3?
          && sid in st.sessions
          && st.sessions[sid].status.Proposed?)
  }

  function StepDecision(st: LedgerState, d: Decision): Option<LedgerState> {
    if !AdmitsDecision(st, d) then None
    else Some(st.(decisions := st.decisions[d.content.proposalId := d]))
  }

  function Step(st: LedgerState, f: Frame, expected: nat): Option<LedgerState> {
    if !ValidPayload(f.payload) || f.sequence != expected || !PendingAdmits(st.pending, f.payload) then None
    else match f.payload
      case ClarificationFrame(e) => StepEvent(st, e)
      case ProposalFrame(p) => StepProposal(st, p)
      case DecisionFrame(d) => StepDecision(st, d)
  }

  /** The decoder's variables after all the frames, or None once a frame was rejected. */
  function Run(frames: seq<Frame>): Option<LedgerState> {
    if frames == [] then Some(EMPTY)
    else match Run(frames[..|frames| - 1])
      case None => None
      case Some(st) => Step(st, Last(frames), |frames| - 1)
  }

  /** Every decided clarification proposal belongs to a session closed by that decision. */
  predicate DecidedAreClosed(st: LedgerState) {
    forall pid :: pid in st.proposals && IsClarification(st.proposals[pid]) && pid in st.decisions ==>
      var sid := st.proposals[pid].content.clarification.value.sessionId;
      && sid in st.sessions && sid in st.latest
      && st.sessions[sid].status.Closed?
      && st.latest[sid].proposalId == Some(pid)
      && st.latest[sid].decisionId == Some(st.decisions[pid].id)
  }

  function Decode(frames: seq<Frame>): Option<LedgerState> {
    match Run(frames)
    case None => None
    case Some(st) => if st.pending.None? && DecidedAreClosed(st) then Some(st) else None
  }

  lemma {:induction false} RunSnoc(frames: seq<Frame>, f: Frame)
    ensures Run(frames + [f]) ==
            match Run(frames) case None => None case Some(st) => Step(st, f, |frames|)
  {}

  /** A rejected prefix rejects the ledger. */
  lemma {:induction false} RunPrefix(frames: seq<Frame>, n: nat)
    requires n <= |frames| && Run(frames).Some?
    ensures Run(frames[..n]).Some?
    decreases |frames|
  {
    if n == |frames| {
      assert frames[..n] == frames;
    } else {
      RunPrefix(frames[..|frames| - 1], n);
      assert frames[..|frames| - 1][..n] == frames[..n];
    }
  }

  /** `_decode_unlocked`: one pass over the frames, then the two closing checks. */
  method DecodeLedger(frames: seq<Frame>) returns (result: Option<LedgerState>)
    ensures result == Decode(frames)
  {
    var proposals: map<ProposalId, Proposal> := map[];
    var order: seq<ProposalId> := [];
    var decisions: map<ProposalId, Decision> := map[];
    var events: seq<Event> := [];
    var sessions: map<SessionId, Session> := map[];
    var latest: map<SessionId, Event> := map[];
    var pending: Option<(ProposalId, SessionId)> := None;
    var i := 0;
    while i < |frames|
      invariant 0 <= i <= |frames|
      invariant Run(frames[..i]) ==
                Some(LedgerState(proposals, order, decisions, events, sessions, latest, pending))
    {
      var f := frames[i];
      ghost var st := LedgerState(proposals, order, decisions, events, sessions, latest, pending);
      assert frames[..i + 1] == frames[..i] + [f];
      RunSnoc(frames[..i], f);
      assert Run(frames[..i + 1]) == Step(st, f, i);
      if Step(st, f, i).None? && Run(frames).Some? {
        RunPrefix(frames, i + 1);
      }
      if !ValidPayload(f.payload) || f.sequence != i || !PendingAdmits(pending, f.payload) {
        return None;
      }
      match f.payload {
        case ClarificationFrame(e) =>
          var sid := e.session.id;
          if !ValidTransition(Lookup(sessions, sid), e, Lookup(latest, sid)) {
            return None;
          }
          if e.kind.Closing? {
            var pid := e.proposalId.value;
            if pid !in proposals || pid !in decisions
               || !BoundTo(proposals[pid], sid) || !ClosureMatches(decisions[pid], e) {
              return None;
            }
          }
          events := events + [e];
          sessions := sessions[sid := e.session];
          latest := latest[sid := e];
          if e.kind.Proposing? {
            pending := Some((e.proposalId.value, sid));
          }
        case ProposalFrame(p) =>
          if !AdmitsProposal(LedgerState(proposals, order, decisions, events, sessions, latest, pending), p) {
            return None;
          }
          proposals := proposals[p.id := p];
          order := order + [p.id];
          if IsClarification(p) {
            pending := None;
          }
        case DecisionFrame(d) =>
          if !AdmitsDecision(LedgerState(proposals, order, decisions, events, sessions, latest, pending), d) {
            return None;
          }
          decisions := decisions[d.content.proposalId := d];
      }
      i := i + 1;
    }
    assert frames[..i] == frames;
    var final := LedgerState(proposals, order, decisions, events, sessions, latest, pending);
    if pending.Some? || !DecidedAreClosed(final) {
      return None;
    }
    return Some(final);
  }
}
