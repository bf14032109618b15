/** Immutable records of the proposal ledger and their validators
    (intent_workflow/models.py).

    Content addresses are collision free: an identifier is the hashed material
    under a constructor, so two identifiers are equal exactly when their
    materials are. */
module IntentModels {
  import opened Common

  const MAX_CLARIFICATION_ITEMS := 16

  datatype Question = Question(
    id: Text, promptDigest: Text, evidenceRef: Text, author: Text,
    askedAt: Time, predecessor: Option<Text>, required: bool)

  datatype Answer = Answer(
    questionId: Text, actor: Text, answeredAt: Time, evidenceRef: Text,
    answerDigest: Text, predecessor: Option<Text>)

  datatype Conflict = Conflict(
    questionId: Text, actor: Text, observedAt: Time, originalRef: Text,
    conflictingRef: Text, conflictingDigest: Text, predecessor: Text)

  /** The fields of a session that no transition may change. */
  datatype SessionCore = SessionCore(
    taskId: Text, conversationRef: Text, requestRef: Text, classificationRef: Text,
    openedBy: Text, openedAt: Time, baseline: int, questions: seq<Question>)

  datatype SessionId = SessionDigest(core: SessionCore)

  datatype Status = Open | Proposed | Closed

  datatype Session = Session(
    id: SessionId, core: SessionCore, answers: seq<Answer>, conflicts: seq<Conflict>,
    status: Status, latestEventId: Option<EventId>)

  datatype EventKind = Opening | Answering | Conflicting | Proposing | Closing

  /** What an event identifier hashes; the session is taken without its latest event id. */
  datatype EventMaterial = EventMaterial(
    kind: EventKind, session: Session, actor: Text, at: Time, predecessor: Option<EventId>,
    proposalId: Option<ProposalId>, decisionId: Option<DecisionId>, activation: Option<Text>)

  datatype EventId = EventDigest(material: EventMaterial)

  datatype Event = Event(
    id: EventId, kind: EventKind, session: Session, actor: Text, at: Time,
    predecessor: Option<EventId>, proposalId: Option<ProposalId>,
    decisionId: Option<DecisionId>, activation: Option<Text>)

  /** The extra binding that makes a proposal a clarification proposal. */
  datatype Binding = Binding(sessionId: SessionId, taskId: Text)

  /** `rest` stands for the proposal fields the ledger never inspects. */
  datatype ProposalContent = ProposalContent(
    proposedBy: Text, proposedAt: Time, baseline: int, evidenceRefs: seq<Text>,
    rest: Text, clarification: Option<Binding>)

  datatype ProposalId = ProposalDigest(content: ProposalContent)

  datatype Proposal = Proposal(id: ProposalId, content: ProposalContent)

  datatype DecisionVersion =
    | V1(confirm: bool)
    | V2(activationV2: Text)
    | V3(activation: Text, actorAliases: seq<Text>, governance: Text)

  datatype DecisionContent = DecisionContent(
    proposalId: ProposalId, proposalDigest: ProposalId, actor: Text,
    decidedAt: Time, baseline: int, version: DecisionVersion)

  datatype DecisionId = DecisionDigest(content: DecisionContent)

  datatype Decision = Decision(id: DecisionId, content: DecisionContent)

  predicate IsClarification(p: Proposal) { p.content.clarification.Some? }

  predicate BoundTo(p: Proposal, sid: SessionId) {
    IsClarification(p) && p.content.clarification.value.sessionId == sid
  }

  predicate ValidProposal(p: Proposal) { p.id == ProposalDigest(p.content) }

  predicate ValidDecision(d: Decision) {
    && d.id == DecisionDigest(d.content)
    && (d.content.version.V3? ==> d.content.actor in d.content.version.actorAliases)
  }

  predicate Asked(questions: seq<Question>, id: Text) { exists q :: q in questions && q.id == id }

  predicate Answered(answers: seq<Answer>, id: Text) { exists a :: a in answers && a.questionId == id }

  predicate ValidSession(s: Session) {
    && 1 <= |s.core.questions| <= MAX_CLARIFICATION_ITEMS
    && |s.answers| <= MAX_CLARIFICATION_ITEMS
    && |s.conflicts| <= MAX_CLARIFICATION_ITEMS
    && (forall i, j :: 0 <= i < j < |s.core.questions| ==> s.core.questions[i].id != s.core.questions[j].id)
    && (forall i, j :: 0 <= i < j < |s.answers| ==> s.answers[i].questionId != s.answers[j].questionId)
    && (forall i :: 0 <= i < |s.answers| ==> Asked(s.core.questions, s.answers[i].questionId))
    && (forall i :: 0 <= i < |s.conflicts| ==> Answered(s.answers, s.conflicts[i].questionId))
    && (forall i, j :: 0 <= i < j < |s.conflicts| ==> s.conflicts[i].conflictingRef != s.conflicts[j].conflictingRef)
    && s.id == SessionDigest(s.core)
  }

  function Material(e: Event): EventMaterial {
    EventMaterial(e.kind, e.session.(latestEventId := None), e.actor, e.at,
                  e.predecessor, e.proposalId, e.decisionId, e.activation)
  }

  function StatusAfter(kind: EventKind): Status {
    match kind case Proposing => Proposed case Closing => Closed case _ => Open
  }

  predicate ValidEvent(e: Event) {
    && ValidSession(e.session)
    && e.id == EventDigest(Material(e))
    && e.session.latestEventId == Some(e.id)
    && e.session.status == StatusAfter(e.kind)
    && (e.kind.Proposing? ==> e.proposalId.Some? && e.decisionId.None? && e.activation.None?)
    && (e.kind.Closing? ==> e.proposalId.Some? && e.decisionId.Some? && e.activation.Some?)
    && (!e.kind.Proposing? && !e.kind.Closing? ==>
          e.proposalId.None? && e.decisionId.None? && e.activation.None?)
  }

  /** `_event`: bind a session state to the event that produced it. */
  function MakeEvent(s: Session, kind: EventKind, actor: Text, at: Time, predecessor: Option<EventId>,
                     proposalId: Option<ProposalId> := None, decisionId: Option<DecisionId> := None,
                     activation: Option<Text> := None): (e: Event)
    ensures e.session.latestEventId == Some(e.id) && e.id == EventDigest(Material(e))
  {
    var bare := s.(latestEventId := None);
    var id := EventDigest(EventMaterial(kind, bare, actor, at, predecessor, proposalId, decisionId, activation));
    Event(id, kind, bare.(latestEventId := Some(id)), actor, at, predecessor, proposalId, decisionId, activation)
  }
}
