/** What every decodable proposal ledger satisfies. */
module LedgerInvariant {
  import opened Common
  import opened IntentModels
  import opened ProposalLedger

  /** The two session dictionaries describe the same sessions. */
  ghost predicate SessionsInv(st: LedgerState) {
    && st.sessions.Keys == st.latest.Keys
    && forall sid :: sid in st.sessions ==>
         && sid in st.latest
         && st.sessions[sid] == st.latest[sid].session
         && st.sessions[sid].id == sid
         && st.sessions[sid].status == StatusAfter(st.latest[sid].kind)
  }

  ghost predicate EventsValid(st: LedgerState) {
    forall sid :: sid in st.latest ==> ValidEvent(st.latest[sid])
  }

  ghost predicate ProposalsInv(st: LedgerState) {
    && (forall pid :: pid in st.proposals ==> st.proposals[pid].id == pid && ValidProposal(st.proposals[pid]))
    && (forall pid :: pid in st.order <==> pid in st.proposals)
    && Distinct(st.order)
    && (forall pid :: pid in st.decisions ==>
          && pid in st.proposals
          && st.decisions[pid].content.proposalId == pid
          && ValidDecision(st.decisions[pid])
          && DecisionNames(st.decisions[pid], st.proposals[pid]))
  }

  /** A stored clarification proposal is the one its session's latest event names. */
  ghost predicate BindingsInv(st: LedgerState) {
    forall pid :: pid in st.proposals && IsClarification(st.proposals[pid]) ==>
      var sid := st.proposals[pid].content.clarification.value.sessionId;
      && sid in st.latest
      && !st.latest[sid].session.status.Open?
      && st.latest[sid].proposalId == Some(pid)
      && (pid in st.decisions ==> st.decisions[pid].content.version.V3?)
  }

  /** A session that left "open" has its proposal, except while that proposal is pending. */
  ghost predicate LeftOpenInv(st: LedgerState) {
    forall sid :: sid in st.latest && !st.latest[sid].session.status.Open? ==>
      && st.latest[sid].proposalId.Some?
      && var pid := st.latest[sid].proposalId.value;
      && (Stored(st, pid, sid) || (st.latest[sid].session.status.Proposed? && st.pending == Some((pid, sid))))
      && (st.latest[sid].session.status.Closed? ==>
            pid in st.decisions && ClosureMatches(st.decisions[pid], st.latest[sid]))
  }

  ghost predicate Stored(st: LedgerState, pid: ProposalId, sid: SessionId) {
    pid in st.proposals && BoundTo(st.proposals[pid], sid)
  }

  /** A pending proposal is the one its proposed session waits for. */
  ghost predicate PendingInv(st: LedgerState) {
    st.pending.Some? ==>
      && st.pending.value.1 in st.latest
      && st.latest[st.pending.value.1].kind.Proposing?
      && st.latest[st.pending.value.1].proposalId == Some(st.pending.value.0)
  }

  /** No event precedes the opening, and while a session is open and free of
      conflicts its latest event carried its last answer. */
  ghost predicate LastAnswerInv(st: LedgerState) {
    forall sid :: sid in st.latest ==>
      var e := st.latest[sid];
      && e.at >= e.session.core.openedAt
      && (e.session.status.Open? && e.session.conflicts == [] && e.session.answers != [] ==>
            e.at == Last(e.session.answers).answeredAt)
  }

  ghost predicate Inv(st: LedgerState) {
    && SessionsInv(st)
    && EventsValid(st)
    && ProposalsInv(st)
    && BindingsInv(st)
    && LeftOpenInv(st)
    && PendingInv(st)
    && LastAnswerInv(st)
  }

  lemma StepEventBindings(st: LedgerState, e: Event)
    requires SessionsInv(st) && BindingsInv(st) && st.pending.None? && StepEvent(st, e).Some?
    ensures BindingsInv(StepEvent(st, e).value)
  {}

  lemma StepEventLeftOpen(st: LedgerState, e: Event)
    requires SessionsInv(st) && LeftOpenInv(st) && st.pending.None? && StepEvent(st, e).Some?
    requires e.session.status == StatusAfter(e.kind)
    ensures LeftOpenInv(StepEvent(st, e).value)
  {}

  lemma StepEventLastAnswer(st: LedgerState, e: Event)
    requires LastAnswerInv(st) && StepEvent(st, e).Some?
    ensures LastAnswerInv(StepEvent(st, e).value)
  {}

  lemma StepEventSessions(st: LedgerState, e: Event)
    requires SessionsInv(st) && e.session.status == StatusAfter(e.kind) && StepEvent(st, e).Some?
    ensures SessionsInv(StepEvent(st, e).value)
  {}

  lemma StepEventPending(st: LedgerState, e: Event)
    requires st.pending.None? && StepEvent(st, e).Some?
    ensures PendingInv(StepEvent(st, e).value)
    ensures ProposalsInv(st) ==> ProposalsInv(StepEvent(st, e).value)
  {}

  lemma StepEventInv(st: LedgerState, e: Event)
    requires Inv(st) && ValidEvent(e) && st.pending.None? && StepEvent(st, e).Some?
    ensures Inv(StepEvent(st, e).value)
  {
    StepEventSessions(st, e);
    StepEventPending(st, e);
    StepEventBindings(st, e);
    StepEventLeftOpen(st, e);
    StepEventLastAnswer(st, e);
  }

  lemma StepProposalLeftOpen(st: LedgerState, p: Proposal)
    requires LeftOpenInv(st) && PendingAdmits(st.pending, ProposalFrame(p)) && StepProposal(st, p).Some?
    ensures LeftOpenInv(StepProposal(st, p).value)
  {}

  lemma StepProposalProposals(st: LedgerState, p: Proposal)
    requires ProposalsInv(st) && ValidProposal(p) && StepProposal(st, p).Some?
    ensures ProposalsInv(StepProposal(st, p).value)
  {}

  lemma StepProposalBindings(st: LedgerState, p: Proposal)
    requires SessionsInv(st) && ProposalsInv(st) && BindingsInv(st) && StepProposal(st, p).Some?
    ensures BindingsInv(StepProposal(st, p).value)
  {}

  lemma StepProposalInv(st: LedgerState, p: Proposal)
    requires Inv(st) && ValidProposal(p) && PendingAdmits(st.pending, ProposalFrame(p))
    requires StepProposal(st, p).Some?
    ensures Inv(StepProposal(st, p).value)
  {
    var st' := StepProposal(st, p).value;
    StepProposalLeftOpen(st, p);
    StepProposalProposals(st, p);
    StepProposalBindings(st, p);
    SameSessionsInv(st, st');
  }

  lemma SameSessionsInv(st: LedgerState, st': LedgerState)
    requires SessionsInv(st) && EventsValid(st) && LastAnswerInv(st)
    requires st'.sessions == st.sessions && st'.latest == st.latest
    ensures SessionsInv(st') && EventsValid(st') && LastAnswerInv(st')
  {}

  lemma StepDecisionLeftOpen(st: LedgerState, d: Decision)
    requires LeftOpenInv(st) && StepDecision(st, d).Some?
    ensures LeftOpenInv(StepDecision(st, d).value)
  {}

  lemma StepDecisionProposals(st: LedgerState, d: Decision)
    requires ProposalsInv(st) && BindingsInv(st) && ValidDecision(d) && StepDecision(st, d).Some?
    ensures ProposalsInv(StepDecision(st, d).value) && BindingsInv(StepDecision(st, d).value)
  {}

  lemma StepDecisionInv(st: LedgerState, d: Decision)
    requires Inv(st) && ValidDecision(d) && StepDecision(st, d).Some?
    ensures Inv(StepDecision(st, d).value)
  {
    StepDecisionProposals(st, d);
    StepDecisionLeftOpen(st, d);
  }

  lemma StepInv(st: LedgerState, f: Frame, n: nat)
    requires Inv(st) && Step(st, f, n).Some?
    ensures Inv(Step(st, f, n).value)
  {
    match f.payload
    case ClarificationFrame(e) => StepEventInv(st, e);
    case ProposalFrame(p) => StepProposalInv(st, p);
    case DecisionFrame(d) => StepDecisionInv(st, d);
  }

  lemma {:induction false} RunInv(frames: seq<Frame>)
    requires Run(frames).Some?
    ensures Inv(Run(frames).value)
  {
    if frames != [] {
      RunInv(frames[..|frames| - 1]);
      StepInv(Run(frames[..|frames| - 1]).value, Last(frames), |frames| - 1);
    }
  }

  /** The clarification proposals bound to a session. */
  ghost function BoundProposals(st: LedgerState, sid: SessionId): set<ProposalId> {
    set pid | pid in st.proposals && BoundTo(st.proposals[pid], sid)
  }

  /** In every decodable ledger a session has left "open" exactly when precisely one
      clarification proposal is bound to it, and it is closed exactly when that
      proposal is decided, by the decision the closing event describes. */
  lemma SessionBinding(frames: seq<Frame>, st: LedgerState, sid: SessionId)
    requires Decode(frames) == Some(st) && sid in st.sessions
    ensures |BoundProposals(st, sid)| <= 1
    ensures !st.sessions[sid].status.Open? <==> |BoundProposals(st, sid)| == 1
    ensures st.sessions[sid].status.Closed? <==>
            exists pid :: pid in BoundProposals(st, sid) && pid in st.decisions
    ensures sid in st.latest && st.latest[sid].session == st.sessions[sid]
    ensures st.sessions[sid].status.Closed? ==>
              forall pid :: pid in BoundProposals(st, sid) ==>
                && pid in st.decisions
                && st.latest[sid].proposalId == Some(pid)
                && st.decisions[pid].content.version.V3?
                && st.latest[sid].decisionId == Some(st.decisions[pid].id)
                && st.latest[sid].actor == st.decisions[pid].content.actor
                && st.latest[sid].at == st.decisions[pid].content.decidedAt
                && st.latest[sid].activation == Some(st.decisions[pid].content.version.activation)
  {
    RunInv(frames);
    var e := st.latest[sid];
    forall pid | pid in BoundProposals(st, sid)
      ensures e.proposalId == Some(pid) && !st.sessions[sid].status.Open?
    {}
    if st.sessions[sid].status.Open? {
      assert BoundProposals(st, sid) == {};
    } else {
      assert Stored(st, e.proposalId.value, sid);
      assert BoundProposals(st, sid) == {e.proposalId.value};
    }
  }

  /** Conversely, every clarification proposal belongs to a session of the ledger. */
  lemma ProposalHasSession(frames: seq<Frame>, st: LedgerState, pid: ProposalId)
    requires Decode(frames) == Some(st) && pid in st.proposals && IsClarification(st.proposals[pid])
    ensures var sid := st.proposals[pid].content.clarification.value.sessionId;
            sid in st.sessions && BoundProposals(st, sid) == {pid}
  {
    RunInv(frames);
    var sid := st.proposals[pid].content.clarification.value.sessionId;
    SessionBinding(frames, st, sid);
    assert pid in BoundProposals(st, sid);
  }
}
