/** The rules of the proposal ledger over questions, answers, conflicts, proposals and decisions
    directly: what every accepted frame satisfies, and exactly what the writers accept. */
module LedgerFacts {
  import opened Common
  import opened IntentModels
  import opened ProposalLedger
  import opened LedgerInvariant
  import opened LedgerWriters
  import LedgerHistory

  // ----- Sessions and events

  /** Each required question has an answer. */
  ghost predicate Complete(s: Session) {
    forall q :: q in s.core.questions && q.required ==> exists a :: a in s.answers && a.questionId == q.id
  }

  ghost predicate Distinguished(s: Session) {
    && (forall i, j :: 0 <= i < j < |s.core.questions| ==> s.core.questions[i].id != s.core.questions[j].id)
    && (forall i, j :: 0 <= i < j < |s.answers| ==> s.answers[i].questionId != s.answers[j].questionId)
    && (forall i, j :: 0 <= i < j < |s.conflicts| ==> s.conflicts[i].conflictingRef != s.conflicts[j].conflictingRef)
  }

  /** A session is valid exactly when it asks one to sixteen different questions, answers each at
      most once and only what was asked, and its conflicts are different and about answers. */
  lemma SessionExactly(s: Session)
    ensures ValidSession(s) <==>
              && 1 <= |s.core.questions| <= 16 && |s.answers| <= 16 && |s.conflicts| <= 16
              && Distinguished(s)
              && (forall a :: a in s.answers ==> exists q :: q in s.core.questions && q.id == a.questionId)
              && (forall c :: c in s.conflicts ==> exists a :: a in s.answers && a.questionId == c.questionId)
              && s.id.core == s.core
  {
    forall i | 0 <= i < |s.answers| ensures s.answers[i] in s.answers {}
    forall i | 0 <= i < |s.conflicts| ensures s.conflicts[i] in s.conflicts {}
  }

  /** What an opened event is. */
  ghost predicate Opens(e: Event) {
    var s := e.session;
    && e.kind.Opening? && e.predecessor.None? && s.answers == [] && s.status.Open?
    && e.actor == s.core.openedBy && e.at == s.core.openedAt
    && forall i :: 0 <= i < |s.core.questions| ==> Chained(s.core, i)
  }

  /** The evidence the next answer or conflict must follow. */
  function Tip(s: Session): Option<Text> {
    if |s.conflicts| > 0 then Some(s.conflicts[|s.conflicts| - 1].conflictingRef)
    else if |s.answers| > 0 then Some(s.answers[|s.answers| - 1].evidenceRef)
    else if |s.core.questions| > 0 then Some(s.core.questions[|s.core.questions| - 1].evidenceRef)
    else None
  }

  /** A new answer by the event's actor at the event's time. */
  ghost predicate Answers(before: Session, e: Event) {
    var s := e.session;
    && before.status.Open? && s.status.Open? && s.conflicts == before.conflicts
    && exists a :: s.answers == before.answers + [a] && a.actor == e.actor && a.answeredAt == e.at &&
        a.predecessor == Tip(before)
  }

  /** A new conflict with the accepted answer to the same question. */
  ghost predicate Contests(before: Session, e: Event) {
    var s := e.session;
    && before.status.Open? && s.status.Open? && s.answers == before.answers
    && (before.answers != [] || before.conflicts != [])
    && exists c, k :: && s.conflicts == before.conflicts + [c] && c.actor == e.actor && c.observedAt == e.at
                      && Some(c.predecessor) == Tip(before) && Accepts(before.answers, c, k)
  }

  /** Answer k is the first to the conflict's question, and the conflict names its evidence. */
  ghost predicate Accepts(answers: seq<Answer>, c: Conflict, k: int) {
    && 0 <= k < |answers| && answers[k].questionId == c.questionId && answers[k].evidenceRef == c.originalRef
    && forall j :: 0 <= j < k ==> answers[j].questionId != c.questionId
  }

  /** A complete, uncontested session is proposed by its last answerer. */
  ghost predicate Proposes(before: Session, e: Event) {
    var s := e.session;
    && before.status.Open? && s.status.Proposed? && s.answers == before.answers && s.conflicts == []
    && Complete(s) && |s.answers| > 0 && e.actor == s.answers[|s.answers| - 1].actor && e.proposalId.Some?
  }

  ghost predicate Closes(before: Session, e: Event) {
    var s := e.session;
    && before.status.Proposed? && s.status.Closed? && s.answers == before.answers && s.conflicts == before.conflicts
    && e.proposalId.Some? && e.decisionId.Some? && e.activation.Some?
  }

  /** An event follows the latest event of its session. */
  ghost predicate Follows(prev: Event, e: Event) {
    && e.predecessor == prev.session.latestEventId && e.at >= prev.at && e.at >= prev.session.core.openedAt
    && e.session.id == prev.session.id && e.session.core == prev.session.core
    && match e.kind
       case Opening => false
       case Answering => Answers(prev.session, e)
       case Conflicting => Contests(prev.session, e)
       case Proposing => Proposes(prev.session, e)
       case Closing => Closes(prev.session, e)
  }

  ghost predicate Continues(prev: Option<Event>, e: Event) { if prev.None? then Opens(e) else Follows(prev.value, e) }

  function Sessions(prev: Option<Event>): Option<Session> { if prev.None? then None else Some(prev.value.session) }

  lemma OpeningExactly(e: Event)
    ensures ValidOpening(e) <==> Opens(e)
  {
    var core := e.session.core;
    forall i | 0 <= i < |core.questions| ensures QuestionFollows(core, i) <==> Chained(core, i) {}
  }

  /** Question i is asked by the opener, after its predecessor and not before it. */
  ghost predicate Chained(core: SessionCore, i: int)
    requires 0 <= i < |core.questions|
  {
    var q := core.questions[i];
    && q.author == core.openedBy
    && (i == 0 ==> q.predecessor == Some(core.classificationRef) && q.askedAt >= core.openedAt)
    && (i > 0 ==>
          && q.predecessor == Some(core.questions[i - 1].evidenceRef)
          && q.askedAt >= core.questions[i - 1].askedAt)
  }

  lemma AnsweringExactly(before: Session, e: Event)
    requires before.core == e.session.core
    ensures ValidAnswering(before, e) <==> Answers(before, e)
  {
    var answers := e.session.answers;
    if ValidAnswering(before, e) { assert answers == before.answers + [answers[|answers| - 1]]; }
  }

  lemma {:induction false} FirstAnswer(answers: seq<Answer>, c: Conflict)
    ensures (AcceptedAnswer(answers, c.questionId).Some? &&
              AcceptedAnswer(answers, c.questionId).value.evidenceRef == c.originalRef)
            <==> exists k :: Accepts(answers, c, k)
  {
    if answers != [] {
      FirstAnswer(answers[1..], c);
      if answers[0].questionId == c.questionId {
        assert answers[0].evidenceRef == c.originalRef ==> Accepts(answers, c, 0);
        forall k | Accepts(answers, c, k) ensures k == 0 {}
      } else {
        forall k | Accepts(answers, c, k) ensures Accepts(answers[1..], c, k - 1) {}
        forall k | Accepts(answers[1..], c, k) ensures Accepts(answers, c, k + 1) {}
      }
    }
  }

  lemma ConflictingExactly(before: Session, e: Event)
    requires before.core == e.session.core
    ensures ValidConflicting(before, e) <==> Contests(before, e)
  {
    var conflicts := e.session.conflicts;
    if ValidConflicting(before, e) {
      var c := conflicts[|conflicts| - 1];
      assert conflicts == before.conflicts + [c];
      FirstAnswer(before.answers, c);
      var k :| Accepts(before.answers, c, k);
    }
    if Contests(before, e) {
      var c, k :| conflicts == before.conflicts + [c] && c.actor == e.actor && c.observedAt == e.at
                  && Some(c.predecessor) == Tip(before) && Accepts(before.answers, c, k);
      FirstAnswer(before.answers, c);
    }
  }

  lemma ProposingExactly(before: Session, e: Event)
    ensures ValidProposing(before, e) <==> Proposes(before, e)
  {}

  /** The decoder admits an event after the latest one of its session exactly when it continues it. */
  lemma TransitionExactly(prev: Option<Event>, e: Event)
    ensures ValidTransition(Sessions(prev), e, prev) <==> Continues(prev, e)
  {
    if prev.None? {
      OpeningExactly(e);
    } else {
      if prev.value.session.core == e.session.core {
        AnsweringExactly(prev.value.session, e);
        ConflictingExactly(prev.value.session, e);
      }
      ProposingExactly(prev.value.session, e);
    }
  }

  /** What an event must carry besides its session. */
  lemma EventExactly(e: Event)
    ensures ValidEvent(e) <==>
              && ValidSession(e.session) && e.id == EventDigest(Material(e)) && e.session.latestEventId == Some(e.id)
              && match e.kind
                 case Proposing =>
                   e.session.status.Proposed? && e.proposalId.Some? && e.decisionId.None? && e.activation.None?
                 case Closing =>
                   e.session.status.Closed? && e.proposalId.Some? && e.decisionId.Some? && e.activation.Some?
                 case _ => e.session.status.Open? && e.proposalId.None? && e.decisionId.None? && e.activation.None?
  {}

  // ----- Every accepted frame

  /** In every accepted prefix, a session that is no longer open has an answer to each of its
      required questions. */
  lemma {:induction false} RequiredAreAnswered(frames: seq<Frame>, sid: SessionId, q: Question)
    requires Run(frames).Some? && sid in Run(frames).value.sessions
    requires var s := Run(frames).value.sessions[sid]; !s.status.Open? && q in s.core.questions && q.required
    ensures exists a :: a in Run(frames).value.sessions[sid].answers && a.questionId == q.id
  {
    var init, f := frames[..|frames| - 1], frames[|frames| - 1];
    var before := Run(init).value;
    RunSessions(init);
    if f.payload.ClarificationFrame? && f.payload.event.session.id == sid {
      var e := f.payload.event;
      TransitionExactly(Lookup(before.latest, sid), e);
      if e.kind.Closing? { RequiredAreAnswered(init, sid, q); }
    } else {
      RequiredAreAnswered(init, sid, q);
    }
  }

  /** The frame at each position of an accepted ledger carries that position and one of these. */
  ghost predicate FrameFits(st: LedgerState, f: Frame, n: nat) {
    && f.sequence == n
    && match f.payload
       case ClarificationFrame(e) =>
         && st.pending.None? && ValidEvent(e) && Continues(Lookup(st.latest, e.session.id), e)
         && (e.kind.Closing? ==> exists pid :: ClosedBy(st, e, pid))
       case ProposalFrame(p) => AdmissibleProposal(st, p)
       case DecisionFrame(d) => st.pending.None? && AdmissibleDecision(st, d)
  }

  /** The closing event names the decided proposal of its session and repeats its decision. */
  ghost predicate ClosedBy(st: LedgerState, e: Event, pid: ProposalId) {
    && e.proposalId == Some(pid) && pid in st.proposals && pid in st.decisions
    && st.proposals[pid].content.clarification.Some?
    && st.proposals[pid].content.clarification.value.sessionId == e.session.id
    && var d := st.decisions[pid];
    && d.content.version.V3? && e.decisionId == Some(d.id) && e.actor == d.content.actor && e.at == d.content.decidedAt
    && e.activation == Some(d.content.version.activation)
  }

  /** A new proposal with its own digest; a clarification proposal is the one its proposed session
      waits for, with its task and baseline, and follows immediately. */
  ghost predicate AdmissibleProposal(st: LedgerState, p: Proposal) {
    && p.id.content == p.content && p.id !in st.proposals
    && match p.content.clarification
       case None => st.pending.None?
       case Some(b) =>
         && b.sessionId in st.sessions && b.sessionId in st.latest
         && st.sessions[b.sessionId].status.Proposed?
         && b.taskId == st.sessions[b.sessionId].core.taskId
         && p.content.baseline == st.sessions[b.sessionId].core.baseline
         && st.latest[b.sessionId].proposalId == Some(p.id)
         && (st.pending.None? || st.pending == Some((p.id, b.sessionId)))
  }

  /** The first decision of a stored proposal, naming its digest and baseline. */
  ghost predicate AdmissibleDecision(st: LedgerState, d: Decision) {
    var pid := d.content.proposalId;
    && d.id.content == d.content
    && (d.content.version.V3? ==> d.content.actor in d.content.version.actorAliases)
    && pid in st.proposals && pid !in st.decisions
    && d.content.proposalDigest == st.proposals[pid].id && d.content.baseline == st.proposals[pid].content.baseline
    && (st.proposals[pid].content.clarification.Some? ==>
          var sid := st.proposals[pid].content.clarification.value.sessionId;
          d.content.version.V3? && sid in st.sessions && st.sessions[sid].status.Proposed?)
  }

  lemma EventFits(st: LedgerState, e: Event, n: nat)
    requires SessionsInv(st)
    ensures Step(st, Frame(n, ClarificationFrame(e)), n).Some? <==> FrameFits(st, Frame(n, ClarificationFrame(e)), n)
  {
    TransitionExactly(Lookup(st.latest, e.session.id), e);
    assert Lookup(st.sessions, e.session.id) == Sessions(Lookup(st.latest, e.session.id));
    if e.kind.Closing? && ClosureBound(st, e) { assert ClosedBy(st, e, e.proposalId.value); }
  }

  lemma ProposalFits(st: LedgerState, p: Proposal, n: nat)
    ensures Step(st, Frame(n, ProposalFrame(p)), n).Some? <==> FrameFits(st, Frame(n, ProposalFrame(p)), n)
  {}

  lemma DecisionFits(st: LedgerState, d: Decision, n: nat)
    ensures Step(st, Frame(n, DecisionFrame(d)), n).Some? <==> FrameFits(st, Frame(n, DecisionFrame(d)), n)
  {}

  /** The decoder takes a frame exactly when it fits. */
  lemma FrameExactly(frames: seq<Frame>, f: Frame)
    requires Run(frames).Some?
    ensures Run(frames + [f]).Some? <==> FrameFits(Run(frames).value, f, |frames|)
  {
    RunSnoc(frames, f);
    RunSessions(frames);
    var st, n := Run(frames).value, |frames|;
    if f.sequence == n {
      assert f == Frame(n, f.payload);
      match f.payload
      case ClarificationFrame(e) => EventFits(st, e, n);
      case ProposalFrame(p) => ProposalFits(st, p, n);
      case DecisionFrame(d) => DecisionFits(st, d, n);
    }
  }

  /** The proposal's session is closed by the decision on it. */
  ghost predicate ClosedFor(st: LedgerState, pid: ProposalId, sid: SessionId) {
    && pid in st.decisions && sid in st.sessions && st.sessions[sid].status.Closed?
    && sid in st.latest && st.latest[sid].proposalId == Some(pid)
    && st.latest[sid].decisionId == Some(st.decisions[pid].id)
  }

  /** A ledger decodes exactly when all its frames are taken, no proposed session still waits for its
      proposal, and each decided clarification proposal has closed its session. */
  lemma DecodesExactly(frames: seq<Frame>)
    ensures Decode(frames).Some? <==>
              && Run(frames).Some? && Run(frames).value.pending.None?
              && forall pid ::
                   (&& pid in Run(frames).value.proposals && pid in Run(frames).value.decisions
                    && Run(frames).value.proposals[pid].content.clarification.Some?)
                   ==> ClosedFor(Run(frames).value, pid,
                       Run(frames).value.proposals[pid].content.clarification.value.sessionId)
    ensures Decode(frames).Some? ==> Decode(frames) == Run(frames)
  {}

  // ----- Exactly what the writers accept

  /** `put` accepts a new proposal with its own digest and recognises a repetition. */
  lemma PutExactly(frames: seq<Frame>, p: Proposal)
    requires Decode(frames).Some?
    ensures var st := Decode(frames).value;
            && (PutOutcome(frames, p).Added? <==> p.id.content == p.content && p.id !in st.proposals)
            && (PutOutcome(frames, p).Duplicate? <==>
                p.id.content == p.content && p.id in st.proposals && st.proposals[p.id] == p)
  {}

  /** `decide` accepts the first decision of a stored plain proposal and recognises a repetition. */
  lemma DecideExactly(frames: seq<Frame>, d: Decision)
    requires Decode(frames).Some?
    ensures var st := Decode(frames).value; var pid := d.content.proposalId;
            var names := && d.id.content == d.content
                         && (d.content.version.V3? ==> d.content.actor in d.content.version.actorAliases)
                         && pid in st.proposals && st.proposals[pid].content.clarification.None?
                         && d.content.proposalDigest == st.proposals[pid].id
                         && d.content.baseline == st.proposals[pid].content.baseline;
            && (DecideOutcome(frames, d).Added? <==> names && pid !in st.decisions)
            && (DecideOutcome(frames, d).Duplicate? <==> names && pid in st.decisions && st.decisions[pid] == d)
  {}

  /** `append_clarification` accepts a valid event that is not recorded yet and continues its session. */
  lemma ClarifyExactly(frames: seq<Frame>, e: Event)
    requires Decode(frames).Some?
    ensures var st := Decode(frames).value;
            ClarifyOutcome(frames, e).Added? <==>
              && ValidEvent(e) && (forall x :: x in st.events ==> x.id != e.id)
              && Continues(Lookup(st.latest, e.session.id), e)
  {
    var st := Decode(frames).value;
    LatestOfRun(frames, e.session.id);
    RunSessions(frames);
    TransitionExactly(Lookup(st.latest, e.session.id), e);
    assert Lookup(st.sessions, e.session.id) == Sessions(Lookup(st.latest, e.session.id));
    WithId(st.events, e.id);
  }

  lemma {:induction false} WithId(events: seq<Event>, id: EventId)
    ensures EventsWithId(events, id) == [] <==> forall x :: x in events ==> x.id != id
  {
    if events != [] {
      WithId(events[1..], id);
      assert events == [events[0]] + events[1..];
    }
  }

  /** The coordinator proposes exactly an open session without conflicts whose required questions
      are all answered, for its task and baseline, by its last answerer, not before that answer. */
  lemma ProposeExactly(frames: seq<Frame>, sub: Submission, admissible: bool)
    requires Decode(frames).Some?
    ensures var sessions := Decode(frames).value.sessions;
            ProposeOutcome(frames, sub, admissible).Added? <==>
              && admissible && sub.sessionId in sessions
              && var s := sessions[sub.sessionId];
              && s.status.Open? && |s.conflicts| == 0 && |s.answers| > 0 && Complete(s)
              && sub.taskId == s.core.taskId && sub.baseline == s.core.baseline
              && sub.actor == s.answers[|s.answers| - 1].actor && sub.timestamp >= s.answers[|s.answers| - 1].answeredAt
  {}

  /** A submission repeats exactly the proposal recorded for its proposed session. */
  lemma ReplayExactly(frames: seq<Frame>, sub: Submission, admissible: bool)
    requires Decode(frames).Some?
    ensures var st := Decode(frames).value;
            ProposeOutcome(frames, sub, admissible).Duplicate? <==>
              && admissible && sub.sessionId in st.sessions
              && var s := st.sessions[sub.sessionId];
              && s.status.Proposed? && |s.conflicts| == 0 && |s.answers| > 0 && Complete(s)
              && sub.taskId == s.core.taskId && sub.baseline == s.core.baseline
              && sub.actor == s.answers[|s.answers| - 1].actor && sub.timestamp >= s.answers[|s.answers| - 1].answeredAt
              && ProposedProposal(sub) in st.proposals.Values
  {
    var st, p := Decode(frames).value, ProposedProposal(sub);
    RunProposals(frames);
    if p in st.proposals.Values { assert p.id in st.proposals && st.proposals[p.id] == p; }
  }

  lemma {:induction false} RunProposals(frames: seq<Frame>)
    requires Run(frames).Some?
    ensures forall pid :: pid in Run(frames).value.proposals ==> Run(frames).value.proposals[pid].id == pid
  {
    if frames != [] { RunProposals(frames[..|frames| - 1]); }
  }

  /** A confirmation of a proposal decided before is a replay, by the same guards. */
  lemma ConfirmedExactly(frames: seq<Frame>, c: Confirmation, admissible: bool)
    requires Decode(frames).Some?
    ensures var st := Decode(frames).value;
            ConfirmOutcome(frames, c, admissible).Duplicate? <==>
              && admissible && c.actor in c.actorAliases
              && c.proposalId in st.proposals && c.proposalId in st.decisions
              && st.proposals[c.proposalId].content.clarification.Some?
              && c.at >= st.proposals[c.proposalId].content.proposedAt
  {}

  /** The pair a proposal writes, over the submission and the session. */
  lemma ProposedPair(s: Session, sub: Submission)
    ensures var e, p := ProposingEvent(s, sub), ProposedProposal(sub);
            && e.kind.Proposing? && e.actor == sub.actor && e.at == sub.timestamp && e.predecessor == s.latestEventId
            && e.proposalId == Some(p.id)
            && e.session.(latestEventId := None) == s.(status := Proposed, latestEventId := None)
            && p.id.content == p.content
            && p.content == ProposalContent(sub.actor, sub.timestamp, sub.baseline, sub.evidenceRefs, sub.rest,
                                            Some(Binding(sub.sessionId, sub.taskId)))
  {}

  /** A confirmation is accepted exactly for an undecided clarification proposal of a proposed
      session, by an actor among its own aliases, no earlier than the proposal and the session's
      latest event. */
  lemma ConfirmExactly(frames: seq<Frame>, c: Confirmation, admissible: bool)
    requires Decode(frames).Some?
    ensures var st := Decode(frames).value;
            ConfirmOutcome(frames, c, admissible).Added? <==>
              && admissible && c.actor in c.actorAliases
              && c.proposalId in st.proposals && c.proposalId !in st.decisions
              && st.proposals[c.proposalId].content.clarification.Some?
              && c.at >= st.proposals[c.proposalId].content.proposedAt
              && var sid := st.proposals[c.proposalId].content.clarification.value.sessionId;
              && sid in st.sessions && st.sessions[sid].status.Proposed?
              && sid in st.latest && c.at >= st.latest[sid].at
  {
    var st := Decode(frames).value;
    RunSessions(frames);
    if ConfirmAdmitted(frames, c, admissible) { ConfirmAcceptedExactly(frames, c, admissible); }
  }

  /** The pair a confirmation writes, over the confirmation, the proposal and the session. */
  lemma ConfirmedPair(s: Session, p: Proposal, c: Confirmation)
    ensures var d, e := ConfirmedDecision(p, c), ClosingEvent(s, p, c);
            && d.id.content == d.content
            && d.content == DecisionContent(p.id, p.id, c.actor, c.at, p.content.baseline,
                                            V3(c.activation, c.actorAliases, c.governance))
            && e.kind.Closing? && e.actor == c.actor && e.at == c.at && e.predecessor == s.latestEventId
            && e.proposalId == Some(p.id) && e.decisionId == Some(d.id) && e.activation == Some(c.activation)
            && e.session.(latestEventId := None) == s.(status := Closed, latestEventId := None)
  {}

  // ----- What calls leave behind

  /** The frames a call appends to the ledger. */
  function Written(frames: seq<Frame>, call: Call): seq<Frame> {
    var n := |frames|;
    match call
    case PutCall(p) => if PutOutcome(frames, p).Added? then [Frame(n, ProposalFrame(p))] else []
    case DecideCall(d) => if DecideOutcome(frames, d).Added? then [Frame(n, DecisionFrame(d))] else []
    case ClarifyCall(e) => if ClarifyOutcome(frames, e).Added? then [Frame(n, ClarificationFrame(e))] else []
    case ProposeCall(sub, admissible) =>
      if ProposeOutcome(frames, sub, admissible).Added? then
        [Frame(n, ClarificationFrame(ProposingEvent(Decode(frames).value.sessions[sub.sessionId], sub))),
         Frame(n + 1, ProposalFrame(ProposedProposal(sub)))]
      else []
    case ConfirmCall(c, admissible) =>
      if ConfirmOutcome(frames, c, admissible).Added? then
        var st := Decode(frames).value;
        var p := st.proposals[c.proposalId];
        var s := st.sessions[p.content.clarification.value.sessionId];
        [Frame(n, DecisionFrame(ConfirmedDecision(p, c))), Frame(n + 1, ClarificationFrame(ClosingEvent(s, p, c)))]
      else []
  }

  /** A call only appends: one frame, or a pair, numbered on. */
  lemma CallAppends(frames: seq<Frame>, call: Call)
    ensures AfterCall(frames, call) == frames + Written(frames, call)
  {}

  /** A run starts from the empty ledger and applies its calls one after the other. */
  lemma RunAppends(calls: seq<Call>, call: Call)
    ensures AfterAll([]) == []
    ensures AfterAll(calls + [call]) == AfterAll(calls) + Written(AfterAll(calls), call)
  {
    assert (calls + [call])[..|calls|] == calls;
    CallAppends(AfterAll(calls), call);
  }
}
