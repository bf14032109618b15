/** How sessions evolve along a decodable ledger. */
module LedgerHistory {
  import opened Common
  import opened IntentModels
  import opened ProposalLedger
  import opened LedgerInvariant

  function Rank(s: Status): nat { match s case Open => 0 case Proposed => 1 case Closed => 2 }

  /** One session, seen through its latest event, only moves forward. */
  ghost predicate SessionAdvances(before: Event, after: Event) {
    && after.session.id == before.session.id
    && after.session.core == before.session.core
    && Rank(before.session.status) <= Rank(after.session.status)
    && before.at <= after.at
    && before.session.answers <= after.session.answers
    && (!before.session.status.Open? ==> after.session.answers == before.session.answers)
    && (before.session.status.Closed? ==> after == before)
  }

  ghost predicate Advances(a: LedgerState, b: LedgerState) {
    forall sid :: sid in a.latest ==> sid in b.latest && SessionAdvances(a.latest[sid], b.latest[sid])
  }

  /** A transition moves the status by at most one place, and never back. */
  lemma TransitionAdvances(prev: Event, e: Event)
    requires ValidTransition(Some(prev.session), e, Some(prev)) && ValidEvent(e)
    ensures SessionAdvances(prev, e)
    ensures Rank(e.session.status) <= Rank(prev.session.status) + 1
    ensures !prev.session.status.Closed?
  {}

  lemma StepAdvances(st: LedgerState, f: Frame, n: nat)
    requires SessionsInv(st) && Step(st, f, n).Some?
    ensures Advances(st, Step(st, f, n).value)
  {
    if f.payload.ClarificationFrame? && f.payload.event.session.id in st.latest {
      TransitionAdvances(st.latest[f.payload.event.session.id], f.payload.event);
    }
  }

  lemma AdvancesReflexive(a: LedgerState)
    ensures Advances(a, a)
  {}

  lemma AdvancesTransitive(a: LedgerState, b: LedgerState, c: LedgerState)
    requires Advances(a, b) && Advances(b, c)
    ensures Advances(a, c)
  {}

  lemma NextAdvances(frames: seq<Frame>, f: Frame)
    requires Run(frames + [f]).Some?
    ensures Run(frames).Some? && Advances(Run(frames).value, Run(frames + [f]).value)
  {
    RunSnoc(frames, f);
    RunInv(frames);
    StepAdvances(Run(frames).value, f, |frames|);
  }

  /** Along any ledger the decoder runs through, from any earlier point to the end:
      immutable fields never change, the status only moves open, proposed, closed,
      event times never decrease and answers only grow by suffix. */
  lemma {:induction false} SessionsOnlyAdvance(prefix: seq<Frame>, rest: seq<Frame>)
    requires Run(prefix + rest).Some?
    ensures Run(prefix).Some? && Advances(Run(prefix).value, Run(prefix + rest).value)
  {
    if rest == [] {
      assert prefix + rest == prefix;
      AdvancesReflexive(Run(prefix).value);
    } else {
      var front, f := rest[..|rest| - 1], Last(rest);
      assert prefix + rest == (prefix + front) + [f];
      NextAdvances(prefix + front, f);
      SessionsOnlyAdvance(prefix, front);
      AdvancesTransitive(Run(prefix).value, Run(prefix + front).value, Run(prefix + rest).value);
    }
  }

  // ----- Conflicts are not append only

  /** Exactly one transition loses conflicts: proposing from a conflicted session. */
  lemma ConflictsKept(prev: Event, e: Event)
    requires ValidTransition(Some(prev.session), e, Some(prev)) && ValidEvent(e)
    ensures prev.session.conflicts <= e.session.conflicts <==>
            !(e.kind.Proposing? && prev.session.conflicts != [])
  {}

  // A ledger that opens a session, answers it, conflicts with the answer and then
  // proposes without the conflict.

  const QUESTION := Question("q", "d", "ev-q", "agent", 0, Some("ev-c"), true)
  const ANSWER := Answer("q", "human", 1, "ev-a", "d", Some("ev-q"))
  const CONFLICT := Conflict("q", "human", 2, "ev-a", "ev-x", "d", "ev-a")
  const CORE := SessionCore("task", "conv", "ev-r", "ev-c", "agent", 0, 0, [QUESTION])
  const SID := SessionDigest(CORE)
  const SESSION := Session(SID, CORE, [], [], Open, None)
  const CONTENT := ProposalContent("human", 2, 0, [], "", Some(Binding(SID, "task")))
  const PROPOSAL := Proposal(ProposalDigest(CONTENT), CONTENT)
  const OPENED := MakeEvent(SESSION, Opening, "agent", 0, None)
  const ANSWERED := MakeEvent(SESSION.(answers := [ANSWER]), Answering, "human", 1, Some(OPENED.id))
  const CONFLICTED :=
    MakeEvent(SESSION.(answers := [ANSWER], conflicts := [CONFLICT]), Conflicting, "human", 2, Some(ANSWERED.id))
  const PROPOSED :=
    MakeEvent(SESSION.(answers := [ANSWER], status := Proposed), Proposing, "human", 3, Some(CONFLICTED.id),
              Some(PROPOSAL.id))

  ghost function After(events: seq<Event>, pending: Option<(ProposalId, SessionId)>): LedgerState
    requires events != []
  {
    LedgerState(map[], [], map[], events, map[SID := Last(events).session], map[SID := Last(events)], pending)
  }

  lemma ExampleEventsValid()
    ensures ValidEvent(OPENED) && ValidEvent(ANSWERED) && ValidEvent(CONFLICTED) && ValidEvent(PROPOSED)
  {}

  lemma ExampleSteps()
    ensures StepEvent(EMPTY, OPENED) == Some(After([OPENED], None))
    ensures StepEvent(After([OPENED], None), ANSWERED) == Some(After([OPENED, ANSWERED], None))
    ensures StepEvent(After([OPENED, ANSWERED], None), CONFLICTED) == Some(After([OPENED, ANSWERED, CONFLICTED], None))
  {
    assert AcceptedAnswer([ANSWER], "q") == Some(ANSWER);
    assert EMPTY.events + [OPENED] == [OPENED];
    assert EMPTY.sessions[SID := OPENED.session] == map[SID := OPENED.session];
    assert EMPTY.latest[SID := OPENED] == map[SID := OPENED];
    Overwrites([OPENED], ANSWERED);
    Overwrites([OPENED, ANSWERED], CONFLICTED);
    assert [OPENED] + [ANSWERED] == [OPENED, ANSWERED];
    assert [OPENED, ANSWERED] + [CONFLICTED] == [OPENED, ANSWERED, CONFLICTED];
  }

  lemma Overwrites(events: seq<Event>, e: Event)
    requires events != []
    ensures After(events, None).sessions[SID := e.session] == map[SID := e.session]
    ensures After(events, None).latest[SID := e] == map[SID := e]
    ensures Last(events + [e]) == e
  {}

  lemma ExampleProposing()
    ensures StepEvent(After([OPENED, ANSWERED, CONFLICTED], None), PROPOSED)
         == Some(After([OPENED, ANSWERED, CONFLICTED, PROPOSED], Some((PROPOSAL.id, SID))))
  {
    assert ANSWER in PROPOSED.session.answers;
    Overwrites([OPENED, ANSWERED, CONFLICTED], PROPOSED);
    assert [OPENED, ANSWERED, CONFLICTED] + [PROPOSED] == [OPENED, ANSWERED, CONFLICTED, PROPOSED];
  }

  lemma Follow(frames: seq<Frame>, f: Frame, st: LedgerState, st': LedgerState)
    requires Run(frames) == Some(st) && Step(st, f, |frames|) == Some(st')
    ensures Run(frames + [f]) == Some(st')
  {}

  const CONFLICTED_LEDGER :=
    [] + [Frame(0, ClarificationFrame(OPENED))] + [Frame(1, ClarificationFrame(ANSWERED))]
    + [Frame(2, ClarificationFrame(CONFLICTED))]

  lemma ConflictedLedgerRuns()
    ensures Run(CONFLICTED_LEDGER) == Some(After([OPENED, ANSWERED, CONFLICTED], None))
  {
    ExampleEventsValid();
    ExampleSteps();
    var f0: seq<Frame> := [];
    var f1 := f0 + [Frame(0, ClarificationFrame(OPENED))];
    var f2 := f1 + [Frame(1, ClarificationFrame(ANSWERED))];
    Follow(f0, Frame(0, ClarificationFrame(OPENED)), EMPTY, After([OPENED], None));
    Follow(f1, Frame(1, ClarificationFrame(ANSWERED)), After([OPENED], None), After([OPENED, ANSWERED], None));
    Follow(f2, Frame(2, ClarificationFrame(CONFLICTED)),
           After([OPENED, ANSWERED], None), After([OPENED, ANSWERED, CONFLICTED], None));
  }

  const FORGETFUL_LEDGER :=
    CONFLICTED_LEDGER + [Frame(3, ClarificationFrame(PROPOSED))] + [Frame(4, ProposalFrame(PROPOSAL))]

  ghost function ForgetfulState(): LedgerState {
    After([OPENED, ANSWERED, CONFLICTED, PROPOSED], None)
      .(proposals := map[PROPOSAL.id := PROPOSAL], order := [PROPOSAL.id])
  }

  /** The decoder accepts a ledger that forgets a recorded conflict. */
  lemma ConflictForgotten()
    ensures Decode(CONFLICTED_LEDGER) == Some(After([OPENED, ANSWERED, CONFLICTED], None))
    ensures Decode(FORGETFUL_LEDGER) == Some(ForgetfulState())
    ensures Decode(CONFLICTED_LEDGER).value.sessions[SID].conflicts == [CONFLICT]
    ensures Decode(FORGETFUL_LEDGER).value.sessions[SID].conflicts == []
  {
    ConflictedLedgerRuns();
    ExampleEventsValid();
    ExampleProposing();
    var before := After([OPENED, ANSWERED, CONFLICTED], None);
    var mid := After([OPENED, ANSWERED, CONFLICTED, PROPOSED], Some((PROPOSAL.id, SID)));
    var after := ForgetfulState();
    Follow(CONFLICTED_LEDGER, Frame(3, ClarificationFrame(PROPOSED)), before, mid);
    assert mid.proposals[PROPOSAL.id := PROPOSAL] == after.proposals && mid.order + [PROPOSAL.id] == after.order;
    Follow(CONFLICTED_LEDGER + [Frame(3, ClarificationFrame(PROPOSED))], Frame(4, ProposalFrame(PROPOSAL)), mid, after);
  }

  // ----- The evidence chain

  datatype Link = Link(predecessor: Option<Text>, evidenceRef: Text)

  function QuestionLinks(questions: seq<Question>): seq<Link> {
    seq(|questions|, i requires 0 <= i < |questions| => Link(questions[i].predecessor, questions[i].evidenceRef))
  }

  function AnswerLinks(answers: seq<Answer>): seq<Link> {
    seq(|answers|, i requires 0 <= i < |answers| => Link(answers[i].predecessor, answers[i].evidenceRef))
  }

  function Links(s: Session): seq<Link> { QuestionLinks(s.core.questions) + AnswerLinks(s.answers) }

  /** Each link follows the one before it; the first follows `root`. */
  ghost predicate Linear(root: Text, links: seq<Link>) {
    forall k :: 0 <= k < |links| ==>
      links[k].predecessor == Some(LinkBefore(root, links, k))
  }

  function LinkBefore(root: Text, links: seq<Link>, k: nat): Text
    requires k < |links|
  {
    if k == 0 then root else links[k - 1].evidenceRef
  }

  ghost predicate NeverConflicted(st: LedgerState, sid: SessionId) {
    forall e :: e in st.events && e.session.id == sid ==> !e.kind.Conflicting?
  }

  ghost predicate ChainInv(st: LedgerState) {
    forall sid :: sid in st.latest && NeverConflicted(st, sid) ==>
      && st.latest[sid].session.conflicts == []
      && Linear(st.latest[sid].session.core.classificationRef, Links(st.latest[sid].session))
  }

  lemma ConflictsNeedAnswers(s: Session)
    requires ValidSession(s) && s.answers == []
    ensures s.conflicts == []
  {
    assert 0 < |s.conflicts| ==> Answered(s.answers, s.conflicts[0].questionId);
  }

  lemma OpeningLinear(e: Event)
    requires ValidOpening(e)
    ensures Linear(e.session.core.classificationRef, Links(e.session))
  {
    var core := e.session.core;
    assert Links(e.session) == QuestionLinks(core.questions);
    forall k | 0 <= k < |core.questions|
      ensures Links(e.session)[k].predecessor == Some(LinkBefore(core.classificationRef, Links(e.session), k))
    {
      assert QuestionFollows(core, k);
    }
  }

  lemma AnsweringLinear(prev: Session, e: Event)
    requires prev.core.questions != [] && prev.conflicts == [] && prev.core == e.session.core
    requires Linear(prev.core.classificationRef, Links(prev)) && ValidAnswering(prev, e)
    ensures Linear(e.session.core.classificationRef, Links(e.session))
  {
    var last := Last(e.session.answers);
    AnswerSnoc(prev, e.session);
    LastLink(prev);
    LinearSnoc(prev.core.classificationRef, Links(prev), Link(last.predecessor, last.evidenceRef));
  }

  lemma AnswerSnoc(prev: Session, s: Session)
    requires prev.core == s.core && |s.answers| == |prev.answers| + 1 && s.answers[..|s.answers| - 1] == prev.answers
    ensures Links(s) == Links(prev) + [Link(Last(s.answers).predecessor, Last(s.answers).evidenceRef)]
  {
    assert forall k :: 0 <= k < |prev.answers| ==> s.answers[k] == s.answers[..|s.answers| - 1][k];
  }

  lemma LastLink(s: Session)
    requires s.core.questions != []
    ensures Links(s) != [] && Last(Links(s)).evidenceRef ==
            if s.answers == [] then Last(s.core.questions).evidenceRef else Last(s.answers).evidenceRef
  {}

  lemma LinearSnoc(root: Text, links: seq<Link>, link: Link)
    requires links != [] && Linear(root, links) && link.predecessor == Some(Last(links).evidenceRef)
    ensures Linear(root, links + [link])
  {
    forall k | 0 <= k < |links + [link]|
      ensures (links + [link])[k].predecessor == Some(LinkBefore(root, links + [link], k))
    {
      LinkKept(root, links, link, k);
    }
  }

  lemma LinkKept(root: Text, links: seq<Link>, link: Link, k: nat)
    requires links != [] && Linear(root, links) && link.predecessor == Some(Last(links).evidenceRef) && k <= |links|
    ensures (links + [link])[k].predecessor == Some(LinkBefore(root, links + [link], k))
  {
    assert k < |links| ==> links[k].predecessor == Some(LinkBefore(root, links, k));
  }

  lemma StepChain(st: LedgerState, e: Event)
    requires SessionsInv(st) && EventsValid(st) && ChainInv(st) && ValidEvent(e) && StepEvent(st, e).Some?
    ensures ChainInv(StepEvent(st, e).value)
  {
    var st' := StepEvent(st, e).value;
    forall sid | sid in st'.latest && NeverConflicted(st', sid)
      ensures st'.latest[sid].session.conflicts == []
      ensures Linear(st'.latest[sid].session.core.classificationRef, Links(st'.latest[sid].session))
    {
      assert e in st'.events;
      assert forall x :: x in st.events ==> x in st'.events;
      assert NeverConflicted(st, sid);
      if sid == e.session.id { EventChains(st, e); }
    }
  }

  lemma EventChains(st: LedgerState, e: Event)
    requires SessionsInv(st) && EventsValid(st) && ChainInv(st) && ValidEvent(e) && !e.kind.Conflicting?
    requires ValidTransition(Lookup(st.sessions, e.session.id), e, Lookup(st.latest, e.session.id))
    requires NeverConflicted(st, e.session.id)
    ensures e.session.conflicts == [] && Linear(e.session.core.classificationRef, Links(e.session))
  {
    if e.kind.Opening? {
      OpeningLinear(e);
      ConflictsNeedAnswers(e.session);
    } else if e.kind.Answering? {
      AnsweringLinear(st.latest[e.session.id].session, e);
    }
  }

  /** Until a session's first conflict, its questions and answers form one linear
      chain of evidence: classification, questions, answers. */
  lemma {:induction false} EvidenceChain(frames: seq<Frame>, st: LedgerState)
    requires Run(frames) == Some(st)
    ensures ChainInv(st)
  {
    if frames != [] {
      var before := Run(frames[..|frames| - 1]).value;
      EvidenceChain(frames[..|frames| - 1], before);
      RunInv(frames[..|frames| - 1]);
      FrameChain(before, Last(frames), |frames| - 1);
    }
  }

  lemma FrameChain(st: LedgerState, f: Frame, n: nat)
    requires SessionsInv(st) && EventsValid(st) && ChainInv(st) && Step(st, f, n).Some?
    ensures ChainInv(Step(st, f, n).value)
  {
    if f.payload.ClarificationFrame? { StepChain(st, f.payload.event); }
  }
}
