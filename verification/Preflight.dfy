/** The second decoder of the proposal ledger (intent_workflow/preflight.py). */
module Preflight {
  import opened Common
  import opened IntentModels
  import opened ProposalLedger

  datatype Parsed = Parsed(proposals: map<ProposalId, Proposal>, order: seq<ProposalId>,
                           decisions: map<ProposalId, Decision>)

  function ParseStep(st: Parsed, f: Frame, expected: nat): Option<Parsed> {
    if !ValidPayload(f.payload) || f.sequence != expected then None
    else match f.payload
      case ClarificationFrame(_) => Some(st)
      case ProposalFrame(p) =>
        if p.id in st.proposals then None
        else Some(st.(proposals := st.proposals[p.id := p], order := st.order + [p.id]))
      case DecisionFrame(d) =>
        var pid := d.content.proposalId;
        if pid !in st.proposals || !DecisionNames(d, st.proposals[pid]) || pid in st.decisions then None
        else Some(st.(decisions := st.decisions[pid := d]))
  }

  function ParseRun(frames: seq<Frame>): Option<Parsed> {
    if frames == [] then Some(Parsed(map[], [], map[]))
    else match ParseRun(frames[..|frames| - 1])
      case None => None
      case Some(st) => ParseStep(st, Last(frames), |frames| - 1)
  }

  /** The undecided proposals in insertion order. */
  function Undecided(order: seq<ProposalId>, proposals: map<ProposalId, Proposal>,
                     decisions: map<ProposalId, Decision>): (r: seq<Proposal>)
    requires forall pid :: pid in order ==> pid in proposals
  {
    if order == [] then []
    else Undecided(order[..|order| - 1], proposals, decisions)
         + (if Last(order) in decisions then [] else [proposals[Last(order)]])
  }

  lemma {:induction false} OrderKnown(frames: seq<Frame>)
    requires ParseRun(frames).Some?
    ensures forall pid :: pid in ParseRun(frames).value.order ==> pid in ParseRun(frames).value.proposals
  {
    if frames != [] { OrderKnown(frames[..|frames| - 1]); }
  }

  lemma {:induction false} ParsePrefix(frames: seq<Frame>, n: nat)
    requires n <= |frames| && ParseRun(frames).Some?
    ensures ParseRun(frames[..n]).Some?
    decreases |frames|
  {
    if n == |frames| {
      assert frames[..n] == frames;
    } else {
      ParsePrefix(frames[..|frames| - 1], n);
      assert frames[..|frames| - 1][..n] == frames[..n];
    }
  }

  /** `_parse_proposals`; None is the ValueError. */
  method ParseProposals(frames: seq<Frame>) returns (result: Option<seq<Proposal>>)
    ensures result.Some? <==> ParseRun(frames).Some?
    ensures result.Some? ==>
              var st := ParseRun(frames).value;
              && (forall pid :: pid in st.order ==> pid in st.proposals)
              && result.value == Undecided(st.order, st.proposals, st.decisions)
  {
    var st := Parsed(map[], [], map[]);
    var i := 0;
    while i < |frames|
      invariant 0 <= i <= |frames|
      invariant ParseRun(frames[..i]) == Some(st)
    {
      var f := frames[i];
      assert frames[..i + 1][..i] == frames[..i];
      assert ParseRun(frames[..i + 1]) == ParseStep(st, f, i);
      if ParseRun(frames).Some? {
        ParsePrefix(frames, i + 1);
      }
      if !ValidPayload(f.payload) || f.sequence != i {
        return None;
      }
      if f.payload.ProposalFrame? {
        var p := f.payload.proposal;
        if p.id in st.proposals {
          return None;
        }
        st := st.(proposals := st.proposals[p.id := p], order := st.order + [p.id]);
      } else if f.payload.DecisionFrame? {
        var d := f.payload.decision;
        var pid := d.content.proposalId;
        if pid !in st.proposals || !DecisionNames(d, st.proposals[pid]) || pid in st.decisions {
          return None;
        }
        st := st.(decisions := st.decisions[pid := d]);
      }
      i := i + 1;
    }
    assert frames[..i] == frames;
    OrderKnown(frames);
    var undecided: seq<Proposal> := [];
    var k := 0;
    while k < |st.order|
      invariant 0 <= k <= |st.order|
      invariant undecided == Undecided(st.order[..k], st.proposals, st.decisions)
    {
      assert st.order[..k + 1][..k] == st.order[..k];
      if st.order[k] !in st.decisions {
        undecided := undecided + [st.proposals[st.order[k]]];
      }
      k := k + 1;
    }
    assert st.order[..k] == st.order;
    return Some(undecided);
  }

  /** On every frame sequence the proposal store runs through, the two decoders hold the
      same proposals in the same order and the same decisions. */
  lemma {:induction false} ParseFollowsRun(frames: seq<Frame>)
    requires Run(frames).Some?
    ensures var st := Run(frames).value;
            ParseRun(frames) == Some(Parsed(st.proposals, st.order, st.decisions))
  {
    if frames != [] {
      ParseFollowsRun(frames[..|frames| - 1]);
    }
  }

  /** The proposals of a ledger in frame order. */
  function ProposalsOf(frames: seq<Frame>): seq<Proposal> {
    if frames == [] then []
    else ProposalsOf(frames[..|frames| - 1])
         + (if Last(frames).payload.ProposalFrame? then [Last(frames).payload.proposal] else [])
  }

  ghost predicate Ordered(st: LedgerState, ps: seq<Proposal>) {
    && |st.order| == |ps|
    && forall i :: 0 <= i < |ps| ==>
         st.order[i] == ps[i].id && st.order[i] in st.proposals && st.proposals[st.order[i]] == ps[i]
  }

  lemma OrderedStep(st: LedgerState, f: Frame, n: nat, ps: seq<Proposal>)
    requires Ordered(st, ps) && Step(st, f, n).Some?
    ensures Ordered(Step(st, f, n).value, ps + (if f.payload.ProposalFrame? then [f.payload.proposal] else []))
  {}

  lemma {:induction false} OrderIsFrameOrder(frames: seq<Frame>)
    requires Run(frames).Some?
    ensures Ordered(Run(frames).value, ProposalsOf(frames))
  {
    if frames != [] {
      var front := frames[..|frames| - 1];
      OrderIsFrameOrder(front);
      OrderedStep(Run(front).value, Last(frames), |front|, ProposalsOf(front));
    }
  }

  function KeepUndecided(ps: seq<Proposal>, decisions: map<ProposalId, Decision>): (r: seq<Proposal>) {
    if ps == [] then []
    else KeepUndecided(ps[..|ps| - 1], decisions) + (if Last(ps).id in decisions then [] else [Last(ps)])
  }

  lemma {:induction false} UndecidedIsFilter(order: seq<ProposalId>, proposals: map<ProposalId, Proposal>,
                                             decisions: map<ProposalId, Decision>, ps: seq<Proposal>)
    requires |order| == |ps|
    requires forall i :: 0 <= i < |order| ==>
               order[i] in proposals && order[i] == ps[i].id && proposals[order[i]] == ps[i]
    ensures forall pid :: pid in order ==> pid in proposals
    ensures Undecided(order, proposals, decisions) == KeepUndecided(ps, decisions)
  {
    if order != [] {
      UndecidedIsFilter(order[..|order| - 1], proposals, decisions, ps[..|ps| - 1]);
    }
  }

  /** The two ledger decoders agree: a ledger the store accepts is accepted here, with
      exactly its undecided proposals, in frame order. */
  lemma DecodersAgree(frames: seq<Frame>, st: LedgerState)
    requires Decode(frames) == Some(st)
    ensures ParseRun(frames) == Some(Parsed(st.proposals, st.order, st.decisions))
    ensures forall pid :: pid in st.order ==> pid in st.proposals
    ensures Undecided(st.order, st.proposals, st.decisions) == KeepUndecided(ProposalsOf(frames), st.decisions)
  {
    ParseFollowsRun(frames);
    OrderIsFrameOrder(frames);
    UndecidedIsFilter(st.order, st.proposals, st.decisions, ProposalsOf(frames));
  }

  // ----- What is accepted, over frames

  predicate Proposes(f: Frame, pid: ProposalId) { f.payload.ProposalFrame? && f.payload.proposal.id == pid }

  predicate Decides(f: Frame, pid: ProposalId) {
    f.payload.DecisionFrame? && f.payload.decision.content.proposalId == pid
  }

  /** Frame m proposes what the decision names. */
  ghost predicate Names(d: Decision, f: Frame) {
    && f.payload.ProposalFrame? && f.payload.proposal.id == d.content.proposalId
    && d.content.proposalDigest == f.payload.proposal.id && d.content.baseline == f.payload.proposal.content.baseline
  }

  /** Frame n is numbered n, proposes something new, or is the first decision on an earlier proposal. */
  ghost predicate Fits(frames: seq<Frame>, n: int)
    requires 0 <= n < |frames|
  {
    var f := frames[n];
    && ValidPayload(f.payload) && f.sequence == n
    && (f.payload.ProposalFrame? ==> forall m :: 0 <= m < n ==> !Proposes(frames[m], f.payload.proposal.id))
    && (f.payload.DecisionFrame? ==>
          && (exists m :: 0 <= m < n && Names(f.payload.decision, frames[m]))
          && (forall m :: 0 <= m < n ==> !Decides(frames[m], f.payload.decision.content.proposalId)))
  }

  lemma {:induction false} ProposedExactly(frames: seq<Frame>, pid: ProposalId)
    requires ParseRun(frames).Some?
    ensures var st := ParseRun(frames).value;
            && (pid in st.proposals <==> exists m :: 0 <= m < |frames| && Proposes(frames[m], pid))
            && (forall m :: 0 <= m < |frames| && Proposes(frames[m], pid) ==>
                  st.proposals[pid] == frames[m].payload.proposal)
  {
    if frames != [] {
      var n := |frames| - 1;
      ProposedExactly(frames[..n], pid);
      forall m | 0 <= m < n ensures frames[..n][m] == frames[m] {}
      if m :| 0 <= m < n && Proposes(frames[m], pid) { assert Proposes(frames[..n][m], pid); }
      if m :| 0 <= m < n && Proposes(frames[..n][m], pid) { assert Proposes(frames[m], pid); }
      assert frames[n] == Last(frames);
    }
  }

  lemma {:induction false} DecidedExactly(frames: seq<Frame>, pid: ProposalId)
    requires ParseRun(frames).Some?
    ensures pid in ParseRun(frames).value.decisions <==> exists m :: 0 <= m < |frames| && Decides(frames[m], pid)
  {
    if frames != [] {
      var n := |frames| - 1;
      DecidedExactly(frames[..n], pid);
      forall m | 0 <= m < n ensures frames[..n][m] == frames[m] {}
      if m :| 0 <= m < n && Decides(frames[m], pid) { assert Decides(frames[..n][m], pid); }
      if m :| 0 <= m < n && Decides(frames[..n][m], pid) { assert Decides(frames[m], pid); }
      assert frames[n] == Last(frames);
    }
  }

  lemma FrameFits(frames: seq<Frame>)
    requires frames != [] && ParseRun(frames[..|frames| - 1]).Some?
    ensures ParseRun(frames).Some? <==> Fits(frames, |frames| - 1)
  {
    var n := |frames| - 1;
    var f := frames[n];
    forall m | 0 <= m < n ensures frames[..n][m] == frames[m] {}
    if f.payload.ProposalFrame? { ProposedExactly(frames[..n], f.payload.proposal.id); }
    if f.payload.DecisionFrame? { DecisionFits(frames[..n], f.payload.decision); }
  }

  lemma DecisionFits(frames: seq<Frame>, d: Decision)
    requires ParseRun(frames).Some?
    ensures var st, pid := ParseRun(frames).value, d.content.proposalId;
            && (pid in st.proposals && DecisionNames(d, st.proposals[pid]) <==>
                  exists m :: 0 <= m < |frames| && Names(d, frames[m]))
            && (pid in st.decisions <==> exists m :: 0 <= m < |frames| && Decides(frames[m], pid))
  {
    var st, pid := ParseRun(frames).value, d.content.proposalId;
    ProposedExactly(frames, pid);
    DecidedExactly(frames, pid);
    if m :| 0 <= m < |frames| && Names(d, frames[m]) { assert Proposes(frames[m], pid); }
    if pid in st.proposals && DecisionNames(d, st.proposals[pid]) {
      var m :| 0 <= m < |frames| && Proposes(frames[m], pid);
      assert Names(d, frames[m]);
    }
  }

  /** Preflight accepts a ledger exactly when each of its frames fits the frames before it. */
  lemma {:induction false} ParsesExactly(frames: seq<Frame>)
    ensures ParseRun(frames).Some? <==> forall n :: 0 <= n < |frames| ==> Fits(frames, n)
  {
    if frames != [] {
      var k := |frames| - 1;
      ParsesExactly(frames[..k]);
      forall n | 0 <= n < k ensures Fits(frames, n) <==> Fits(frames[..k], n) { FitsPrefix(frames, n); }
      if ParseRun(frames[..k]).Some? { FrameFits(frames); }
    }
  }

  lemma FitsPrefix(frames: seq<Frame>, n: int)
    requires 0 <= n < |frames| - 1
    ensures Fits(frames, n) <==> Fits(frames[..|frames| - 1], n)
  {
    var init := frames[..|frames| - 1];
    forall m | 0 <= m <= n ensures init[m] == frames[m] {}
    if frames[n].payload.DecisionFrame? {
      var d := frames[n].payload.decision;
      if m :| 0 <= m < n && Names(d, frames[m]) { assert Names(d, init[m]); }
      if m :| 0 <= m < n && Names(d, init[m]) { assert Names(d, frames[m]); }
    }
  }

  ghost predicate InOrder(st: Parsed, ps: seq<Proposal>) {
    && |st.order| == |ps|
    && forall i :: 0 <= i < |ps| ==>
         st.order[i] in st.proposals && st.order[i] == ps[i].id && st.proposals[st.order[i]] == ps[i]
  }

  lemma {:induction false} ParsedInOrder(frames: seq<Frame>)
    requires ParseRun(frames).Some?
    ensures InOrder(ParseRun(frames).value, ProposalsOf(frames))
  {
    if frames != [] {
      var init := frames[..|frames| - 1];
      ParsedInOrder(init);
      InOrderSnoc(ParseRun(init).value, Last(frames), |init|, ProposalsOf(init));
    }
  }

  lemma InOrderSnoc(st: Parsed, f: Frame, n: nat, ps: seq<Proposal>)
    requires InOrder(st, ps) && ParseStep(st, f, n).Some?
    ensures InOrder(ParseStep(st, f, n).value, ps + (if f.payload.ProposalFrame? then [f.payload.proposal] else []))
  {}

  lemma {:induction false} KeptExactly(ps: seq<Proposal>, decisions: map<ProposalId, Decision>, p: Proposal)
    ensures p in KeepUndecided(ps, decisions) <==> p in ps && p.id !in decisions
  {
    if ps != [] {
      KeptExactly(ps[..|ps| - 1], decisions, p);
      assert ps == ps[..|ps| - 1] + [Last(ps)];
    }
  }

  /** Its result: the proposals of the ledger, in frame order, that no decision names. */
  lemma UndecidedExactly(frames: seq<Frame>, p: Proposal)
    requires ParseRun(frames).Some?
    ensures var st := ParseRun(frames).value;
            && (forall pid :: pid in st.order ==> pid in st.proposals)
            && Undecided(st.order, st.proposals, st.decisions) == KeepUndecided(ProposalsOf(frames), st.decisions)
            && (p in Undecided(st.order, st.proposals, st.decisions) <==>
                  p in ProposalsOf(frames) && forall m :: 0 <= m < |frames| ==> !Decides(frames[m], p.id))
  {
    var st := ParseRun(frames).value;
    ParsedInOrder(frames);
    UndecidedIsFilter(st.order, st.proposals, st.decisions, ProposalsOf(frames));
    KeptExactly(ProposalsOf(frames), st.decisions, p);
    DecidedExactly(frames, p.id);
  }
}
