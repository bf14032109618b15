/** Scheduled assurance without a reasoner (intent_workflow/assurance.py `detect`). */
module Assurance {
  import opened Common
  import opened Collections
  import opened Ranking
  import opened ContextGraph
  import opened Chronology
  import opened Detectors
  import opened Selection
  import Types = ContextPack

  datatype Status = Active | Provisional | Inactive

  datatype Relation = ImplementedBy | VerifiedBy | ContradictsWith | OtherRelation

  datatype GraphNode = GraphNode(id: nat, kind: Types.NodeType, title: Text, status: Status, mode: Option<SourceMode>,
                                 confidence: Option<real>, refs: seq<nat>, modifiedAt: Time)

  datatype GraphEdge = GraphEdge(id: nat, relation: Relation, link: Edge)

  datatype Snapshot = Snapshot(nodes: seq<GraphNode>, edges: seq<GraphEdge>, records: seq<Record>,
                               ingestions: seq<Ingestion>)

  /** What a later run sees of a reconciliation case. */
  datatype CaseKey = CaseKey(subject: nat, fingerprint: nat)

  predicate IsIntent(t: Types.NodeType) {
    t.Context? || t.Need? || t.ProductIntent? || t.DesiredOutcome? || t.Assumption? || t.Principle? || t.Constraint?
  }

  predicate IsImplementation(t: Types.NodeType) {
    t.CodeModule? || t.File? || t.Symbol? || t.Endpoint? || t.Schema? || t.BuildArtifact? || t.Deployment?
  }

  // ----- What the actor sees

  /** The record behind an identifier. */
  function RecordById(records: seq<Record>): map<nat, Record> { ById(records, (r: Record) => r.id) }

  /** Every version of the record's source object is readable. */
  predicate ChainAllowed(r: Record, records: seq<Record>, actor: Text) {
    forall i :: 0 <= i < |records| && SameObject(records[i], r) ==> Allowed(records[i], actor)
  }

  function Resolve(refs: seq<nat>, byId: map<nat, Record>): seq<Record>
    requires forall i :: 0 <= i < |refs| ==> refs[i] in byId
  {
    seq(|refs|, i requires 0 <= i < |refs| => byId[refs[i]])
  }

  /** `_side`: the evidence side of a node, or None when any of it is missing or unreadable. */
  function SideOf(n: GraphNode, s: Snapshot, actor: Text): (side: Option<Side>)
    ensures side.Some? ==> forall r :: r in side.value.refs ==>
              r in RecordById(s.records) && Allowed(RecordById(s.records)[r], actor)
  {
    var byId := RecordById(s.records);
    if n.refs == [] || n.mode == None || n.confidence == None
       || !(forall i :: 0 <= i < |n.refs| ==> n.refs[i] in byId) then None else
      var resolved := Resolve(n.refs, byId);
      if || !(forall i :: 0 <= i < |resolved| ==> ChainAllowed(resolved[i], s.records, actor))
         || !(forall i :: 0 <= i < |resolved| ==> Allowed(resolved[i], actor))
         || Authors(resolved) == {} then None else
        assert forall i :: 0 <= i < |n.refs| ==> resolved[i] == byId[n.refs[i]];
        var refs := set i | 0 <= i < |n.refs| :: n.refs[i];
        Some(Side(n.title, refs, LatestSeen(resolved), Authors(resolved), n.mode.value,
                  forall i :: 0 <= i < |resolved| ==> Current(resolved[i], s.ingestions)))
  }

  datatype Seen = Seen(node: GraphNode, side: Side)

  /** The readable part of the snapshot. */
  datatype View = View(nodes: map<nat, Seen>, edges: seq<GraphEdge>, linked: Adjacency, obscured: set<nat>)

  function LiveNodes(s: Snapshot): map<nat, GraphNode> {
    ById(Keep(s.nodes, (n: GraphNode) => n.status != Inactive), (n: GraphNode) => n.id)
  }

  function SeenNodes(s: Snapshot, actor: Text): map<nat, Seen> {
    var live := LiveNodes(s);
    map n | n in live && SideOf(live[n], s, actor).Some? :: Seen(live[n], SideOf(live[n], s, actor).value)
  }

  function Links(edges: seq<GraphEdge>): seq<Edge> { seq(|edges|, i requires 0 <= i < |edges| => edges[i].link) }

  /** A seen node with an active edge to a live node that is not seen. */
  predicate Obscured(s: Snapshot, live: set<nat>, seen: set<nat>, n: nat) {
    n in seen && exists m :: m in live && m !in seen && Adjacent(Links(s.edges), live, n, m)
  }

  function ViewOf(s: Snapshot, actor: Text): View {
    var live := LiveNodes(s).Keys;
    var nodes := SeenNodes(s, actor);
    View(nodes,
         Keep(s.edges, (e: GraphEdge) => e.link.active && e.link.source in nodes && e.link.target in nodes),
         Neighbours(Links(s.edges), nodes.Keys),
         set n | n in nodes && Obscured(s, live, nodes.Keys, n))
  }

  // ----- Findings

  /** What a node may be required to be linked to. */
  datatype Sought = ARequirement | AnIntent | AReason

  predicate Answers(k: Sought, t: Types.NodeType) {
    match k
    case ARequirement => t.Requirement?
    case AnIntent => IsIntent(t)
    case AReason => IsIntent(t) || t.Requirement? || t.Decision?
  }

  predicate LinkedTo(v: View, n: nat, k: Sought) {
    n in v.linked && exists m :: m in v.linked[n] && m in v.nodes && Answers(k, v.nodes[m].node.kind)
  }

  predicate Open(v: View, n: nat) { n in v.nodes && n !in v.obscured }

  predicate CurrentNode(v: View, n: nat) { n in v.nodes && v.nodes[n].side.current }

  function Finding(hash: Hash, v: View, subject: nat, affected: seq<nat>, d: Detector): Observation
    requires forall i :: 0 <= i < |affected| ==> affected[i] in v.nodes
  {
    Observe(hash, subject, set i | 0 <= i < |affected| :: affected[i], d,
            seq(|affected|, i requires 0 <= i < |affected| => v.nodes[affected[i]].side))
  }

  function FindingWhen(hash: Hash, v: View, n: nat, d: Detector, c: bool): seq<Observation>
    requires n in v.nodes
  {
    if c then [Finding(hash, v, n, [n], d)] else []
  }

  /** The first loop over nodes. */
  function GapFindings(hash: Hash, v: View, n: nat): seq<Observation> {
    if !Open(v, n) then [] else
      var kind := v.nodes[n].node.kind;
      FindingWhen(hash, v, n, IntentWithoutRequirement,
         IsIntent(kind) && CurrentNode(v, n) && !LinkedTo(v, n, ARequirement))
      + FindingWhen(hash, v, n, RequirementWithoutIntent,
           kind.Requirement? && CurrentNode(v, n) && !LinkedTo(v, n, AnIntent))
      + FindingWhen(hash, v, n, UndocumentedCode,
           IsImplementation(kind) && CurrentNode(v, n)
           && !LinkedTo(v, n, AReason))
  }

  function EdgesById(v: View): map<nat, GraphEdge> { ById(v.edges, (e: GraphEdge) => e.id) }

  /** The loop over edges. */
  function EdgeFindings(hash: Hash, v: View, id: nat): seq<Observation> {
    if id !in EdgesById(v) then [] else
      var e := EdgesById(v)[id];
      var l, r := e.link.source, e.link.target;
      if !Open(v, l) || !Open(v, r) then [] else
        var left, right := v.nodes[l], v.nodes[r];
        (if && e.relation == ImplementedBy && left.node.kind.Requirement? && IsImplementation(right.node.kind)
            && left.node.modifiedAt > right.node.modifiedAt && left.side.current && right.side.current
         then [Finding(hash, v, l, [l, r], CodeLag)] else [])
        + (if && e.relation == ContradictsWith && left.node.mode == Some(Explicit) && right.node.mode == Some(Explicit)
              && left.side.current && right.side.current && left.side.authors != right.side.authors
           then [Finding(hash, v, l, [l, r], ConflictingSources)] else [])
  }

  /** Targets of the requirement's edges with a relation, in graph order. */
  function Targets(v: View, edges: seq<GraphEdge>, n: nat, relation: Relation,
                   kinds: Types.NodeType -> bool): (r: seq<nat>)
    ensures forall i :: 0 <= i < |r| ==> r[i] in v.nodes
  {
    if edges == [] then [] else
      var last := edges[|edges| - 1];
      Targets(v, edges[..|edges| - 1], n, relation, kinds)
      + (if && last.link.source == n && last.relation == relation && last.link.target in v.nodes
            && kinds(v.nodes[last.link.target].node.kind)
         then [last.link.target] else [])
  }

  function LastModified(v: View, ids: seq<nat>): Time
    requires ids != [] && forall i :: 0 <= i < |ids| ==> ids[i] in v.nodes
  {
    if |ids| == 1 then v.nodes[ids[0]].node.modifiedAt else
      var before := LastModified(v, ids[..|ids| - 1]);
      var last := v.nodes[ids[|ids| - 1]].node.modifiedAt;
      if last > before then last else before
  }

  /** The loop over requirements. */
  function TestFindings(hash: Hash, v: View, n: nat): seq<Observation> {
    if !Open(v, n) || !v.nodes[n].node.kind.Requirement? then [] else
      var code := Targets(v, v.edges, n, ImplementedBy, (t: Types.NodeType) => IsImplementation(t));
      var tests := Targets(v, v.edges, n, VerifiedBy, (t: Types.NodeType) => t.Test?);
      var affected := [n] + code + tests;
      if code == [] || tests == [] || !(forall i :: 0 <= i < |affected| ==> CurrentNode(v, affected[i]))
         || LastModified(v, code) <= LastModified(v, tests)
      then [] else [Finding(hash, v, n, affected, TestLag)]
  }

  function Implementations(v: View): set<nat> { set n | n in v.nodes && IsImplementation(v.nodes[n].node.kind) }

  /** The last loop over nodes; `reaches` is `_reaches_implementation`. */
  function LateFindings(hash: Hash, v: View, n: nat): seq<Observation> {
    if !Open(v, n) then [] else
      var node := v.nodes[n].node;
      FindingWhen(hash, v, n, RelevantProvisionalIntent,
         && IsIntent(node.kind) && (node.status == Provisional || node.mode == Some(Inferred)) && CurrentNode(v, n)
         && (TwoHops(v.linked, {n}) - {n}) * Implementations(v) != {})
      + FindingWhen(hash, v, n, StaleSourceEvidence, !CurrentNode(v, n))
  }

  function FlatMap(ids: seq<nat>, f: nat -> seq<Observation>): seq<Observation> {
    if ids == [] then [] else FlatMap(ids[..|ids| - 1], f) + f(ids[|ids| - 1])
  }

  function InOrder(ids: set<nat>): seq<nat> { Ranked(ids, map[]) }

  function Findings(hash: Hash, v: View): seq<Observation> {
    var nodes, edges := InOrder(v.nodes.Keys), InOrder(EdgesById(v).Keys);
    FlatMap(nodes, (n: nat) => GapFindings(hash, v, n))
    + FlatMap(edges, (e: nat) => EdgeFindings(hash, v, e))
    + FlatMap(nodes, (n: nat) => TestFindings(hash, v, n))
    + FlatMap(nodes, (n: nat) => LateFindings(hash, v, n))
  }

  /** The early return: two records with one identifier, or two ingestions with one position. */
  predicate WellFormed(s: Snapshot) {
    && |set i | 0 <= i < |s.records| :: s.records[i].id| == |s.records|
    && |set i | 0 <= i < |s.ingestions| :: (s.ingestions[i].connectorId, s.ingestions[i].sequence)| == |s.ingestions|
  }

  function Candidates(hash: Hash, s: Snapshot, actor: Text): seq<Observation> {
    if WellFormed(s) then Findings(hash, ViewOf(s, actor)) else []
  }

  predicate IsNew(o: Observation, cases: seq<CaseKey>) {
    && (forall i :: 0 <= i < |cases| ==> cases[i].fingerprint != o.fingerprint)
    && (forall i :: 0 <= i < |cases| ==> cases[i].subject != o.subject)
  }

  // ----- The run

  method Gather(ids: seq<nat>, f: nat -> seq<Observation>) returns (found: seq<Observation>)
    ensures found == FlatMap(ids, f)
  {
    found := [];
    var k := 0;
    while k < |ids|
      invariant 0 <= k <= |ids| && found == FlatMap(ids[..k], f)
    {
      assert ids[..k + 1][..k] == ids[..k];
      found := found + f(ids[k]);
      k := k + 1;
    }
    assert ids[..k] == ids;
  }

  /** The last loop, with the search for an implementation within two hops. */
  method GatherLate(hash: Hash, v: View, ids: seq<nat>) returns (found: seq<Observation>)
    requires Closed(v.linked) && v.linked.Keys == v.nodes.Keys && forall i :: 0 <= i < |ids| ==> ids[i] in v.nodes
    ensures found == FlatMap(ids, (n: nat) => LateFindings(hash, v, n))
  {
    var f := (n: nat) => LateFindings(hash, v, n);
    found := [];
    var k := 0;
    while k < |ids|
      invariant 0 <= k <= |ids| && found == FlatMap(ids[..k], f)
    {
      assert ids[..k + 1][..k] == ids[..k];
      var late := LateOf(hash, v, ids[k]);
      assert late == f(ids[k]);
      found := found + late;
      k := k + 1;
    }
    assert ids[..k] == ids;
  }

  method LateOf(hash: Hash, v: View, n: nat) returns (found: seq<Observation>)
    requires Closed(v.linked) && v.linked.Keys == v.nodes.Keys && n in v.nodes
    ensures found == LateFindings(hash, v, n)
  {
    if n in v.obscured { return []; }
    var node := v.nodes[n].node;
    var tentative := node.status == Provisional || node.mode == Some(Inferred);
    var relevant := IsIntent(node.kind) && tentative && CurrentNode(v, n);
    if relevant {
      relevant := ReachesImplementation(n, v.linked, Implementations(v));
    }
    found := FindingWhen(hash, v, n, RelevantProvisionalIntent, relevant)
             + FindingWhen(hash, v, n, StaleSourceEvidence, !CurrentNode(v, n));
  }

  /** Every observation fingerprints its own facts. */
  ghost predicate Hashed(hash: Hash, xs: seq<Observation>) { forall o :: o in xs ==> o.fingerprint == hash(FactsOf(o)) }

  lemma {:induction false} FlatMapHashed(hash: Hash, ids: seq<nat>, f: nat -> seq<Observation>)
    requires forall n :: Hashed(hash, f(n))
    ensures Hashed(hash, FlatMap(ids, f))
  {
    if ids != [] { FlatMapHashed(hash, ids[..|ids| - 1], f); }
  }

  lemma NodeHashed(hash: Hash, v: View, n: nat)
    ensures Hashed(hash, GapFindings(hash, v, n)) && Hashed(hash, LateFindings(hash, v, n))
  {}

  lemma EdgeHashed(hash: Hash, v: View, e: nat)
    ensures Hashed(hash, EdgeFindings(hash, v, e))
  {}

  lemma TestHashed(hash: Hash, v: View, n: nat)
    ensures Hashed(hash, TestFindings(hash, v, n))
  {}

  lemma FindingsHashed(hash: Hash, v: View)
    ensures Hashed(hash, Findings(hash, v))
  {
    var nodes, edges := InOrder(v.nodes.Keys), InOrder(EdgesById(v).Keys);
    forall n
      ensures Hashed(hash, GapFindings(hash, v, n)) && Hashed(hash, LateFindings(hash, v, n))
    {
      NodeHashed(hash, v, n);
    }
    forall e ensures Hashed(hash, EdgeFindings(hash, v, e)) { EdgeHashed(hash, v, e); }
    forall n ensures Hashed(hash, TestFindings(hash, v, n)) { TestHashed(hash, v, n); }
    FlatMapHashed(hash, nodes, (n: nat) => GapFindings(hash, v, n));
    FlatMapHashed(hash, edges, (e: nat) => EdgeFindings(hash, v, e));
    FlatMapHashed(hash, nodes, (n: nat) => TestFindings(hash, v, n));
    FlatMapHashed(hash, nodes, (n: nat) => LateFindings(hash, v, n));
  }

  lemma CandidatesIdentified(hash: Hash, s: Snapshot, actor: Text)
    requires Injective(hash)
    ensures Identified(Candidates(hash, s, actor))
  {
    FindingsHashed(hash, ViewOf(s, actor));
  }

  /** `detect` without a reasoner: the selected findings that no existing case covers. */
  method DetectAssurance(hash: Hash, s: Snapshot, actor: Text, cases: seq<CaseKey>) returns (out: seq<Observation>)
    requires Injective(hash)
    ensures IsReport(hash, s, actor, cases, out)
  {
    var candidates: seq<Observation> := [];
    if WellFormed(s) {
      var v := ViewOf(s, actor);
      var nodes := InOrder(v.nodes.Keys);
      var gaps := Gather(nodes, (n: nat) => GapFindings(hash, v, n));
      var onEdges := Gather(InOrder(EdgesById(v).Keys), (e: nat) => EdgeFindings(hash, v, e));
      var onTests := Gather(nodes, (n: nat) => TestFindings(hash, v, n));
      var late := GatherLate(hash, v, nodes);
      candidates := gaps + onEdges + onTests + late;
    }
    CandidatesIdentified(hash, s, actor);
    var selected := SelectDriftObservations(candidates);
    out := Keep(selected, (o: Observation) => IsNew(o, cases));
    assert IsSelection(Candidates(hash, s, actor), selected) && out == Unreported(selected, cases);
  }

  function Unreported(selected: seq<Observation>, cases: seq<CaseKey>): seq<Observation> {
    Keep(selected, (o: Observation) => IsNew(o, cases))
  }

  ghost predicate IsReport(hash: Hash, s: Snapshot, actor: Text, cases: seq<CaseKey>, out: seq<Observation>) {
    exists selected :: IsSelection(Candidates(hash, s, actor), selected) && out == Unreported(selected, cases)
  }

  // ----- Fixpoint

  /** The case a returned observation becomes. */
  function CaseOf(o: Observation): CaseKey { CaseKey(o.subject, o.fingerprint) }

  /** Exactly which observations are reported. */
  lemma ReportedExactly(hash: Hash, s: Snapshot, actor: Text, cases: seq<CaseKey>, out: seq<Observation>,
                        o: Observation)
    requires IsReport(hash, s, actor, cases, out)
    ensures o in out <==> Best(Candidates(hash, s, actor), o.subject) == Some(o) && IsNew(o, cases)
  {
    var selected :| IsSelection(Candidates(hash, s, actor), selected) && out == Unreported(selected, cases);
    SelectedMembers(Candidates(hash, s, actor), selected, o);
    KeepMembers(selected, (o: Observation) => IsNew(o, cases), o);
  }

  lemma {:induction false} KeepOnePerSubject(xs: seq<Observation>, keep: Observation -> bool)
    requires OnePerSubject(xs)
    ensures OnePerSubject(Keep(xs, keep))
  {
    if xs != [] {
      var init, last := xs[..|xs| - 1], xs[|xs| - 1];
      KeepOnePerSubject(init, keep);
      var kept := Keep(init, keep);
      forall i | 0 <= i < |kept| ensures kept[i].subject != last.subject {
        KeepMembers(init, keep, kept[i]);
        var k :| 0 <= k < |init| && init[k] == kept[i];
        assert xs[k] == kept[i];
      }
    }
  }

  /** Each subject is reported at most once, and only when no case is about it. */
  lemma ReportedOnce(hash: Hash, s: Snapshot, actor: Text, cases: seq<CaseKey>, out: seq<Observation>)
    requires IsReport(hash, s, actor, cases, out)
    ensures OnePerSubject(out)
    ensures forall o, i :: o in out && 0 <= i < |cases| ==> cases[i].subject != o.subject
  {
    var selected :| IsSelection(Candidates(hash, s, actor), selected) && out == Unreported(selected, cases);
    KeepOnePerSubject(selected, (o: Observation) => IsNew(o, cases));
    forall o | o in out ensures IsNew(o, cases) { ReportedExactly(hash, s, actor, cases, out, o); }
  }

  /** Re-running once every reported observation has become a case reports nothing. */
  lemma Fixpoint(hash: Hash, s: Snapshot, actor: Text, cases: seq<CaseKey>, out: seq<Observation>,
                 later: seq<CaseKey>, again: seq<Observation>)
    requires IsReport(hash, s, actor, cases, out) && IsReport(hash, s, actor, later, again)
    requires forall c :: c in cases ==> c in later
    requires forall o :: o in out ==> CaseOf(o) in later
    ensures again == []
  {
    assert forall i :: 0 <= i < |cases| ==> cases[i] in later;
    if again != [] {
      var o := again[0];
      assert o in again;
      ReportedExactly(hash, s, actor, cases, out, o);
      ReportedExactly(hash, s, actor, later, again, o);
    }
  }

  /** No gap is lost: a subject with a finding is reported now or a case already covers it. */
  lemma EveryGapSurfaces(hash: Hash, s: Snapshot, actor: Text, cases: seq<CaseKey>, out: seq<Observation>,
                         found: Observation)
    requires IsReport(hash, s, actor, cases, out) && found in Candidates(hash, s, actor)
    ensures var best := Best(Candidates(hash, s, actor), found.subject);
            && best.Some? && best.value.subject == found.subject && !Beats(found, best.value)
            && (best.value in out || !IsNew(best.value, cases))
  {
    BestIsLeast(Candidates(hash, s, actor), found.subject);
    ReportedExactly(hash, s, actor, cases, out, Best(Candidates(hash, s, actor), found.subject).value);
  }

  // ----- Only readable, unobscured nodes are reported

  ghost predicate Grounded(v: View, o: Observation) {
    Open(v, o.subject) && forall side :: side in o.sides ==> exists n :: n in v.nodes && side == v.nodes[n].side
  }

  lemma {:induction false} FlatMapGrounded(v: View, ids: seq<nat>, f: nat -> seq<Observation>)
    requires forall n, o :: o in f(n) ==> Grounded(v, o)
    ensures forall o :: o in FlatMap(ids, f) ==> Grounded(v, o)
  {
    if ids != [] { FlatMapGrounded(v, ids[..|ids| - 1], f); }
  }

  lemma NodeGrounded(hash: Hash, v: View, n: nat, o: Observation)
    requires o in GapFindings(hash, v, n) || o in LateFindings(hash, v, n)
    ensures Grounded(v, o)
  {}

  lemma EdgeGrounded(hash: Hash, v: View, e: nat, o: Observation)
    requires o in EdgeFindings(hash, v, e)
    ensures Grounded(v, o)
  {}

  lemma TestGrounded(hash: Hash, v: View, n: nat, o: Observation)
    requires o in TestFindings(hash, v, n)
    ensures Grounded(v, o)
  {}

  lemma NodeFindingsGrounded(hash: Hash, v: View, ids: seq<nat>)
    ensures forall o :: o in FlatMap(ids, (n: nat) => GapFindings(hash, v, n)) ==> Grounded(v, o)
    ensures forall o :: o in FlatMap(ids, (n: nat) => LateFindings(hash, v, n)) ==> Grounded(v, o)
  {
    forall n, o | o in GapFindings(hash, v, n) || o in LateFindings(hash, v, n)
      ensures Grounded(v, o)
    {
      NodeGrounded(hash, v, n, o);
    }
    FlatMapGrounded(v, ids, (n: nat) => GapFindings(hash, v, n));
    FlatMapGrounded(v, ids, (n: nat) => LateFindings(hash, v, n));
  }

  lemma LinkFindingsGrounded(hash: Hash, v: View, ids: seq<nat>)
    ensures forall o :: o in FlatMap(ids, (e: nat) => EdgeFindings(hash, v, e)) ==> Grounded(v, o)
    ensures forall o :: o in FlatMap(ids, (n: nat) => TestFindings(hash, v, n)) ==> Grounded(v, o)
  {
    forall e, o | o in EdgeFindings(hash, v, e) ensures Grounded(v, o) { EdgeGrounded(hash, v, e, o); }
    forall n, o | o in TestFindings(hash, v, n) ensures Grounded(v, o) { TestGrounded(hash, v, n, o); }
    FlatMapGrounded(v, ids, (e: nat) => EdgeFindings(hash, v, e));
    FlatMapGrounded(v, ids, (n: nat) => TestFindings(hash, v, n));
  }

  lemma FindingsGrounded(hash: Hash, v: View)
    ensures forall o :: o in Findings(hash, v) ==> Grounded(v, o)
  {
    var nodes, edges := InOrder(v.nodes.Keys), InOrder(EdgesById(v).Keys);
    NodeFindingsGrounded(hash, v, nodes);
    LinkFindingsGrounded(hash, v, nodes);
    LinkFindingsGrounded(hash, v, edges);
  }

  /** A report is about an unobscured node, and cites only evidence the actor may read. */
  lemma ReportsReadable(hash: Hash, s: Snapshot, actor: Text, cases: seq<CaseKey>, out: seq<Observation>,
                        o: Observation)
    requires IsReport(hash, s, actor, cases, out) && o in out
    ensures Open(ViewOf(s, actor), o.subject)
    ensures forall side, ref :: side in o.sides && ref in side.refs ==>
              ref in RecordById(s.records) && Allowed(RecordById(s.records)[ref], actor)
  {
    var v := ViewOf(s, actor);
    ReportedExactly(hash, s, actor, cases, out, o);
    BestIsLeast(Candidates(hash, s, actor), o.subject);
    FindingsGrounded(hash, v);
    assert Grounded(v, o);
    forall side, ref | side in o.sides && ref in side.refs
      ensures ref in RecordById(s.records) && Allowed(RecordById(s.records)[ref], actor)
    {
      var n :| n in v.nodes && side == v.nodes[n].side;
      assert SideOf(LiveNodes(s)[n], s, actor) == Some(side);
    }
  }
}
