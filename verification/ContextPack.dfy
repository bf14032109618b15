/** Context packs (context/provider.py): access filtering, two-hop selection, ranking,
    caps, evidence references and warnings. Identifiers of nodes, cases and evidence are
    natural numbers in the source's string order, 0 being the empty string. */
module ContextPack {
  import opened Common
  import opened Collections
  import opened Ranking
  import opened ContextGraph
  import Chronology

  type EvidenceId = nat
  type CaseId = nat

  datatype NodeType =
    | Context | Need | ProductIntent | DesiredOutcome | Assumption | Principle
    | Requirement | Capability
    | Decision | Architecture | Interface | DataContract
    | Constraint | Policy
    | AcceptanceCriterion
    | Repository | CodeModule | File | Symbol | Endpoint | Schema | BuildArtifact | Deployment
    | Test
    | OtherType(name: Text)

  datatype Group = Intent | Requirements | Decisions | Constraints | Acceptance | Code | Tests

  datatype Category = Nodes(group: Group) | OpenCases | EvidenceRefs

  const GROUPS: seq<Group> := [Intent, Requirements, Decisions, Constraints, Acceptance, Code, Tests]

  function GroupOf(t: NodeType): Option<Group> {
    match t
    case Context | Need | ProductIntent | DesiredOutcome | Assumption | Principle => Some(Intent)
    case Requirement | Capability => Some(Requirements)
    case Decision | Architecture | Interface | DataContract => Some(Decisions)
    case Constraint | Policy => Some(Constraints)
    case AcceptanceCriterion => Some(Acceptance)
    case Repository | CodeModule | File | Symbol | Endpoint | Schema | BuildArtifact | Deployment => Some(Code)
    case Test => Some(Tests)
    case OtherType(_) => None
  }

  function HardLimit(c: Category): nat {
    match c
    case Nodes(Code) => 20
    case Nodes(Tests) => 20
    case EvidenceRefs => 20
    case _ => 10
  }

  datatype Node = Node(id: NodeId, kind: NodeType, title: Text, active: bool, confidence: Option<real>,
                       evidenceRefs: seq<EvidenceId>)

  type Evidence = Chronology.Record

  datatype CaseStatus = OpenCase | ProposedCase | NeedsHuman | ResolvedCase | Deferred | FalsePositive

  datatype Change = Change(prior: CaseStatus, next: CaseStatus, actor: Text, at: Time)

  datatype Case = Case(id: CaseId, kind: Text, subject: NodeId, affected: seq<NodeId>, evidenceRefs: seq<EvidenceId>,
                       fingerprint: nat, status: CaseStatus, history: seq<Change>)

  predicate Nonterminal(s: CaseStatus) { s.OpenCase? || s.ProposedCase? || s.NeedsHuman? }

  datatype Actor = NoActor | Principal(name: Text) | Principals(names: set<Text>)

  /** What the provider is constructed from. */
  datatype World = World(nodes: seq<Node>, edges: seq<Edge>, cases: seq<Case>, evidence: seq<Evidence>,
                         limits: map<Category, int>)

  datatype Seeds = ByQuery | ExactId(id: NodeId) | ExactIds(ids: set<NodeId>)

  datatype Request = Request(query: Text, scope: Option<Text>, actor: Actor, seeds: Seeds, fixedCaps: bool)

  datatype Item = NodeItem(id: NodeId, kind: NodeType, title: Text, confidence: Option<real>,
                           evidenceRefs: seq<EvidenceId>)
                | CaseItem(caseId: CaseId, caseKind: Text, subject: NodeId, evidenceRefs: seq<EvidenceId>)

  datatype Warning = LowConfidence(id: NodeId) | MissingEvidence(id: NodeId)

  datatype Pack = Pack(task: Text, nodes: map<Group, seq<Item>>, openCases: seq<Item>, evidenceRefs: seq<EvidenceId>,
                       warnings: seq<Warning>)

  // ----- The provider's dictionaries

  function EvidenceById(w: World): map<nat, Evidence> { ById(w.evidence, (e: Evidence) => e.id) }

  function CasesById(w: World): map<nat, Case> { ById(w.cases, (c: Case) => c.id) }

  // ----- Access

  predicate EvidenceAllowed(e: Evidence, scope: Option<Text>, actor: Actor) {
    && (e.acl == {} || match actor
                       case NoActor => false
                       case Principal(name) => name in e.acl
                       case Principals(names) => e.acl * names != {})
    && (scope == None || scope == e.scope)
  }

  predicate RefsAllowed(evidence: map<nat, Evidence>, refs: seq<EvidenceId>, scope: Option<Text>, actor: Actor) {
    forall i :: 0 <= i < |refs| ==> refs[i] in evidence && EvidenceAllowed(evidence[refs[i]], scope, actor)
  }

  predicate NodeReadable(w: World, r: Request, n: Node) {
    RefsAllowed(EvidenceById(w), n.evidenceRefs, r.scope, r.actor)
  }

  predicate CaseReadable(w: World, r: Request, c: Case) {
    RefsAllowed(EvidenceById(w), c.evidenceRefs, r.scope, r.actor)
  }

  // ----- Building a pack

  function Visible(w: World, r: Request): seq<Node> { Keep(w.nodes, (n: Node) => n.active && NodeReadable(w, r, n)) }

  function ActiveNodes(w: World, r: Request): map<NodeId, Node> { ById(Visible(w, r), (n: Node) => n.id) }

  /** Word tokens of a text; the tokenizer itself is a parameter. */
  function Tokens(words: Text -> set<Text>, text: Text): set<Text> { if text == "" then {} else words(text) }

  function QueryScores(words: Text -> set<Text>, query: Text, active: map<NodeId, Node>): Score {
    map n | n in active :: |Tokens(words, query) * Tokens(words, active[n].title)|
  }

  /** `scores.update({node_id: 1 ...})` for identifiers that have a score. */
  function Boosted(scores: Score, ids: set<NodeId>): Score { map n | n in scores :: if n in ids then 1 else scores[n] }

  /** The seeds and the final scores, or None where the source raises. */
  function SeedsAndScores(active: map<NodeId, Node>, scores: Score, seeds: Seeds): Option<(set<NodeId>, Score)>
    requires scores.Keys == active.Keys
  {
    match seeds
    case ByQuery => Some(((set n | n in scores && scores[n] > 0), scores))
    case ExactId(id) => Some((if id in active then {id} else {}, scores))
    case ExactIds(ids) =>
      if ids <= active.Keys then Some((ids, Boosted(scores, ids))) else None
  }

  function Cap<T>(limits: map<Category, int>, c: Category, values: seq<T>, fixedCaps: bool): (r: seq<T>)
    ensures r <= values
  {
    var limit := if c in limits then limits[c] else |values|;
    var limit' := if fixedCaps && HardLimit(c) < limit then HardLimit(c) else limit;
    if limit' <= 0 then [] else if limit' < |values| then values[..limit'] else values
  }

  function InGroup(active: map<NodeId, Node>, selected: set<NodeId>, g: Group): set<NodeId> {
    set n | n in selected && n in active && GroupOf(active[n].kind) == Some(g)
  }

  function CappedGroup(w: World, r: Request, active: map<NodeId, Node>, selected: set<NodeId>, scores: Score,
                       g: Group): seq<NodeId> {
    Cap(w.limits, Nodes(g), Ranked(InGroup(active, selected, g), scores), r.fixedCaps)
  }

  /** `context_nodes`: the capped groups, one after the other. */
  function ContextNodes(w: World, r: Request, active: map<NodeId, Node>, selected: set<NodeId>,
                        scores: Score): seq<NodeId> {
    Concat(seq(|GROUPS|, i requires 0 <= i < |GROUPS| => CappedGroup(w, r, active, selected, scores, GROUPS[i])))
  }

  function Concat(parts: seq<seq<nat>>): seq<nat> {
    if parts == [] then [] else parts[0] + Concat(parts[1..])
  }

  function MaxScore(refs: seq<NodeId>, scores: Score): int {
    if refs == [] then 0 else
      var rest := MaxScore(refs[1..], scores);
      if At(scores, refs[0]) > rest then At(scores, refs[0]) else rest
  }

  function CaseScore(c: Case, scores: Score): int { MaxScore([c.subject] + c.affected, scores) }

  function SelectedCases(w: World, r: Request, selected: set<NodeId>): set<CaseId> {
    var cases := CasesById(w);
    set id | && id in cases && Nonterminal(cases[id].status) && Touches(cases[id], selected)
             && CaseReadable(w, r, cases[id])
  }

  predicate Touches(c: Case, selected: set<NodeId>) {
    c.subject in selected || exists i :: 0 <= i < |c.affected| && c.affected[i] in selected
  }

  function CappedCases(w: World, r: Request, selected: set<NodeId>, scores: Score): seq<CaseId> {
    var cases := CasesById(w);
    var chosen := SelectedCases(w, r, selected);
    Cap(w.limits, OpenCases, Ranked(chosen, map id | id in chosen :: CaseScore(cases[id], scores)), r.fixedCaps)
  }

  /** A holder of evidence references together with its score. */
  datatype Holder = Holder(score: int, refs: seq<EvidenceId>)

  /** Every reference held, each with the greatest score of its holders (at least 0). */
  function Maxima(holders: seq<Holder>): Score {
    if holders == [] then map[] else
      Raise(Maxima(holders[..|holders| - 1]), holders[|holders| - 1])
  }

  function Raise(before: Score, h: Holder): Score {
    map e | e in before.Keys + Elements(h.refs) ::
      if e in h.refs && h.score > At(before, e) then h.score else At(before, e)
  }

  function Holders(w: World, active: map<NodeId, Node>, nodes: seq<NodeId>, cases: seq<CaseId>,
                   scores: Score): seq<Holder> {
    var byId := CasesById(w);
    seq(|nodes|, i requires 0 <= i < |nodes| =>
      if nodes[i] in active then Holder(At(scores, nodes[i]), active[nodes[i]].evidenceRefs) else Holder(0, []))
    + seq(|cases|, i requires 0 <= i < |cases| =>
      if cases[i] in byId then Holder(CaseScore(byId[cases[i]], scores), byId[cases[i]].evidenceRefs)
      else Holder(0, []))
  }

  function CappedEvidence(w: World, r: Request, holders: seq<Holder>): seq<EvidenceId> {
    var maxima := Maxima(holders);
    Cap(w.limits, EvidenceRefs, Ranked(maxima.Keys, maxima), r.fixedCaps)
  }

  function ItemOf(n: Node): Item { NodeItem(n.id, n.kind, n.title, n.confidence, n.evidenceRefs) }

  function NodeItems(active: map<NodeId, Node>, ids: seq<NodeId>): seq<Item> {
    if ids == [] then [] else (if ids[0] in active then [ItemOf(active[ids[0]])] else []) + NodeItems(active, ids[1..])
  }

  function CaseItems(cases: map<nat, Case>, ids: seq<CaseId>): seq<Item> {
    if ids == [] then [] else
      (if ids[0] in cases then
         var c := cases[ids[0]]; [CaseItem(c.id, c.kind, c.subject, c.evidenceRefs)]
       else []) + CaseItems(cases, ids[1..])
  }

  function WarningsOf(n: Node): seq<Warning> {
    (if n.confidence.Some? && n.confidence.value < 0.65 then [LowConfidence(n.id)] else [])
    + (if n.evidenceRefs == [] then [MissingEvidence(n.id)] else [])
  }

  /** Warnings of ranked nodes; the two messages of one node sort as `low` then `missing`. */
  function Warnings(active: map<NodeId, Node>, ids: seq<NodeId>): seq<Warning> {
    if ids == [] then [] else (if ids[0] in active then WarningsOf(active[ids[0]]) else []) + Warnings(active, ids[1..])
  }

  function Elements(ids: seq<nat>): set<nat> { set i | 0 <= i < |ids| :: ids[i] }

  function Selected(w: World, active: map<NodeId, Node>, seeds: set<NodeId>): set<NodeId> {
    TwoHops(Neighbours(w.edges, active.Keys), seeds)
  }

  function PackNodes(w: World, r: Request, active: map<NodeId, Node>, selected: set<NodeId>,
                     scores: Score): map<Group, seq<Item>> {
    map g | g in GROUPS :: NodeItems(active, CappedGroup(w, r, active, selected, scores, g))
  }

  function PackCases(w: World, r: Request, selected: set<NodeId>, scores: Score): seq<Item> {
    CaseItems(CasesById(w), CappedCases(w, r, selected, scores))
  }

  function PackEvidence(w: World, r: Request, active: map<NodeId, Node>, selected: set<NodeId>,
                        scores: Score): seq<EvidenceId> {
    var nodes := ContextNodes(w, r, active, selected, scores);
    CappedEvidence(w, r, Holders(w, active, nodes, CappedCases(w, r, selected, scores), scores))
  }

  function PackWarnings(w: World, r: Request, active: map<NodeId, Node>, selected: set<NodeId>,
                        scores: Score): seq<Warning> {
    Warnings(active, Ranked(Elements(ContextNodes(w, r, active, selected, scores)), scores))
  }

  function Assemble(w: World, r: Request, active: map<NodeId, Node>, selected: set<NodeId>, scores: Score): Pack {
    Pack(r.query, PackNodes(w, r, active, selected, scores), PackCases(w, r, selected, scores),
         PackEvidence(w, r, active, selected, scores), PackWarnings(w, r, active, selected, scores))
  }

  /** `_build`: a pack, or None where it raises. */
  function BuildPack(w: World, r: Request, words: Text -> set<Text>): Option<Pack> {
    var active := ActiveNodes(w, r);
    match SeedsAndScores(active, QueryScores(words, r.query, active), r.seeds)
    case None => None
    case Some((seeds, scores)) => Some(Assemble(w, r, active, Selected(w, active, seeds), scores))
  }

  // ----- The loops of `_build` and `for_refs`

  /** `_evidence_refs`: the dictionary of maxima, reference by reference. */
  method EvidenceScores(holders: seq<Holder>) returns (scores: Score)
    ensures scores == Maxima(holders)
  {
    scores := map[];
    var i := 0;
    while i < |holders|
      invariant 0 <= i <= |holders|
      invariant scores == Maxima(holders[..i])
    {
      var h := holders[i];
      ghost var before := scores;
      var j := 0;
      assert scores == Raise(before, Holder(h.score, h.refs[..0]));
      while j < |h.refs|
        invariant 0 <= j <= |h.refs|
        invariant scores == Raise(before, Holder(h.score, h.refs[..j]))
      {
        var e := h.refs[j];
        RaiseOne(before, h, j);
        scores := scores[e := if h.score > At(scores, e) then h.score else At(scores, e)];
        j := j + 1;
      }
      assert h.refs[..j] == h.refs;
      assert holders[..i + 1][..i] == holders[..i];
      i := i + 1;
    }
    assert holders[..i] == holders;
  }

  lemma RaiseOne(before: Score, h: Holder, j: nat)
    requires j < |h.refs|
    ensures var s := Raise(before, Holder(h.score, h.refs[..j])); var e := h.refs[j];
            Raise(before, Holder(h.score, h.refs[..j + 1])) == s[e := if h.score > At(s, e) then h.score else At(s, e)]
  {
    assert h.refs[..j + 1] == h.refs[..j] + [h.refs[j]];
    var one, two := h.refs[..j], h.refs[..j + 1];
    assert forall x :: x in two <==> x in one || x == h.refs[j];
    assert forall x :: x in Elements(two) <==> x in two;
    assert forall x :: x in Elements(one) <==> x in one;
  }

  /** `_build` with its search and its dictionary of maxima run as loops. */
  method Build(w: World, r: Request, words: Text -> set<Text>) returns (result: Option<Pack>)
    ensures result == BuildPack(w, r, words)
  {
    var active := ActiveNodes(w, r);
    var seeded := SeedsAndScores(active, QueryScores(words, r.query, active), r.seeds);
    if seeded == None { return None; }
    var (seeds, scores) := seeded.value;
    var adjacency := BuildNeighbours(w.edges, active.Keys);
    var selected := Expand(adjacency, seeds);
    var nodes := ContextNodes(w, r, active, selected, scores);
    var cases := CappedCases(w, r, selected, scores);
    var maxima := EvidenceScores(Holders(w, active, nodes, cases, scores));
    var evidence := Cap(w.limits, EvidenceRefs, Ranked(maxima.Keys, maxima), r.fixedCaps);
    var items := map g | g in GROUPS :: NodeItems(active, CappedGroup(w, r, active, selected, scores, g));
    result := Some(Pack(r.query, items, CaseItems(CasesById(w), cases), evidence,
                        Warnings(active, Ranked(Elements(nodes), scores))));
  }
}
