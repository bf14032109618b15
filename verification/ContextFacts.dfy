/** What each part of a context pack lists, over nodes, cases, words, scores and limits directly
    (context/provider.py). */
module ContextFacts {
  import opened Common
  import opened Collections
  import opened Ranking
  import opened ContextGraph
  import opened ContextPack
  import opened ContextNoninterference
  import opened ContextRefs

  // ----- Groups, limits and cuts

  /** The seven groups by node type. */
  lemma GroupsExactly(t: NodeType)
    ensures GroupOf(t) == Some(Intent) <==> t in {Context, Need, ProductIntent, DesiredOutcome, Assumption, Principle}
    ensures GroupOf(t) == Some(Requirements) <==> t in {Requirement, Capability}
    ensures GroupOf(t) == Some(Decisions) <==> t in {Decision, Architecture, Interface, DataContract}
    ensures GroupOf(t) == Some(Constraints) <==> t in {Constraint, Policy}
    ensures GroupOf(t) == Some(Acceptance) <==> t == AcceptanceCriterion
    ensures GroupOf(t) == Some(Code) <==>
              t in {Repository, CodeModule, File, Symbol, Endpoint, Schema, BuildArtifact, Deployment}
    ensures GroupOf(t) == Some(Tests) <==> t == Test
  {}

  /** How many of n values a category shows: its configured limit if any, and for exact references
      never more than twenty code, test or evidence references or ten of anything else. */
  ghost predicate Shown(limits: map<Category, int>, c: Category, n: nat, fixedCaps: bool, k: nat) {
    var twenty := c == Nodes(Code) || c == Nodes(Tests) || c == EvidenceRefs;
    && k <= n
    && (c in limits ==> k <= limits[c] || k == 0)
    && (fixedCaps ==> k <= if twenty then 20 else 10)
    && (k < n ==>
          || (c in limits && limits[c] <= k)
          || (fixedCaps && k == if twenty then 20 else 10))
  }

  lemma CapExactly(limits: map<Category, int>, c: Category, values: seq<nat>, fixedCaps: bool)
    ensures exists k: nat :: Shown(limits, c, |values|, fixedCaps, k) &&
              Cap(limits, c, values, fixedCaps) == values[..k]
  {
    var r := Cap(limits, c, values, fixedCaps);
    assert values[..|values|] == values && values[..0] == [];
    assert Shown(limits, c, |values|, fixedCaps, |r|) && r == values[..|r|];
  }

  /** a ranks before b: a greater score, or the same score and a smaller identifier. */
  ghost predicate Above(score: Score, a: nat, b: nat) {
    var x, y := if a in score then score[a] else 0, if b in score then score[b] else 0;
    x > y || (x == y && a < b)
  }

  /** A list of some of the candidates, best first, that leaves out none better than one it has. */
  ghost predicate Best(list: seq<nat>, candidates: set<nat>, score: Score) {
    && (forall i :: 0 <= i < |list| ==> list[i] in candidates)
    && (forall i, j :: 0 <= i < j < |list| ==> Above(score, list[i], list[j]))
    && (forall i, n :: 0 <= i < |list| && n in candidates && n !in list ==> Above(score, list[i], n))
  }

  lemma InPrefix(r: seq<nat>, k: nat, j: nat)
    requires k <= |r| && j < |r|
    ensures j < k ==> r[j] in r[..k]
  {
    assert j < k ==> r[..k][j] == r[j];
  }

  lemma RankedBest(candidates: set<nat>, score: Score, k: nat)
    requires k <= |candidates|
    ensures Best(Ranked(candidates, score)[..k], candidates, score)
  {
    var r := Ranked(candidates, score);
    forall i, j | 0 <= i < j < |r| ensures Above(score, r[i], r[j]) { RankedInOrder(candidates, score, i, j); }
    forall i, n | 0 <= i < k && n in candidates && n !in r[..k] ensures Above(score, r[i], n) {
      var j :| 0 <= j < |r| && r[j] == n;
      InPrefix(r, k, j);
    }
    forall i | 0 <= i < k ensures r[i] in candidates { assert r[i] in r; }
  }

  /** A capped ranking is the best part of the candidates, as long as the category shows. */
  ghost predicate Listed(list: seq<nat>, candidates: set<nat>, score: Score, limits: map<Category, int>, c: Category,
                         fixedCaps: bool) {
    Best(list, candidates, score) && Shown(limits, c, |candidates|, fixedCaps, |list|)
  }

  lemma CappedListed(candidates: set<nat>, score: Score, limits: map<Category, int>, c: Category, fixedCaps: bool)
    ensures Listed(Cap(limits, c, Ranked(candidates, score), fixedCaps), candidates, score, limits, c, fixedCaps)
  {
    CapExactly(limits, c, Ranked(candidates, score), fixedCaps);
    var k: nat :| Shown(limits, c, |candidates|, fixedCaps, k)
                  && Cap(limits, c, Ranked(candidates, score), fixedCaps) == Ranked(candidates, score)[..k];
    RankedBest(candidates, score, k);
  }

  // ----- Seeds and scores

  /** The number of words a query shares with a title; the empty text has no words. */
  function Shared(words: Text -> set<Text>, query: Text, title: Text): nat {
    if |query| == 0 || |title| == 0 then 0 else |words(query) * words(title)|
  }

  lemma SharedExactly(words: Text -> set<Text>, query: Text, title: Text)
    ensures |Tokens(words, query) * Tokens(words, title)| == Shared(words, query, title)
  {
    if |query| == 0 || |title| == 0 { assert Tokens(words, query) * Tokens(words, title) == {}; }
  }

  ghost predicate IsSeed(words: Text -> set<Text>, query: Text, active: map<NodeId, Node>, seeds: Seeds, n: NodeId) {
    match seeds
    case ByQuery => n in active && Shared(words, query, active[n].title) > 0
    case ExactId(id) => n == id && n in active
    case ExactIds(ids) => n in ids
  }

  /** A query starts from the nodes that share a word with it, an exact request from the visible node
      asked for, exact references from all of them or not at all. */
  lemma SeedsExactly(words: Text -> set<Text>, query: Text, active: map<NodeId, Node>, seeds: Seeds)
    ensures var seeded := SeedsAndScores(active, QueryScores(words, query, active), seeds);
            && (seeded.None? <==> seeds.ExactIds? && exists id :: id in seeds.ids && id !in active)
            && (seeded.Some? ==> forall n :: n in seeded.value.0 <==> IsSeed(words, query, active, seeds, n))
  {
    QueryExactly(words, query, active);
  }

  lemma QueryExactly(words: Text -> set<Text>, query: Text, active: map<NodeId, Node>)
    ensures QueryScores(words, query, active).Keys == active.Keys
    ensures forall n :: n in active ==> QueryScores(words, query, active)[n] == Shared(words, query, active[n].title)
  {
    forall n | n in active ensures QueryScores(words, query, active)[n] == Shared(words, query, active[n].title) {
      SharedExactly(words, query, active[n].title);
    }
  }

  /** A node scores the words it shares with the query, and one when it was referenced exactly. */
  lemma ScoresExactly(words: Text -> set<Text>, query: Text, active: map<NodeId, Node>, seeds: Seeds, n: NodeId)
    requires SeedsAndScores(active, QueryScores(words, query, active), seeds).Some? && n in active
    ensures var scores := SeedsAndScores(active, QueryScores(words, query, active), seeds).value.1;
            && n in scores
            && scores[n] == if seeds.ExactIds? && n in seeds.ids then 1 else Shared(words, query, active[n].title)
  {
    QueryExactly(words, query, active);
  }

  // ----- The parts of a pack

  /** The pack was built from these seeds, selected nodes and scores. */
  ghost predicate BuiltFrom(w: World, r: Request, words: Text -> set<Text>, seeds: set<NodeId>, selected: set<NodeId>,
                            scores: Score) {
    && SeedsAndScores(ActiveNodes(w, r), QueryScores(words, r.query, ActiveNodes(w, r)), r.seeds)
       == Some((seeds, scores))
    && (forall n :: n in selected <==> WithinTwo(Neighbours(w.edges, ActiveNodes(w, r).Keys), seeds, n))
  }

  lemma EveryPackIsBuilt(w: World, r: Request, words: Text -> set<Text>)
    returns (seeds: set<NodeId>, selected: set<NodeId>, scores: Score)
    requires BuildPack(w, r, words).Some?
    ensures BuiltFrom(w, r, words, seeds, selected, scores)
    ensures BuildPack(w, r, words) == Some(Assemble(w, r, ActiveNodes(w, r), selected, scores))
  {
    var active := ActiveNodes(w, r);
    var seeded := SeedsAndScores(active, QueryScores(words, r.query, active), r.seeds).value;
    seeds, scores := seeded.0, seeded.1;
    selected := Selected(w, active, seeds);
    forall n ensures n in selected <==> WithinTwo(Neighbours(w.edges, active.Keys), seeds, n) {
      TwoHopsIsDistance(Neighbours(w.edges, active.Keys), seeds, n);
    }
  }

  /** Two visible nodes are neighbours when an active edge joins them in either direction. */
  lemma NeighboursExactly(w: World, r: Request, a: NodeId, b: NodeId)
    requires a in ActiveNodes(w, r)
    ensures b in Neighbours(w.edges, ActiveNodes(w, r).Keys)[a] <==>
              && b in ActiveNodes(w, r)
              && exists e :: && e in w.edges && e.active
                             && ((e.source == a && e.target == b) || (e.source == b && e.target == a))
  {
    var nodes := ActiveNodes(w, r).Keys;
    if b in nodes && exists e :: && e in w.edges && e.active
                                 && ((e.source == a && e.target == b) || (e.source == b && e.target == a)) {
      var e :| e in w.edges && e.active && ((e.source == a && e.target == b) || (e.source == b && e.target == a));
      assert Joins(e, nodes, a, b);
    }
  }

  /** The candidates of a group: selected visible nodes of its types. */
  ghost predicate InGroupOf(active: map<NodeId, Node>, selected: set<NodeId>, g: Group, n: NodeId) {
    n in selected && n in active && GroupOf(active[n].kind) == Some(g)
  }

  /** Each group lists the best of its candidates, item by item with the node's own fields. */
  lemma GroupListed(w: World, r: Request, active: map<NodeId, Node>, selected: set<NodeId>, scores: Score, g: Group)
    returns (list: seq<NodeId>, candidates: set<NodeId>)
    ensures forall n :: n in candidates <==> InGroupOf(active, selected, g, n)
    ensures Listed(list, candidates, scores, w.limits, Nodes(g), r.fixedCaps)
    ensures g in Assemble(w, r, active, selected, scores).nodes
    ensures ItemsAre(Assemble(w, r, active, selected, scores).nodes[g], active, list)
  {
    candidates := InGroup(active, selected, g);
    list := CappedGroup(w, r, active, selected, scores, g);
    CappedListed(candidates, scores, w.limits, Nodes(g), r.fixedCaps);
    EveryGroup(g);
    forall i | 0 <= i < |list| ensures list[i] in active { assert list[i] in candidates; }
    ItemsListed(active, list);
  }

  ghost predicate ItemsAre(items: seq<Item>, active: map<NodeId, Node>, list: seq<NodeId>) {
    && |items| == |list|
    && forall i :: 0 <= i < |list| ==>
         && list[i] in active
         && var n := active[list[i]];
         items[i] == NodeItem(n.id, n.kind, n.title, n.confidence, n.evidenceRefs)
  }

  lemma {:induction false} ItemsListed(active: map<NodeId, Node>, list: seq<NodeId>)
    requires forall i :: 0 <= i < |list| ==> list[i] in active
    ensures ItemsAre(NodeItems(active, list), active, list)
  {
    if list != [] {
      assert forall i :: 0 <= i < |list| - 1 ==> list[1..][i] == list[i + 1];
      ItemsListed(active, list[1..]);
      var rest := NodeItems(active, list[1..]);
      forall i | 0 <= i < |list|
        ensures var n := active[list[i]];
                NodeItems(active, list)[i] == NodeItem(n.id, n.kind, n.title, n.confidence, n.evidenceRefs)
      {
        if i > 0 { assert NodeItems(active, list)[i] == rest[i - 1] && list[1..][i - 1] == list[i]; }
      }
    }
  }

  /** A case is shown when it is open, proposed or awaits a human, the actor may read its evidence,
      and its subject or a node it affects was selected. */
  ghost predicate Relevant(w: World, r: Request, selected: set<NodeId>, id: CaseId) {
    && id in CasesById(w)
    && var c := CasesById(w)[id];
    && (c.status == OpenCase || c.status == ProposedCase || c.status == NeedsHuman)
    && CaseReadable(w, r, c)
    && (c.subject in selected || exists n :: n in c.affected && n in selected)
  }

  /** The score of a case is the greatest among its subject and the nodes it affects, at least zero. */
  ghost predicate Scored(c: Case, scores: Score, x: int) {
    && x >= 0
    && (forall n :: (n == c.subject || n in c.affected) && n in scores ==> scores[n] <= x)
    && (x > 0 ==> exists n :: (n == c.subject || n in c.affected) && n in scores && scores[n] == x)
  }

  lemma {:induction false} MaxExactly(refs: seq<NodeId>, scores: Score)
    ensures var x := MaxScore(refs, scores);
            && x >= 0
            && (forall n :: n in refs && n in scores ==> scores[n] <= x)
            && (x > 0 ==> exists n :: n in refs && n in scores && scores[n] == x)
  {
    if refs != [] {
      MaxExactly(refs[1..], scores);
      assert refs == [refs[0]] + refs[1..];
      assert refs[0] in refs && forall n :: n in refs[1..] ==> n in refs;
    }
  }

  lemma ScoreExactly(c: Case, scores: Score)
    ensures Scored(c, scores, CaseScore(c, scores))
  {
    MaxExactly([c.subject] + c.affected, scores);
    forall n ensures n in [c.subject] + c.affected <==> n == c.subject || n in c.affected {}
  }

  lemma RelevantExactly(w: World, r: Request, selected: set<NodeId>, id: CaseId)
    ensures id in SelectedCases(w, r, selected) <==> Relevant(w, r, selected, id)
  {
    if id in CasesById(w) {
      var c := CasesById(w)[id];
      forall k | 0 <= k < |c.affected| ensures c.affected[k] in c.affected {}
    }
  }

  /** The pack shows the best of the relevant cases, with their own fields. */
  lemma CasesListed(w: World, r: Request, active: map<NodeId, Node>, selected: set<NodeId>, scores: Score)
    returns (list: seq<CaseId>, candidates: set<CaseId>, rank: Score)
    ensures forall id :: id in candidates <==> Relevant(w, r, selected, id)
    ensures rank.Keys == candidates
    ensures forall id :: id in rank ==> id in CasesById(w) && Scored(CasesById(w)[id], scores, rank[id])
    ensures Listed(list, candidates, rank, w.limits, OpenCases, r.fixedCaps)
    ensures CasesAre(Assemble(w, r, active, selected, scores).openCases, CasesById(w), list)
  {
    var cases := CasesById(w);
    candidates := SelectedCases(w, r, selected);
    rank := map id | id in candidates :: CaseScore(cases[id], scores);
    list := CappedCases(w, r, selected, scores);
    CappedListed(candidates, rank, w.limits, OpenCases, r.fixedCaps);
    forall id ensures id in candidates <==> Relevant(w, r, selected, id) { RelevantExactly(w, r, selected, id); }
    forall id | id in rank ensures Scored(cases[id], scores, rank[id]) { ScoreExactly(cases[id], scores); }
    forall i | 0 <= i < |list| ensures list[i] in cases { assert list[i] in candidates; }
    CasesShown(cases, list);
  }

  ghost predicate CasesAre(items: seq<Item>, cases: map<nat, Case>, list: seq<CaseId>) {
    && |items| == |list|
    && forall i :: 0 <= i < |list| ==>
         && list[i] in cases
         && var c := cases[list[i]];
         items[i] == CaseItem(c.id, c.kind, c.subject, c.evidenceRefs)
  }

  lemma {:induction false} CasesShown(cases: map<nat, Case>, list: seq<CaseId>)
    requires forall i :: 0 <= i < |list| ==> list[i] in cases
    ensures CasesAre(CaseItems(cases, list), cases, list)
  {
    if list != [] {
      assert forall i :: 0 <= i < |list| - 1 ==> list[1..][i] == list[i + 1];
      CasesShown(cases, list[1..]);
      var rest := CaseItems(cases, list[1..]);
      forall i | 0 <= i < |list|
        ensures var c := cases[list[i]]; CaseItems(cases, list)[i] == CaseItem(c.id, c.kind, c.subject, c.evidenceRefs)
      {
        if i > 0 { assert CaseItems(cases, list)[i] == rest[i - 1] && list[1..][i - 1] == list[i]; }
      }
    }
  }

  // ----- Evidence and warnings

  lemma {:induction false} ConcatMembers(parts: seq<seq<nat>>, n: nat)
    ensures n in Concat(parts) <==> exists i :: 0 <= i < |parts| && n in parts[i]
  {
    if parts != [] {
      ConcatMembers(parts[1..], n);
      if n in Concat(parts[1..]) {
        var i :| 0 <= i < |parts| - 1 && n in parts[1..][i];
        assert n in parts[i + 1];
      }
      if exists i :: 0 <= i < |parts| && n in parts[i] {
        var i :| 0 <= i < |parts| && n in parts[i];
        if i > 0 { assert n in parts[1..][i - 1]; }
      }
    }
  }

  /** The nodes behind evidence and warnings are those the groups list. */
  lemma ContextExactly(w: World, r: Request, active: map<NodeId, Node>, selected: set<NodeId>, scores: Score, n: NodeId)
    ensures n in ContextNodes(w, r, active, selected, scores) <==>
              exists g :: n in CappedGroup(w, r, active, selected, scores, g)
  {
    var parts := seq(|GROUPS|, i requires 0 <= i < |GROUPS| => CappedGroup(w, r, active, selected, scores, GROUPS[i]));
    ConcatMembers(parts, n);
    if exists g :: n in CappedGroup(w, r, active, selected, scores, g) {
      var g :| n in CappedGroup(w, r, active, selected, scores, g);
      var i := GroupPlace(g);
      assert n in parts[i];
    }
  }

  lemma GroupPlace(g: Group) returns (i: nat)
    ensures i < |GROUPS| && GROUPS[i] == g
  {
    EveryGroup(g);
    i :| 0 <= i < |GROUPS| && GROUPS[i] == g;
  }

  /** A listed node holds the reference, with the node's score. */
  ghost predicate NodeHolds(active: map<NodeId, Node>, nodes: seq<NodeId>, scores: Score, e: EvidenceId, x: int) {
    exists n :: n in nodes && n in active && e in active[n].evidenceRefs && x == At(scores, n)
  }

  /** A shown case holds the reference, with the case's score. */
  ghost predicate CaseHolds(cases: map<nat, Case>, ids: seq<CaseId>, scores: Score, e: EvidenceId, x: int) {
    exists id :: id in ids && id in cases && e in cases[id].evidenceRefs && x == CaseScore(cases[id], scores)
  }

  ghost predicate HeldWith(holders: seq<Holder>, e: EvidenceId, x: int) {
    exists i :: 0 <= i < |holders| && e in holders[i].refs && holders[i].score == x
  }

  lemma HeldExactly(w: World, active: map<NodeId, Node>, nodes: seq<NodeId>, cases: seq<CaseId>, scores: Score,
                    e: EvidenceId, x: int)
    ensures HeldWith(Holders(w, active, nodes, cases, scores), e, x) <==>
              NodeHolds(active, nodes, scores, e, x) || CaseHolds(CasesById(w), cases, scores, e, x)
  {
    var byId := CasesById(w);
    var holders := Holders(w, active, nodes, cases, scores);
    if NodeHolds(active, nodes, scores, e, x) {
      var i :| 0 <= i < |nodes| && nodes[i] in active && e in active[nodes[i]].evidenceRefs &&
          x == At(scores, nodes[i]);
      assert holders[i] == Holder(x, active[nodes[i]].evidenceRefs);
    }
    if CaseHolds(byId, cases, scores, e, x) {
      var i :| 0 <= i < |cases| && cases[i] in byId && e in byId[cases[i]].evidenceRefs &&
          x == CaseScore(byId[cases[i]], scores);
      assert holders[|nodes| + i] == Holder(x, byId[cases[i]].evidenceRefs);
    }
    if HeldWith(holders, e, x) {
      var i :| 0 <= i < |holders| && e in holders[i].refs && holders[i].score == x;
      HolderAt(w, active, nodes, cases, scores, i);
    }
  }

  lemma HolderAt(w: World, active: map<NodeId, Node>, nodes: seq<NodeId>, cases: seq<CaseId>, scores: Score, i: nat)
    requires i < |Holders(w, active, nodes, cases, scores)|
    ensures var h := Holders(w, active, nodes, cases, scores)[i];
            forall e :: e in h.refs ==>
              NodeHolds(active, nodes, scores, e, h.score) || CaseHolds(CasesById(w), cases, scores, e, h.score)
  {
    if i < |nodes| { assert nodes[i] in nodes; } else { assert cases[i - |nodes|] in cases; }
  }

  /** The evidence list is the best of the references held, by the greatest score of their holders. */
  lemma EvidenceListed(w: World, r: Request, active: map<NodeId, Node>, selected: set<NodeId>, scores: Score)
    returns (holders: seq<Holder>, rank: Score)
    ensures forall e, x :: HeldWith(holders, e, x) <==>
              || NodeHolds(active, ContextNodes(w, r, active, selected, scores), scores, e, x)
              || CaseHolds(CasesById(w), CappedCases(w, r, selected, scores), scores, e, x)
    ensures forall e :: e in rank <==> exists x :: HeldWith(holders, e, x)
    ensures forall e :: e in rank ==> rank[e] >= 0 && (rank[e] > 0 ==> HeldWith(holders, e, rank[e]))
    ensures forall e, x :: e in rank && HeldWith(holders, e, x) ==> x <= rank[e]
    ensures Listed(Assemble(w, r, active, selected, scores).evidenceRefs, rank.Keys, rank, w.limits, EvidenceRefs,
              r.fixedCaps)
  {
    EvidenceRanked(w, r, active, selected, scores);
    var nodes, cases := ContextNodes(w, r, active, selected, scores), CappedCases(w, r, selected, scores);
    holders := Holders(w, active, nodes, cases, scores);
    rank := Maxima(holders);
    MaximaOfAll(holders);
    HeldAll(w, active, nodes, cases, scores);
  }

  lemma EvidenceRanked(w: World, r: Request, active: map<NodeId, Node>, selected: set<NodeId>, scores: Score)
    ensures var holders := Holders(w, active, ContextNodes(w, r, active, selected, scores),
                                   CappedCases(w, r, selected, scores), scores);
            var rank := Maxima(holders);
            Listed(PackEvidence(w, r, active, selected, scores), rank.Keys, rank, w.limits, EvidenceRefs, r.fixedCaps)
  {
    var holders := Holders(w, active, ContextNodes(w, r, active, selected, scores),
                           CappedCases(w, r, selected, scores), scores);
    CappedListed(Maxima(holders).Keys, Maxima(holders), w.limits, EvidenceRefs, r.fixedCaps);
  }

  lemma HeldAll(w: World, active: map<NodeId, Node>, nodes: seq<NodeId>, cases: seq<CaseId>, scores: Score)
    ensures forall e, x :: HeldWith(Holders(w, active, nodes, cases, scores), e, x) <==>
              NodeHolds(active, nodes, scores, e, x) || CaseHolds(CasesById(w), cases, scores, e, x)
  {
    var holders := Holders(w, active, nodes, cases, scores);
    forall e, x ensures HeldWith(holders, e, x) <==>
                          NodeHolds(active, nodes, scores, e, x) || CaseHolds(CasesById(w), cases, scores, e, x)
    {
      HeldExactly(w, active, nodes, cases, scores, e, x);
    }
  }

  lemma MaximaOfAll(holders: seq<Holder>)
    ensures var rank := Maxima(holders);
            && (forall e :: e in rank <==> exists x :: HeldWith(holders, e, x))
            && (forall e :: e in rank ==> rank[e] >= 0 && (rank[e] > 0 ==> HeldWith(holders, e, rank[e])))
            && (forall e, x :: e in rank && HeldWith(holders, e, x) ==> x <= rank[e])
  {
    var rank := Maxima(holders);
    forall e
      ensures e in rank <==> exists x :: HeldWith(holders, e, x)
      ensures e in rank ==> rank[e] >= 0 && (rank[e] > 0 ==> HeldWith(holders, e, rank[e]))
      ensures forall x :: e in rank && HeldWith(holders, e, x) ==> x <= rank[e]
    {
      MaximaAreMaxima(holders, e);
      if Held(holders, e) {
        var i :| 0 <= i < |holders| && e in holders[i].refs;
        assert HeldWith(holders, e, holders[i].score);
      }
    }
  }

  /** A listed node below 65 percent confidence gets the first warning and one without evidence the
      second; no other node is warned of. */
  lemma {:induction false} WarningsExactly(active: map<NodeId, Node>, ids: seq<NodeId>, x: Warning)
    requires forall n :: n in active ==> active[n].id == n
    ensures x in Warnings(active, ids) <==>
              && x.id in ids && x.id in active
              && match x
                 case LowConfidence(n) => active[n].confidence.Some? && active[n].confidence.value < 0.65
                 case MissingEvidence(n) => |active[n].evidenceRefs| == 0
  {
    if ids != [] {
      WarningsExactly(active, ids[1..], x);
      assert ids == [ids[0]] + ids[1..];
    }
  }

  /** x may be followed by y: the two warnings of one node, or of nodes in this order. */
  ghost predicate Precedes(ids: seq<NodeId>, x: Warning, y: Warning) {
    || (x.LowConfidence? && y.MissingEvidence? && x.id == y.id)
    || exists a, b :: 0 <= a < b < |ids| && ids[a] == x.id && ids[b] == y.id
  }

  lemma PrecedesLater(ids: seq<NodeId>, x: Warning, y: Warning)
    requires ids != [] && Precedes(ids[1..], x, y)
    ensures Precedes(ids, x, y)
  {
    if !(x.LowConfidence? && y.MissingEvidence? && x.id == y.id) {
      var a, b :| 0 <= a < b < |ids| - 1 && ids[1..][a] == x.id && ids[1..][b] == y.id;
      assert ids[a + 1] == x.id && ids[b + 1] == y.id;
    }
  }

  ghost predicate AllPrecede(ids: seq<NodeId>, ws: seq<Warning>) {
    forall i, j :: 0 <= i < j < |ws| ==> Precedes(ids, ws[i], ws[j])
  }

  /** Warnings come in the order of their nodes, the two of one node as low then missing. */
  lemma {:induction false} WarningsInOrder(active: map<NodeId, Node>, ids: seq<NodeId>)
    requires forall n :: n in active ==> active[n].id == n
    ensures AllPrecede(ids, Warnings(active, ids))
  {
    if ids != [] {
      WarningsInOrder(active, ids[1..]);
      var own := if ids[0] in active then WarningsOf(active[ids[0]]) else [];
      var rest := Warnings(active, ids[1..]);
      var ws := Warnings(active, ids);
      assert ws == own + rest;
      forall i, j | 0 <= i < j < |ws| ensures Precedes(ids, ws[i], ws[j]) {
        if i >= |own| {
          var p, q := i - |own|, j - |own|;
          assert 0 <= p < q < |rest| && Precedes(ids[1..], rest[p], rest[q]);
          assert ws[i] == rest[p] && ws[j] == rest[q];
          PrecedesLater(ids, ws[i], ws[j]);
        } else if j >= |own| {
          assert ws[j] == rest[j - |own|] && ws[j] in rest;
          WarningsExactly(active, ids[1..], ws[j]);
          var b :| 0 <= b < |ids| - 1 && ids[1..][b] == ws[j].id;
          assert ids[0] == ws[i].id && ids[b + 1] == ws[j].id;
        }
      }
    }
  }

  /** The pack warns exactly of the nodes its groups list, best ranked first. */
  lemma WarningsListed(w: World, r: Request, active: map<NodeId, Node>, selected: set<NodeId>, scores: Score)
    returns (order: seq<NodeId>)
    ensures forall n :: n in order <==> n in ContextNodes(w, r, active, selected, scores)
    ensures forall i, j :: 0 <= i < j < |order| ==> Above(scores, order[i], order[j])
    ensures Assemble(w, r, active, selected, scores).warnings == Warnings(active, order)
  {
    var nodes := ContextNodes(w, r, active, selected, scores);
    order := Ranked(Elements(nodes), scores);
    forall i, j | 0 <= i < j < |order|
      ensures Above(scores, order[i], order[j])
    {
      RankedInOrder(Elements(nodes), scores, i, j);
    }
    forall n ensures n in order <==> n in nodes { assert n in Elements(nodes) <==> n in nodes; }
  }

  // ----- Exact references

  /** References are well formed when there are one to 256 different non-empty identifiers. */
  lemma WellFormedExactly(ids: seq<NodeId>, actor: Actor)
    ensures WellFormedIds(ids) <==> 1 <= |ids| <= 256 && (forall i :: 0 <= i < |ids| ==> ids[i] != 0)
                                    && forall i, j :: 0 <= i < j < |ids| ==> ids[i] != ids[j]
    ensures WellFormedActor(actor) <==>
              || actor.Principal?
              || (actor.Principals? && |actor.names| > 0 && forall name :: name in actor.names ==> |name| > 0)
  {
    CountDistinct(ids);
    assert forall i :: 0 <= i < |ids| ==> ids[i] in ids;
    if actor.Principals? { assert "" !in actor.names <==> forall name :: name in actor.names ==> |name| > 0; }
  }

  /** The cap on requested nodes of a group. */
  lemma EffectiveExactly(limits: map<Category, int>, g: Group)
    ensures var most := if g == Code || g == Tests then 20 else 10; var cap := EffectiveCap(limits, Nodes(g));
            && 0 <= cap <= most
            && (Nodes(g) in limits && limits[Nodes(g)] < most ==>
                cap == if limits[Nodes(g)] < 0 then 0 else limits[Nodes(g)])
            && (Nodes(g) !in limits || limits[Nodes(g)] >= most ==> cap == most)
  {}

  /** What an exact request asks for. */
  lemma RefsRequestExactly(ids: seq<NodeId>, actor: Actor)
    ensures var r := RefsRequest(ids, actor);
            && r.query == "" && r.scope == None && r.actor == actor && r.fixedCaps
            && r.seeds.ExactIds? && forall n :: n in r.seeds.ids <==> n in ids
  {
    forall n ensures n in Elements(ids) <==> n in ids {}
  }
}
