/** Which gaps scheduled assurance finds, over nodes, links, edges and evidence of the snapshot
    (intent_workflow/assurance.py). */
module AssuranceFacts {
  import opened Common
  import opened Collections
  import opened Ranking
  import opened ContextGraph
  import opened Chronology
  import opened Detectors
  import opened Selection
  import opened Assurance
  import Types = ContextPack

  // ----- What the actor sees

  /** A live node is active or provisional. */
  ghost predicate LiveNode(s: Snapshot, n: GraphNode) {
    n in s.nodes && (n.status == Active || n.status == Provisional)
  }

  ghost predicate UniqueNodes(s: Snapshot) { forall m, n :: m in s.nodes && n in s.nodes && m.id == n.id ==> m == n }

  ghost predicate UniqueRecords(s: Snapshot) {
    forall a, b :: a in s.records && b in s.records && a.id == b.id ==> a == b
  }

  lemma LiveExactly(s: Snapshot, n: GraphNode)
    requires UniqueNodes(s) && n in s.nodes
    ensures n.id in LiveNodes(s) <==> LiveNode(s, n)
    ensures n.id in LiveNodes(s) ==> LiveNodes(s)[n.id] == n
  {
    var keep, id := (n: GraphNode) => n.status != Inactive, (n: GraphNode) => n.id;
    var kept := Keep(s.nodes, keep);
    forall m ensures m in kept <==> m in s.nodes && m.status != Inactive { KeepMembers(s.nodes, keep, m); }
    DictionaryKey(kept, id, n.id);
    if LiveNode(s, n) { assert n in kept && id(n) == n.id; }
  }

  /** Some evidence behind a node: a stored record with the identifier, which the actor may read
      with every other version of its source object. */
  ghost predicate Backed(s: Snapshot, actor: Text, ref: nat, r: Record) {
    && r in s.records && r.id == ref
    && (r.acl == {} || actor in r.acl)
    && forall x :: x in s.records && x.connectorType == r.connectorType && x.objectId == r.objectId ==>
        x.acl == {} || actor in x.acl
  }

  /** A node is visible when it names its source and confidence and evidence all of which is
      readable and some of which is signed. */
  ghost predicate Sighted(s: Snapshot, actor: Text, n: GraphNode) {
    && |n.refs| > 0 && n.mode.Some? && n.confidence.Some?
    && (forall ref :: ref in n.refs ==> exists r :: Backed(s, actor, ref, r))
    && exists ref, r :: ref in n.refs && Backed(s, actor, ref, r) && r.author.Some? && |r.author.value| > 0
  }

  lemma RecordExactly(s: Snapshot, r: Record)
    requires UniqueRecords(s) && r in s.records
    ensures r.id in RecordById(s.records) && RecordById(s.records)[r.id] == r
  {
    var id := (r: Record) => r.id;
    assert id(r) == r.id;
    DictionaryKey(s.records, id, r.id);
  }

  lemma RefExactly(s: Snapshot, actor: Text, ref: nat)
    requires UniqueRecords(s)
    ensures ref in RecordById(s.records) ==>
              RecordById(s.records)[ref] in s.records && RecordById(s.records)[ref].id == ref
    ensures (ref in RecordById(s.records) && ChainAllowed(RecordById(s.records)[ref], s.records, actor)
             && Allowed(RecordById(s.records)[ref], actor)) <==> exists r :: Backed(s, actor, ref, r)
    ensures forall r :: Backed(s, actor, ref, r) ==> ref in RecordById(s.records) && RecordById(s.records)[ref] == r
  {
    var byId := RecordById(s.records);
    DictionaryKey(s.records, (r: Record) => r.id, ref);
    forall r | Backed(s, actor, ref, r) ensures ref in byId && byId[ref] == r { RecordExactly(s, r); }
    if ref in byId {
      var r := byId[ref];
      assert forall i :: 0 <= i < |s.records| ==> s.records[i] in s.records;
      if ChainAllowed(r, s.records, actor) && Allowed(r, actor) {
        forall x | x in s.records && x.connectorType == r.connectorType && x.objectId == r.objectId
          ensures x.acl == {} || actor in x.acl
        {
          var i :| 0 <= i < |s.records| && s.records[i] == x;
        }
        assert Backed(s, actor, ref, r);
      }
    }
  }

  lemma SightedExactly(s: Snapshot, actor: Text, n: GraphNode)
    requires UniqueRecords(s)
    ensures SideOf(n, s, actor).Some? <==> Sighted(s, actor, n)
  {
    var byId := RecordById(s.records);
    forall ref | ref in n.refs
      ensures (ref in byId && ChainAllowed(byId[ref], s.records, actor) && Allowed(byId[ref], actor)) <==>
                exists r :: Backed(s, actor, ref, r)
    {
      RefExactly(s, actor, ref);
    }
    assert forall i :: 0 <= i < |n.refs| ==> n.refs[i] in n.refs;
    if SideOf(n, s, actor).Some? { SideSighted(s, actor, n); }
    if Sighted(s, actor, n) { SightedSide(s, actor, n); }
  }

  lemma SideSighted(s: Snapshot, actor: Text, n: GraphNode)
    requires UniqueRecords(s) && SideOf(n, s, actor).Some?
    ensures Sighted(s, actor, n)
  {
    var byId := RecordById(s.records);
    var resolved := Resolve(n.refs, byId);
    forall ref | ref in n.refs ensures exists r :: Backed(s, actor, ref, r) {
      var i :| 0 <= i < |n.refs| && n.refs[i] == ref;
      assert resolved[i] == byId[ref];
      RefExactly(s, actor, ref);
    }
    var a :| a in Authors(resolved);
    var i :| 0 <= i < |resolved| && resolved[i].author == Some(a);
    RefExactly(s, actor, n.refs[i]);
    assert n.refs[i] in n.refs;
    var r :| Backed(s, actor, n.refs[i], r);
    assert r == resolved[i];
  }

  lemma SightedSide(s: Snapshot, actor: Text, n: GraphNode)
    requires UniqueRecords(s) && Sighted(s, actor, n)
    ensures SideOf(n, s, actor).Some?
  {
    var byId := RecordById(s.records);
    forall i | 0 <= i < |n.refs|
      ensures n.refs[i] in byId && ChainAllowed(byId[n.refs[i]], s.records, actor) && Allowed(byId[n.refs[i]], actor)
    {
      assert n.refs[i] in n.refs;
      RefExactly(s, actor, n.refs[i]);
    }
    var ref, r :| ref in n.refs && Backed(s, actor, ref, r) && r.author.Some? && |r.author.value| > 0;
    RefExactly(s, actor, ref);
    var i :| 0 <= i < |n.refs| && n.refs[i] == ref;
    var resolved := Resolve(n.refs, byId);
    assert resolved[i] == r;
    assert r.author.value in Authors(resolved);
  }

  /** The visible nodes are exactly the live nodes that are sighted. */
  lemma VisibleExactly(s: Snapshot, actor: Text, n: GraphNode)
    requires UniqueNodes(s) && UniqueRecords(s) && n in s.nodes
    ensures n.id in ViewOf(s, actor).nodes <==> LiveNode(s, n) && Sighted(s, actor, n)
    ensures n.id in ViewOf(s, actor).nodes ==> ViewOf(s, actor).nodes[n.id].node == n
  {
    LiveExactly(s, n);
    SightedExactly(s, actor, n);
  }

  /** A visible node's side carries its own text, source and evidence. */
  lemma SideCarries(s: Snapshot, actor: Text, n: GraphNode)
    requires SideOf(n, s, actor).Some?
    ensures var side, byId := SideOf(n, s, actor).value, RecordById(s.records);
            && (forall ref :: ref in n.refs ==> ref in byId)
            && side.claim == n.title && Some(side.mode) == n.mode
            && (forall ref :: ref in side.refs <==> ref in n.refs)
            && side.authors == Authors(Resolve(n.refs, byId))
            && side.observedAt == LatestSeen(Resolve(n.refs, byId))
  {
    assert forall i :: 0 <= i < |n.refs| ==> n.refs[i] in n.refs;
  }

  /** It is signed by the evidence's authors and observed when the last of it was. */
  lemma SideSigned(s: Snapshot, actor: Text, n: GraphNode)
    requires SideOf(n, s, actor).Some?
    ensures var side, byId := SideOf(n, s, actor).value, RecordById(s.records);
            && (forall a :: a in side.authors <==>
                |a| > 0 && exists ref :: ref in n.refs && ref in byId && byId[ref].author == Some(a))
            && (forall ref :: ref in n.refs ==> ref in byId && byId[ref].observedAt <= side.observedAt)
            && (exists ref :: ref in n.refs && ref in byId && byId[ref].observedAt == side.observedAt)
  {
    SideCarries(s, actor, n);
    var byId := RecordById(s.records);
    AuthorsResolved(n.refs, byId);
    LatestOf(Resolve(n.refs, byId));
    TimesResolved(n.refs, byId);
  }

  lemma AuthorsResolved(refs: seq<nat>, byId: map<nat, Record>)
    requires forall i :: 0 <= i < |refs| ==> refs[i] in byId
    ensures forall a :: a in Authors(Resolve(refs, byId)) <==>
              |a| > 0 && exists ref :: ref in refs && ref in byId && byId[ref].author == Some(a)
  {
    var resolved := Resolve(refs, byId);
    forall a
      ensures a in Authors(resolved) <==>
        |a| > 0 && exists ref :: ref in refs && ref in byId && byId[ref].author == Some(a) {
      if a in Authors(resolved) {
        var i :| 0 <= i < |resolved| && resolved[i].author == Some(a);
        assert refs[i] in refs && byId[refs[i]].author == Some(a);
      }
      if |a| > 0 && exists ref :: ref in refs && ref in byId && byId[ref].author == Some(a) {
        var i :| 0 <= i < |refs| && byId[refs[i]].author == Some(a);
        assert resolved[i].author == Some(a);
      }
    }
  }

  lemma TimesResolved(refs: seq<nat>, byId: map<nat, Record>)
    requires refs != [] && forall i :: 0 <= i < |refs| ==> refs[i] in byId
    ensures var t := LatestSeen(Resolve(refs, byId));
            && (forall ref :: ref in refs ==> ref in byId && byId[ref].observedAt <= t)
            && (exists ref :: ref in refs && ref in byId && byId[ref].observedAt == t)
  {
    var resolved := Resolve(refs, byId);
    LatestOf(resolved);
    forall ref | ref in refs ensures ref in byId && byId[ref].observedAt <= LatestSeen(resolved) {
      var i :| 0 <= i < |refs| && refs[i] == ref;
      assert resolved[i] == byId[ref];
    }
    var k :| 0 <= k < |resolved| && resolved[k].observedAt == LatestSeen(resolved);
    assert refs[k] in refs && byId[refs[k]] == resolved[k];
  }

  /** It is current when all of its evidence is. */
  lemma SideCurrent(s: Snapshot, actor: Text, n: GraphNode)
    requires SideOf(n, s, actor).Some?
    ensures SideOf(n, s, actor).value.current <==>
              forall ref :: ref in n.refs ==>
                  ref in RecordById(s.records) && Current(RecordById(s.records)[ref], s.ingestions)
  {
    var byId := RecordById(s.records);
    var resolved := Resolve(n.refs, byId);
    assert SideOf(n, s, actor).value.current <==>
        forall i :: 0 <= i < |resolved| ==> Current(resolved[i], s.ingestions);
    assert forall i :: 0 <= i < |n.refs| ==> n.refs[i] in n.refs && resolved[i] == byId[n.refs[i]];
  }

  lemma {:induction false} LatestOf(records: seq<Record>)
    requires records != []
    ensures forall k :: 0 <= k < |records| ==> records[k].observedAt <= LatestSeen(records)
    ensures exists k :: 0 <= k < |records| && records[k].observedAt == LatestSeen(records)
  {
    var n := |records| - 1;
    if n == 0 {
      assert records[0].observedAt == LatestSeen(records);
    } else {
      LatestOf(records[..n]);
      var k :| 0 <= k < n && records[..n][k].observedAt == LatestSeen(records[..n]);
      assert records[k].observedAt == LatestSeen(records) || records[n].observedAt == LatestSeen(records);
      forall j | 0 <= j < n
        ensures records[j].observedAt <= LatestSeen(records[..n])
      {
        assert records[j] == records[..n][j];
      }
    }
  }

  // ----- Links

  /** An active edge joins the two nodes, in either direction. */
  ghost predicate Linked(s: Snapshot, a: nat, b: nat) {
    exists e :: && e in s.edges && e.link.active
                && ((e.link.source == a && e.link.target == b) || (e.link.source == b && e.link.target == a))
  }

  lemma LinksExactly(s: Snapshot, nodes: set<nat>, a: nat, b: nat)
    ensures Adjacent(Links(s.edges), nodes, a, b) <==> a in nodes && b in nodes && Linked(s, a, b)
  {
    var links := Links(s.edges);
    if Adjacent(links, nodes, a, b) {
      var x :| x in links && Joins(x, nodes, a, b);
      var i :| 0 <= i < |links| && links[i] == x;
      assert s.edges[i] in s.edges && s.edges[i].link == x;
    }
    if a in nodes && b in nodes && Linked(s, a, b) {
      var e :| && e in s.edges && e.link.active
               && ((e.link.source == a && e.link.target == b) || (e.link.source == b && e.link.target == a));
      var i :| 0 <= i < |s.edges| && s.edges[i] == e;
      assert links[i] == e.link && links[i] in links && Joins(e.link, nodes, a, b);
    }
  }

  /** A node is obscured when it is visible and linked to a live node that is not. */
  lemma ObscuredExactly(s: Snapshot, actor: Text, n: nat)
    ensures n in ViewOf(s, actor).obscured <==>
              && n in ViewOf(s, actor).nodes
              && exists m :: m in LiveNodes(s) && m !in ViewOf(s, actor).nodes && Linked(s, n, m)
  {
    var live := LiveNodes(s).Keys;
    forall m
      ensures Adjacent(Links(s.edges), live, n, m) <==> n in live && m in live && Linked(s, n, m)
    {
      LinksExactly(s, live, n, m);
    }
  }

  /** Some visible neighbour is a requirement, an intent, or either of them or a decision. */
  ghost predicate Meets(s: Snapshot, v: View, n: nat, k: Sought) {
    exists m :: m in v.nodes && Linked(s, n, m) && Serves(k, v.nodes[m].node.kind)
  }

  ghost predicate Serves(k: Sought, t: Types.NodeType) {
    || (k != AnIntent && t == Types.Requirement)
    || (k != ARequirement && IntentType(t))
    || (k == AReason && t == Types.Decision)
  }

  lemma MeetsExactly(s: Snapshot, actor: Text, n: nat, k: Sought)
    requires n in ViewOf(s, actor).nodes
    ensures LinkedTo(ViewOf(s, actor), n, k) <==> Meets(s, ViewOf(s, actor), n, k)
  {
    var v := ViewOf(s, actor);
    LinkedExactly(s, actor, n);
    if LinkedTo(v, n, k) {
      var m :| m in v.linked[n] && m in v.nodes && Answers(k, v.nodes[m].node.kind);
      ServesExactly(k, v.nodes[m].node.kind);
    }
    if Meets(s, v, n, k) {
      var m :| m in v.nodes && Linked(s, n, m) && Serves(k, v.nodes[m].node.kind);
      ServesExactly(k, v.nodes[m].node.kind);
      assert m in v.linked[n];
    }
  }

  lemma LinkedExactly(s: Snapshot, actor: Text, n: nat)
    requires n in ViewOf(s, actor).nodes
    ensures var v := ViewOf(s, actor);
            n in v.linked && forall m :: m in v.linked[n] <==> m in v.nodes && Linked(s, n, m)
  {
    var v := ViewOf(s, actor);
    forall m ensures m in v.linked[n] <==> m in v.nodes && Linked(s, n, m) { LinksExactly(s, v.nodes.Keys, n, m); }
  }

  lemma ServesExactly(k: Sought, t: Types.NodeType)
    ensures Answers(k, t) <==> Serves(k, t)
  {}

  // ----- Findings

  predicate IntentType(t: Types.NodeType) {
    t in {Types.Context, Types.Need, Types.ProductIntent, Types.DesiredOutcome, Types.Assumption, Types.Principle,
        Types.Constraint}
  }

  predicate CodeType(t: Types.NodeType) {
    t in {Types.CodeModule, Types.File, Types.Symbol, Types.Endpoint, Types.Schema, Types.BuildArtifact,
        Types.Deployment}
  }

  /** The finding about one node, its own side the evidence. */
  ghost predicate About(hash: Hash, v: View, n: nat, d: Detector, o: Observation) {
    && n in v.nodes
    && o == Observation(n, {n}, [v.nodes[n].side], d, hash(Facts(d, n, {n}, v.nodes[n].side.refs)))
  }

  lemma AboutExactly(hash: Hash, v: View, n: nat, d: Detector)
    requires n in v.nodes
    ensures About(hash, v, n, d, Finding(hash, v, n, [n], d))
  {
    var o := Finding(hash, v, n, [n], d);
    assert [n][0] == n;
    forall x ensures x in o.affected <==> x == n {}
    assert o.affected == {n};
    assert o.sides == [v.nodes[n].side];
    assert o.sides[0] == v.nodes[n].side;
    assert RefsOf(o.sides) == v.nodes[n].side.refs;
  }

  lemma WhenExactly(hash: Hash, v: View, n: nat, d: Detector, c: bool, o: Observation)
    requires n in v.nodes
    ensures o in FindingWhen(hash, v, n, d, c) <==> c && About(hash, v, n, d, o)
  {
    AboutExactly(hash, v, n, d);
  }

  /** Current intent that no requirement is linked to. */
  ghost predicate Unrequired(s: Snapshot, v: View, n: nat) {
    n in v.nodes && v.nodes[n].side.current && IntentType(v.nodes[n].node.kind) && !Meets(s, v, n, ARequirement)
  }

  /** A current requirement that no intent is linked to. */
  ghost predicate Orphaned(s: Snapshot, v: View, n: nat) {
    n in v.nodes && v.nodes[n].side.current && v.nodes[n].node.kind == Types.Requirement && !Meets(s, v, n, AnIntent)
  }

  /** Current code that neither intent nor a requirement nor a decision is linked to. */
  ghost predicate Undocumented(s: Snapshot, v: View, n: nat) {
    n in v.nodes && v.nodes[n].side.current && CodeType(v.nodes[n].node.kind) && !Meets(s, v, n, AReason)
  }

  /** The gaps of the first loop on nodes that are not obscured. */
  lemma GapsExactly(hash: Hash, s: Snapshot, actor: Text, n: nat, o: Observation)
    ensures var v := ViewOf(s, actor);
            o in GapFindings(hash, v, n) <==>
              && n in v.nodes && n !in v.obscured
              && (|| (Unrequired(s, v, n) && About(hash, v, n, IntentWithoutRequirement, o))
                  || (Orphaned(s, v, n) && About(hash, v, n, RequirementWithoutIntent, o))
                  || (Undocumented(s, v, n) && About(hash, v, n, UndocumentedCode, o)))
  {
    var v := ViewOf(s, actor);
    if n in v.nodes && n !in v.obscured {
      forall k ensures LinkedTo(v, n, k) <==> Meets(s, v, n, k) { MeetsExactly(s, actor, n, k); }
      GapsOver(hash, s, v, n, o);
    }
  }

  lemma GapsOver(hash: Hash, s: Snapshot, v: View, n: nat, o: Observation)
    requires n in v.nodes && n !in v.obscured
    requires forall k :: LinkedTo(v, n, k) <==> Meets(s, v, n, k)
    ensures o in GapFindings(hash, v, n) <==>
              || (Unrequired(s, v, n) && About(hash, v, n, IntentWithoutRequirement, o))
              || (Orphaned(s, v, n) && About(hash, v, n, RequirementWithoutIntent, o))
              || (Undocumented(s, v, n) && About(hash, v, n, UndocumentedCode, o))
  {
    WhenExactly(hash, v, n, IntentWithoutRequirement, Unrequired(s, v, n), o);
    WhenExactly(hash, v, n, RequirementWithoutIntent, Orphaned(s, v, n), o);
    WhenExactly(hash, v, n, UndocumentedCode, Undocumented(s, v, n), o);
    GapParts(hash, s, v, n);
  }

  lemma GapParts(hash: Hash, s: Snapshot, v: View, n: nat)
    requires n in v.nodes && n !in v.obscured
    requires forall k :: LinkedTo(v, n, k) <==> Meets(s, v, n, k)
    ensures GapFindings(hash, v, n) ==
              FindingWhen(hash, v, n, IntentWithoutRequirement, Unrequired(s, v, n))
              + FindingWhen(hash, v, n, RequirementWithoutIntent, Orphaned(s, v, n))
              + FindingWhen(hash, v, n, UndocumentedCode, Undocumented(s, v, n))
  {}

  /** Tentative current intent that reaches code within two links. */
  ghost predicate Tentative(v: View, n: nat) {
    && n in v.nodes && v.nodes[n].side.current && IntentType(v.nodes[n].node.kind)
    && (v.nodes[n].node.status == Provisional || v.nodes[n].node.mode == Some(Inferred))
    && exists m :: m != n && m in v.nodes && WithinTwo(v.linked, {n}, m) && CodeType(v.nodes[m].node.kind)
  }

  /** The gaps of the last loop: tentative intent, and any node whose evidence is not current. */
  lemma LateExactly(hash: Hash, v: View, n: nat, o: Observation)
    ensures o in LateFindings(hash, v, n) <==>
              && n in v.nodes && n !in v.obscured
              && (|| (Tentative(v, n) && About(hash, v, n, RelevantProvisionalIntent, o))
                  || (!v.nodes[n].side.current && About(hash, v, n, StaleSourceEvidence, o)))
  {
    if n in v.nodes && n !in v.obscured {
      ReachExactly(v, n);
      WhenExactly(hash, v, n, RelevantProvisionalIntent, Tentative(v, n), o);
      WhenExactly(hash, v, n, StaleSourceEvidence, !v.nodes[n].side.current, o);
      LateParts(hash, v, n);
    }
  }

  lemma LateParts(hash: Hash, v: View, n: nat)
    requires n in v.nodes && n !in v.obscured
    ensures LateFindings(hash, v, n) ==
              FindingWhen(hash, v, n, RelevantProvisionalIntent, Tentative(v, n))
              + FindingWhen(hash, v, n, StaleSourceEvidence, !v.nodes[n].side.current)
  {
    ReachExactly(v, n);
  }

  lemma ReachExactly(v: View, n: nat)
    ensures (TwoHops(v.linked, {n}) - {n}) * Implementations(v) != {} <==>
              exists m :: m != n && m in v.nodes && WithinTwo(v.linked, {n}, m) && CodeType(v.nodes[m].node.kind)
  {
    forall m
      ensures m in TwoHops(v.linked, {n}) <==> WithinTwo(v.linked, {n}, m)
    {
      TwoHopsIsDistance(v.linked, {n}, m);
    }
    forall m ensures m in Implementations(v) <==> m in v.nodes && CodeType(v.nodes[m].node.kind) {}
    if (TwoHops(v.linked, {n}) - {n}) * Implementations(v) != {} {
      var m :| m in (TwoHops(v.linked, {n}) - {n}) * Implementations(v);
    }
    if exists m :: m != n && m in v.nodes && WithinTwo(v.linked, {n}, m) && CodeType(v.nodes[m].node.kind) {
      var m :| m != n && m in v.nodes && WithinTwo(v.linked, {n}, m) && CodeType(v.nodes[m].node.kind);
      assert m in (TwoHops(v.linked, {n}) - {n}) * Implementations(v);
    }
  }

  /** The finding about the first of two nodes, both sides the evidence. */
  ghost predicate AboutTwo(hash: Hash, v: View, l: nat, r: nat, d: Detector, o: Observation) {
    && l in v.nodes && r in v.nodes
    && o == Observation(l, {l, r}, [v.nodes[l].side, v.nodes[r].side], d,
                        hash(Facts(d, l, {l, r}, v.nodes[l].side.refs + v.nodes[r].side.refs)))
  }

  lemma AboutTwoExactly(hash: Hash, v: View, l: nat, r: nat, d: Detector)
    requires l in v.nodes && r in v.nodes
    ensures AboutTwo(hash, v, l, r, d, Finding(hash, v, l, [l, r], d))
  {
    var o := Finding(hash, v, l, [l, r], d);
    var sides := [v.nodes[l].side, v.nodes[r].side];
    assert o.affected == {l, r} by {
      assert [l, r][0] == l && [l, r][1] == r;
    }
    assert o.sides == sides;
    assert RefsOf(sides) == v.nodes[l].side.refs + v.nodes[r].side.refs by {
      assert sides[0] == v.nodes[l].side && sides[1] == v.nodes[r].side;
    }
  }

  /** The findings on an edge between two open current nodes: a requirement changed after the code
      that implements it, and explicit positions of different authors that contradict. */
  lemma EdgeExactly(hash: Hash, v: View, id: nat, o: Observation)
    ensures o in EdgeFindings(hash, v, id) <==>
              && id in EdgesById(v)
              && var e := EdgesById(v)[id];
              && var l, r := e.link.source, e.link.target;
              && l in v.nodes && l !in v.obscured && r in v.nodes && r !in v.obscured
              && v.nodes[l].side.current && v.nodes[r].side.current
              && (|| (&& e.relation == ImplementedBy
                      && v.nodes[l].node.kind == Types.Requirement && CodeType(v.nodes[r].node.kind)
                      && v.nodes[l].node.modifiedAt > v.nodes[r].node.modifiedAt && AboutTwo(hash, v, l, r, CodeLag, o))
                  || (&& e.relation == ContradictsWith && v.nodes[l].node.mode == Some(Explicit)
                      && v.nodes[r].node.mode == Some(Explicit) && v.nodes[l].side.authors != v.nodes[r].side.authors
                      && AboutTwo(hash, v, l, r, ConflictingSources, o)))
  {
    if id in EdgesById(v) {
      var link := EdgesById(v)[id].link;
      if link.source in v.nodes && link.target in v.nodes {
        AboutTwoExactly(hash, v, link.source, link.target, CodeLag);
        AboutTwoExactly(hash, v, link.source, link.target, ConflictingSources);
      }
    }
  }

  /** An edge of the view leaves the requirement with this relation for such a visible node. */
  ghost predicate Leads(v: View, n: nat, relation: Relation, kinds: Types.NodeType -> bool, m: nat) {
    m in v.nodes && kinds(v.nodes[m].node.kind)
    && exists e :: e in v.edges && e.link.source == n && e.link.target == m && e.relation == relation
  }

  lemma {:induction false} TargetsExactly(v: View, edges: seq<GraphEdge>, n: nat, relation: Relation,
                                          kinds: Types.NodeType -> bool, m: nat)
    ensures m in Targets(v, edges, n, relation, kinds) <==>
              && m in v.nodes && kinds(v.nodes[m].node.kind)
              && exists e :: e in edges && e.link.source == n && e.link.target == m && e.relation == relation
  {
    if edges != [] {
      TargetsExactly(v, edges[..|edges| - 1], n, relation, kinds, m);
      assert edges == edges[..|edges| - 1] + [edges[|edges| - 1]];
      assert edges[|edges| - 1] in edges;
    }
  }

  lemma {:induction false} ModifiedExactly(v: View, ids: seq<nat>)
    requires ids != [] && forall i :: 0 <= i < |ids| ==> ids[i] in v.nodes
    ensures forall i :: 0 <= i < |ids| ==> v.nodes[ids[i]].node.modifiedAt <= LastModified(v, ids)
    ensures exists i :: 0 <= i < |ids| && v.nodes[ids[i]].node.modifiedAt == LastModified(v, ids)
  {
    var n := |ids| - 1;
    if n == 0 {
      assert v.nodes[ids[0]].node.modifiedAt == LastModified(v, ids);
    } else {
      ModifiedExactly(v, ids[..n]);
      var k :| 0 <= k < n && v.nodes[ids[..n][k]].node.modifiedAt == LastModified(v, ids[..n]);
      assert || v.nodes[ids[k]].node.modifiedAt == LastModified(v, ids)
             || v.nodes[ids[n]].node.modifiedAt == LastModified(v, ids);
      forall j | 0 <= j < n
        ensures v.nodes[ids[j]].node.modifiedAt <= LastModified(v, ids[..n])
      {
        assert ids[j] == ids[..n][j];
      }
    }
  }

  ghost predicate Codes(v: View, n: nat, m: nat) {
    Leads(v, n, ImplementedBy, (t: Types.NodeType) => IsImplementation(t), m)
  }

  ghost predicate Tests(v: View, n: nat, m: nat) { Leads(v, n, VerifiedBy, (t: Types.NodeType) => t.Test?, m) }

  /** A node or edge leads to code or tests of these types. */
  lemma LeadsExactly(v: View, n: nat, m: nat)
    ensures Codes(v, n, m) <==>
              && m in v.nodes && CodeType(v.nodes[m].node.kind)
              && exists e :: e in v.edges && e.link.source == n && e.link.target == m && e.relation == ImplementedBy
    ensures Tests(v, n, m) <==>
              && m in v.nodes && v.nodes[m].node.kind == Types.Test
              && exists e :: e in v.edges && e.link.source == n && e.link.target == m && e.relation == VerifiedBy
  {}

  /** Some code was modified after every test. */
  ghost predicate Outran(v: View, n: nat) {
    exists c :: Codes(v, n, c) && forall m :: Tests(v, n, m) ==> v.nodes[c].node.modifiedAt > v.nodes[m].node.modifiedAt
  }

  /** A requirement's tests lag when it, all its code and all its tests are current, there are tests,
      and some code was modified after every test. */
  lemma TestsExactly(hash: Hash, v: View, n: nat)
    ensures TestFindings(hash, v, n) != [] <==>
              && n in v.nodes && n !in v.obscured && v.nodes[n].node.kind == Types.Requirement &&
                  v.nodes[n].side.current
              && (exists m :: Tests(v, n, m))
              && (forall m :: Codes(v, n, m) || Tests(v, n, m) ==> v.nodes[m].side.current)
              && Outran(v, n)
    ensures forall o :: o in TestFindings(hash, v, n) ==>
              o.subject == n && o.detector == TestLag && |TestFindings(hash, v, n)| == 1
  {
    var code, test := (t: Types.NodeType) => IsImplementation(t), (t: Types.NodeType) => t.Test?;
    var cs, ts := Targets(v, v.edges, n, ImplementedBy, code), Targets(v, v.edges, n, VerifiedBy, test);
    forall m ensures m in cs <==> Codes(v, n, m) { TargetsExactly(v, v.edges, n, ImplementedBy, code, m); }
    forall m ensures m in ts <==> Tests(v, n, m) { TargetsExactly(v, v.edges, n, VerifiedBy, test, m); }
    AllCurrentExactly(v, n, cs, ts);
    if cs != [] && ts != [] { LaterExactly(v, cs, ts); }
    Nonempty(cs);
    Nonempty(ts);
  }

  lemma Nonempty(xs: seq<nat>)
    ensures xs != [] <==> exists x :: x in xs
  {
    if xs != [] { assert xs[0] in xs; }
  }

  lemma AllCurrentExactly(v: View, n: nat, cs: seq<nat>, ts: seq<nat>)
    ensures (forall i :: 0 <= i < |[n] + cs + ts| ==> CurrentNode(v, ([n] + cs + ts)[i])) <==>
              CurrentNode(v, n) && forall m :: m in cs || m in ts ==> CurrentNode(v, m)
  {
    var all := [n] + cs + ts;
    if forall i :: 0 <= i < |all| ==> CurrentNode(v, all[i]) {
      assert all[0] == n;
      forall m | m in cs || m in ts ensures CurrentNode(v, m) {
        assert m in all;
        var i :| 0 <= i < |all| && all[i] == m;
      }
    }
    if CurrentNode(v, n) && forall m :: m in cs || m in ts ==> CurrentNode(v, m) {
      forall i | 0 <= i < |all| ensures CurrentNode(v, all[i]) { assert all[i] == n || all[i] in cs || all[i] in ts; }
    }
  }

  lemma LaterExactly(v: View, cs: seq<nat>, ts: seq<nat>)
    requires cs != [] && ts != [] && (forall i :: 0 <= i < |cs| ==> cs[i] in v.nodes) && forall i :: 0 <= i < |ts| ==>
              ts[i] in v.nodes
    ensures LastModified(v, cs) > LastModified(v, ts) <==>
              exists c :: c in cs && forall m :: m in ts ==> v.nodes[c].node.modifiedAt > v.nodes[m].node.modifiedAt
  {
    ModifiedExactly(v, cs);
    ModifiedExactly(v, ts);
    var k :| 0 <= k < |cs| && v.nodes[cs[k]].node.modifiedAt == LastModified(v, cs);
    var j :| 0 <= j < |ts| && v.nodes[ts[j]].node.modifiedAt == LastModified(v, ts);
    assert cs[k] in cs && ts[j] in ts;
  }

  // ----- All findings

  lemma {:induction false} FlatMember(ids: seq<nat>, f: nat -> seq<Observation>, o: Observation)
    ensures o in FlatMap(ids, f) <==> exists n :: n in ids && o in f(n)
  {
    if ids != [] {
      FlatMember(ids[..|ids| - 1], f, o);
      assert ids == ids[..|ids| - 1] + [ids[|ids| - 1]];
      assert ids[|ids| - 1] in ids;
    }
  }

  /** The candidates of a well-formed snapshot are exactly the findings on its visible nodes and
      edges. */
  lemma FindingsExactly(hash: Hash, v: View, o: Observation)
    ensures o in Findings(hash, v) <==>
              || (exists n :: && n in v.nodes
                              && (|| o in GapFindings(hash, v, n) || o in TestFindings(hash, v, n)
                                  || o in LateFindings(hash, v, n)))
              || (exists e :: e in EdgesById(v) && o in EdgeFindings(hash, v, e))
  {
    var nodes, edges := InOrder(v.nodes.Keys), InOrder(EdgesById(v).Keys);
    FlatMember(nodes, (n: nat) => GapFindings(hash, v, n), o);
    FlatMember(edges, (e: nat) => EdgeFindings(hash, v, e), o);
    FlatMember(nodes, (n: nat) => TestFindings(hash, v, n), o);
    FlatMember(nodes, (n: nat) => LateFindings(hash, v, n), o);
  }

  /** The edges of the view are the active edges between visible nodes. */
  lemma EdgesExactly(s: Snapshot, actor: Text, e: GraphEdge)
    ensures e in ViewOf(s, actor).edges <==>
              && e in s.edges && e.link.active
              && e.link.source in ViewOf(s, actor).nodes && e.link.target in ViewOf(s, actor).nodes
  {
    var nodes := SeenNodes(s, actor);
    KeepMembers(s.edges, (e: GraphEdge) => e.link.active && e.link.source in nodes && e.link.target in nodes, e);
  }

  /** A snapshot is examined when no two records share an identifier and no two ingestions a position. */
  lemma WellFormedExactly(s: Snapshot)
    ensures WellFormed(s) <==>
              && (forall i, j :: 0 <= i < j < |s.records| ==> s.records[i].id != s.records[j].id)
              && (forall i, j :: 0 <= i < j < |s.ingestions| ==>
                    s.ingestions[i].connectorId != s.ingestions[j].connectorId ||
                        s.ingestions[i].sequence != s.ingestions[j].sequence)
  {
    var ids := seq(|s.records|, i requires 0 <= i < |s.records| => s.records[i].id);
    var positions := seq(|s.ingestions|, i requires 0 <= i < |s.ingestions| => (s.ingestions[i].connectorId,
        s.ingestions[i].sequence));
    CountDistinct(ids);
    CountDistinct(positions);
    assert forall i :: 0 <= i < |s.records| ==> ids[i] == s.records[i].id;
    assert forall i :: 0 <= i < |s.ingestions| ==>
        positions[i] == (s.ingestions[i].connectorId, s.ingestions[i].sequence);
    var idSet := set i | 0 <= i < |ids| :: ids[i];
    var idSet' := set i | 0 <= i < |s.records| :: s.records[i].id;
    forall x ensures x in idSet <==> x in idSet' {
      if x in idSet { var i :| 0 <= i < |ids| && ids[i] == x; assert s.records[i].id == x; }
      if x in idSet' { var i :| 0 <= i < |ids| && s.records[i].id == x; assert ids[i] == x; }
    }
    assert idSet == idSet';
    var at := set i | 0 <= i < |positions| :: positions[i];
    var at' := set i | 0 <= i < |s.ingestions| :: (s.ingestions[i].connectorId, s.ingestions[i].sequence);
    forall x ensures x in at <==> x in at' {
      if x in at { var i :| 0 <= i < |positions| &&
          positions[i] == x; assert (s.ingestions[i].connectorId, s.ingestions[i].sequence) == x; }
      if x in at' {
        var i :| 0 <= i < |positions| && (s.ingestions[i].connectorId, s.ingestions[i].sequence) == x;
        assert positions[i] == x;
      }
    }
    assert at == at';
  }
}
