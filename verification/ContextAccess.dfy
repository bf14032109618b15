/** Access to context packs over access lists, principals and scopes directly. */
module ContextAccess {
  import opened Common
  import opened Collections
  import opened ContextGraph
  import opened ContextPack
  import opened ContextNoninterference
  import opened ContextRefs

  /** A record is open to everybody, lists the principal, or lists one of the principals; and a
      request for a scope gets only records of that scope. */
  ghost predicate MayRead(e: Evidence, scope: Option<Text>, actor: Actor) {
    && (|| e.acl == {}
        || (actor.Principal? && actor.name in e.acl)
        || (actor.Principals? && exists name :: name in actor.names && name in e.acl))
    && (scope.Some? ==> e.scope == scope)
  }

  lemma AccessExactly(e: Evidence, scope: Option<Text>, actor: Actor)
    ensures EvidenceAllowed(e, scope, actor) <==> MayRead(e, scope, actor)
  {
    if actor.Principals? && exists name :: name in actor.names && name in e.acl {
      var name :| name in actor.names && name in e.acl;
      assert name in e.acl * actor.names;
    }
    if actor.Principals? && e.acl * actor.names != {} {
      var name :| name in e.acl * actor.names;
      assert name in actor.names && name in e.acl;
    }
  }

  /** Record i is the current one of the identifier, and the actor may read it. */
  ghost predicate Offers(w: World, r: Request, ref: EvidenceId, i: int) {
    && 0 <= i < |w.evidence| && w.evidence[i].id == ref
    && (forall j :: i < j < |w.evidence| ==> w.evidence[j].id != ref)
    && MayRead(w.evidence[i], r.scope, r.actor)
  }

  /** The reference names a stored record that the actor may read. */
  ghost predicate Permitted(w: World, r: Request, ref: EvidenceId) { exists i :: Offers(w, r, ref, i) }

  /** Item i is the last one with the identifier. */
  ghost predicate LastWith<T>(items: seq<T>, id: T -> nat, k: nat, i: int) {
    && 0 <= i < |items| && id(items[i]) == k
    && forall j :: i < j < |items| ==> id(items[j]) != k
  }

  lemma {:induction false} CurrentAt<T>(items: seq<T>, id: T -> nat, k: nat)
    requires k in ById(items, id)
    ensures exists i :: LastWith(items, id, k, i) && items[i] == ById(items, id)[k]
  {
    var n := |items| - 1;
    if id(items[n]) == k {
      assert LastWith(items, id, k, n);
    } else {
      CurrentAt(items[..n], id, k);
      var i :| LastWith(items[..n], id, k, i) && items[..n][i] == ById(items[..n], id)[k];
      assert items[i] == items[..n][i];
      forall j | i < j < |items| ensures id(items[j]) != k { assert j < n ==> items[j] == items[..n][j]; }
      assert LastWith(items, id, k, i);
    }
  }

  lemma PermittedExactly(w: World, r: Request, ref: EvidenceId)
    ensures EvidenceReadable(w, r, ref) <==> Permitted(w, r, ref)
  {
    var id := (e: Evidence) => e.id;
    if ref in EvidenceById(w) {
      CurrentAt(w.evidence, id, ref);
      var i :| LastWith(w.evidence, id, ref, i) && w.evidence[i] == EvidenceById(w)[ref];
      AccessExactly(w.evidence[i], r.scope, r.actor);
      assert MayRead(w.evidence[i], r.scope, r.actor) ==> Offers(w, r, ref, i);
      forall k | Offers(w, r, ref, k) ensures k == i {}
    }
    if Permitted(w, r, ref) {
      var i :| Offers(w, r, ref, i);
      assert w.evidence[i] in w.evidence && id(w.evidence[i]) == ref;
      DictionaryKey(w.evidence, id, ref);
    }
  }

  lemma RefsExactly(w: World, r: Request, refs: seq<EvidenceId>)
    ensures RefsAllowed(EvidenceById(w), refs, r.scope, r.actor) <==> forall ref :: ref in refs ==> Permitted(w, r, ref)
  {
    forall ref | ref in refs
      ensures EvidenceReadable(w, r, ref) <==> Permitted(w, r, ref)
    {
      PermittedExactly(w, r, ref);
    }
    forall i | 0 <= i < |refs| ensures refs[i] in refs {}
  }

  /** Every evidence reference a pack carries, in an item or in its list, names a stored record
      that the actor may read. */
  lemma PackCitesPermitted(w: World, r: Request, words: Text -> set<Text>)
    requires BuildPack(w, r, words).Some?
    ensures var p := BuildPack(w, r, words).value;
            && (forall g, i, ref :: g in p.nodes && 0 <= i < |p.nodes[g]| && ref in p.nodes[g][i].evidenceRefs ==>
                Permitted(w, r, ref))
            && (forall i, ref :: 0 <= i < |p.openCases| && ref in p.openCases[i].evidenceRefs ==> Permitted(w, r, ref))
            && (forall ref :: ref in p.evidenceRefs ==> Permitted(w, r, ref))
  {
    var p := BuildPack(w, r, words).value;
    PackIsReadable(w, r, words);
    forall g, i, ref | g in p.nodes && 0 <= i < |p.nodes[g]| && ref in p.nodes[g][i].evidenceRefs
      ensures Permitted(w, r, ref)
    {
      assert ItemReadable(w, r, p.nodes[g][i]);
      RefsExactly(w, r, p.nodes[g][i].evidenceRefs);
    }
    forall i, ref | 0 <= i < |p.openCases| && ref in p.openCases[i].evidenceRefs ensures Permitted(w, r, ref) {
      RefsExactly(w, r, p.openCases[i].evidenceRefs);
    }
    forall ref | ref in p.evidenceRefs ensures Permitted(w, r, ref) { PermittedExactly(w, r, ref); }
  }

  /** In a valid graph the visible nodes are exactly the active ones all of whose evidence the actor
      may read. */
  lemma VisibleExactly(w: World, r: Request, n: Node)
    requires GraphValid(w) && n in w.nodes
    ensures n.id in ActiveNodes(w, r) <==> n.active && forall ref :: ref in n.evidenceRefs ==> Permitted(w, r, ref)
    ensures n.id in ActiveNodes(w, r) ==> ActiveNodes(w, r)[n.id] == n
  {
    RefsExactly(w, r, n.evidenceRefs);
    KeepMembers(w.nodes, (n: Node) => n.active && NodeReadable(w, r, n), n);
    var id := (n: Node) => n.id;
    if n in Visible(w, r) { assert id(n) == n.id; }
    DictionaryKey(Visible(w, r), id, n.id);
    if n.id in ActiveNodes(w, r) { ActiveIsReadable(w, r, n.id); }
  }

  // ----- Deleting what the access lists exclude

  /** Some reference of the node or case names no record the actor may read. */
  ghost predicate Excludes(w: World, r: Request, refs: seq<EvidenceId>) {
    exists ref :: ref in refs && !Permitted(w, r, ref)
  }

  ghost predicate ExcludedNode(w: World, r: Request, id: NodeId) {
    exists n :: n in w.nodes && n.id == id && Excludes(w, r, n.evidenceRefs)
  }

  ghost predicate ExcludedCase(w: World, r: Request, id: CaseId) {
    id in CasesById(w) && Excludes(w, r, CasesById(w)[id].evidenceRefs)
  }

  /** The world without the records that the access lists or the scope withhold, the nodes and
      cases that cite any such or missing record, and the edges at those nodes. */
  ghost function WithoutExcluded(w: World, r: Request): World {
    World(Keep(w.nodes, (n: Node) => !Excludes(w, r, n.evidenceRefs)),
          Keep(w.edges, (e: Edge) => !ExcludedNode(w, r, e.source) && !ExcludedNode(w, r, e.target)),
          Keep(w.cases, (c: Case) => !ExcludedCase(w, r, c.id)),
          Keep(w.evidence, (e: Evidence) => Permitted(w, r, e.id)), w.limits)
  }

  lemma NodesSame(w: World, r: Request)
    ensures WithoutExcluded(w, r).nodes == ReadableNodes(w, r) && WithoutExcluded(w, r).edges == ReadableEdges(w, r)
  {
    forall n: Node
      ensures NodeReadable(w, r, n) <==> !Excludes(w, r, n.evidenceRefs)
    {
      RefsExactly(w, r, n.evidenceRefs);
    }
    KeepSame(w.nodes, (n: Node) => NodeReadable(w, r, n), (n: Node) => !Excludes(w, r, n.evidenceRefs));
    forall id ensures HiddenNode(w, r, id) <==> ExcludedNode(w, r, id) {}
    KeepSame(w.edges, (e: Edge) => !HiddenNode(w, r, e.source) && !HiddenNode(w, r, e.target),
             (e: Edge) => !ExcludedNode(w, r, e.source) && !ExcludedNode(w, r, e.target));
  }

  lemma CasesSame(w: World, r: Request)
    ensures WithoutExcluded(w, r).cases == Withhold(w, r).cases
  {
    var id, keep := (c: Case) => c.id, (c: Case) => CaseReadable(w, r, c);
    forall c | c in w.cases
      ensures c.id in CasesById(w) && (CaseReadable(w, r, CasesById(w)[c.id]) <==> !ExcludedCase(w, r, c.id))
    {
      assert id(c) == c.id;
      DictionaryKey(w.cases, id, c.id);
      RefsExactly(w, r, CasesById(w)[c.id].evidenceRefs);
    }
    LastingSame(w.cases, id, keep, (c: Case) => !ExcludedCase(w, r, c.id));
  }

  lemma RecordsSame(w: World, r: Request)
    ensures WithoutExcluded(w, r).evidence == Withhold(w, r).evidence
  {
    var id, keep := (e: Evidence) => e.id, (e: Evidence) => Allows(r, e);
    forall e: Evidence
      ensures (e.id in EvidenceById(w) && Allows(r, EvidenceById(w)[e.id])) <==> Permitted(w, r, e.id)
    {
      PermittedExactly(w, r, e.id);
    }
    LastingSame(w.evidence, id, keep, (e: Evidence) => Permitted(w, r, e.id));
  }

  /** Non-interference over access lists: for every valid graph, deleting what they withhold from
      the actor leaves the whole result unchanged. */
  lemma ExcludedIsInvisible(w: World, r: Request, words: Text -> set<Text>)
    requires GraphValid(w)
    ensures BuildPack(WithoutExcluded(w, r), r, words) == BuildPack(w, r, words)
  {
    NodesSame(w, r);
    CasesSame(w, r);
    RecordsSame(w, r);
    Noninterference(w, r, words);
  }
}
