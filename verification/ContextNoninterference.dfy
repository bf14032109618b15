/** What an actor may not read has no influence on the context pack it receives. */
module ContextNoninterference {
  import opened Common
  import opened Collections
  import opened Ranking
  import opened ContextGraph
  import opened ContextPack
  import Chronology
  import EvidenceStore
  import CaseStore

  // ----- Deleting from a dictionary

  function Restrict<T>(entries: map<nat, T>, keep: T -> bool): map<nat, T> {
    map k | k in entries && keep(entries[k]) :: entries[k]
  }

  /** An older kept item would surface if the dropped current one were deleted. */
  ghost predicate Superseded<T(!new)>(items: seq<T>, id: T -> nat, keep: T -> bool) {
    exists x :: x in items && keep(x) && id(x) in ById(items, id) && !keep(ById(items, id)[id(x)])
  }

  lemma {:induction false} CurrentKept<T>(items: seq<T>, id: T -> nat, keep: T -> bool, k: nat)
    requires k in ById(items, id) && keep(ById(items, id)[k])
    ensures k in ById(Keep(items, keep), id) && ById(Keep(items, keep), id)[k] == ById(items, id)[k]
  {
    var init, last := items[..|items| - 1], items[|items| - 1];
    var kept := Keep(init, keep);
    if keep(last) {
      assert Keep(items, keep) == kept + [last];
      assert (kept + [last])[..|kept|] == kept;
    } else {
      assert Keep(items, keep) == kept;
    }
    if id(last) != k { CurrentKept(init, id, keep, k); }
  }

  /** Deleting the dropped items restricts the dictionary exactly when no dropped current
      item supersedes a kept one. */
  lemma {:induction false} DeletionRestricts<T(!new)>(items: seq<T>, id: T -> nat, keep: T -> bool)
    ensures ById(Keep(items, keep), id) == Restrict(ById(items, id), keep) <==> !Superseded(items, id, keep)
  {
    var all, kept := ById(items, id), ById(Keep(items, keep), id);
    var want := Restrict(all, keep);
    if Superseded(items, id, keep) {
      var x :| x in items && keep(x) && id(x) in all && !keep(all[id(x)]);
      KeepMembers(items, keep, x);
      DictionaryKey(Keep(items, keep), id, id(x));
      assert id(x) in kept && id(x) !in want;
    } else {
      forall k ensures k in kept <==> k in want {
        DictionaryKey(Keep(items, keep), id, k);
        DictionaryKey(items, id, k);
        if k in kept {
          KeepMembers(items, keep, kept[k]);
          DictionaryKey(items, id, id(kept[k]));
        }
        if k in want { CurrentKept(items, id, keep, k); }
      }
      forall k | k in want ensures kept[k] == want[k] { CurrentKept(items, id, keep, k); }
    }
  }

  /** Items whose identifier's current version is kept. */
  function Lasting<T>(items: seq<T>, id: T -> nat, keep: T -> bool): seq<T> {
    var all := ById(items, id);
    Keep(items, x => id(x) in all && keep(all[id(x)]))
  }

  /** Deleting every version of the identifiers whose current version is dropped always
      restricts the dictionary. */
  lemma {:induction false} LastingRestricts<T(!new)>(items: seq<T>, id: T -> nat, keep: T -> bool)
    ensures ById(Lasting(items, id, keep), id) == Restrict(ById(items, id), keep)
  {
    var all := ById(items, id);
    var stays := x => id(x) in all && keep(all[id(x)]);
    forall k | k in all ensures all[k] in items && id(all[k]) == k { DictionaryKey(items, id, k); }
    DeletionRestricts(items, id, stays);
    assert !Superseded(items, id, stays);
    assert Restrict(all, stays) == Restrict(all, keep);
  }

  lemma LastingSame<T(!new)>(items: seq<T>, id: T -> nat, keep: T -> bool, stays': T -> bool)
    requires forall x :: x in items ==> (id(x) in ById(items, id) && keep(ById(items, id)[id(x)])) == stays'(x)
    ensures Lasting(items, id, keep) == Keep(items, stays')
  {
    var all := ById(items, id);
    var stays := x => id(x) in all && keep(all[id(x)]);
    KeepSame(items, stays, stays');
  }

  // ----- Redaction

  predicate Allows(r: Request, e: Evidence) { EvidenceAllowed(e, r.scope, r.actor) }

  /** A node the actor may not read. */
  ghost predicate HiddenNode(w: World, r: Request, id: NodeId) {
    exists n :: n in w.nodes && n.id == id && !NodeReadable(w, r, n)
  }

  /** `Graph.assert_invariants`: no two nodes share an identifier. */
  ghost predicate GraphValid(w: World) { forall m, n :: m in w.nodes && n in w.nodes && m.id == n.id ==> m == n }

  ghost function ReadableNodes(w: World, r: Request): seq<Node> { Keep(w.nodes, (n: Node) => NodeReadable(w, r, n)) }

  ghost function ReadableEdges(w: World, r: Request): seq<Edge> {
    Keep(w.edges, (e: Edge) => !HiddenNode(w, r, e.source) && !HiddenNode(w, r, e.target))
  }

  /** Delete each node, incident edge, case version and evidence record the actor may not read. */
  ghost function Redact(w: World, r: Request): World {
    World(ReadableNodes(w, r), ReadableEdges(w, r),
          Keep(w.cases, (c: Case) => CaseReadable(w, r, c)), Keep(w.evidence, (e: Evidence) => Allows(r, e)), w.limits)
  }

  /** Delete them with every older version of theirs. */
  ghost function Withhold(w: World, r: Request): World {
    World(ReadableNodes(w, r), ReadableEdges(w, r),
          Lasting(w.cases, (c: Case) => c.id, (c: Case) => CaseReadable(w, r, c)),
          Lasting(w.evidence, (e: Evidence) => e.id, (e: Evidence) => Allows(r, e)), w.limits)
  }

  /** `w'` is `w` without what the actor may not read, as the provider's dictionaries see it. */
  ghost predicate Redacts(w: World, w': World, r: Request) {
    && w'.nodes == ReadableNodes(w, r) && w'.edges == ReadableEdges(w, r) && w'.limits == w.limits
    && CasesById(w') == Restrict(CasesById(w), (c: Case) => CaseReadable(w, r, c))
    && EvidenceById(w') == Restrict(EvidenceById(w), (e: Evidence) => Allows(r, e))
  }

  lemma WithholdRedacts(w: World, r: Request)
    ensures Redacts(w, Withhold(w, r), r)
  {
    LastingRestricts(w.cases, (c: Case) => c.id, (c: Case) => CaseReadable(w, r, c));
    LastingRestricts(w.evidence, (e: Evidence) => e.id, (e: Evidence) => Allows(r, e));
  }

  /** Record-wise deletion does the same exactly when no unreadable record or case replaced a
      readable one under the same identifier. */
  lemma RedactRedacts(w: World, r: Request)
    ensures Redacts(w, Redact(w, r), r) <==>
              && !Superseded(w.cases, (c: Case) => c.id, (c: Case) => CaseReadable(w, r, c))
              && !Superseded(w.evidence, (e: Evidence) => e.id, (e: Evidence) => Allows(r, e))
  {
    DeletionRestricts(w.cases, (c: Case) => c.id, (c: Case) => CaseReadable(w, r, c));
    DeletionRestricts(w.evidence, (e: Evidence) => e.id, (e: Evidence) => Allows(r, e));
  }

  lemma SameAccess(w: World, w': World, r: Request, refs: seq<EvidenceId>)
    requires Redacts(w, w', r)
    ensures RefsAllowed(EvidenceById(w'), refs, r.scope, r.actor) ==
              RefsAllowed(EvidenceById(w), refs, r.scope, r.actor)
  {}

  lemma SameActive(w: World, w': World, r: Request)
    requires Redacts(w, w', r)
    ensures ActiveNodes(w', r) == ActiveNodes(w, r)
  {
    forall n: Node ensures NodeReadable(w', r, n) == NodeReadable(w, r, n) { SameAccess(w, w', r, n.evidenceRefs); }
    KeepTwice(w.nodes, (n: Node) => NodeReadable(w, r, n), (n: Node) => n.active && NodeReadable(w, r, n),
              (n: Node) => n.active && NodeReadable(w', r, n));
    assert Visible(w', r) == Visible(w, r);
  }

  lemma ActiveIsReadable(w: World, r: Request, id: NodeId)
    requires id in ActiveNodes(w, r)
    ensures var n := ActiveNodes(w, r)[id]; n in w.nodes && n.id == id && n.active && NodeReadable(w, r, n)
  {
    DictionaryKey(Visible(w, r), (n: Node) => n.id, id);
    KeepMembers(w.nodes, (n: Node) => n.active && NodeReadable(w, r, n), ActiveNodes(w, r)[id]);
  }

  lemma SameAdjacent(w: World, r: Request, a: NodeId, b: NodeId)
    requires GraphValid(w)
    ensures Adjacent(ReadableEdges(w, r), ActiveNodes(w, r).Keys, a, b) ==
              Adjacent(w.edges, ActiveNodes(w, r).Keys, a, b)
  {
    var nodes := ActiveNodes(w, r).Keys;
    var keep := (e: Edge) => !HiddenNode(w, r, e.source) && !HiddenNode(w, r, e.target);
    forall e: Edge ensures e in Keep(w.edges, keep) <==> e in w.edges && keep(e) { KeepMembers(w.edges, keep, e); }
    forall id | id in nodes ensures !HiddenNode(w, r, id) { ActiveIsReadable(w, r, id); }
    if Adjacent(w.edges, nodes, a, b) {
      var e :| e in w.edges && Joins(e, nodes, a, b);
      assert e in Keep(w.edges, keep);
    }
  }

  lemma SameSelection(w: World, w': World, r: Request, seeds: set<NodeId>)
    requires GraphValid(w) && Redacts(w, w', r)
    ensures Selected(w', ActiveNodes(w, r), seeds) == Selected(w, ActiveNodes(w, r), seeds)
  {
    var nodes := ActiveNodes(w, r).Keys;
    forall a | a in nodes ensures Neighbours(w'.edges, nodes)[a] == Neighbours(w.edges, nodes)[a] {
      forall b ensures Adjacent(w'.edges, nodes, a, b) == Adjacent(w.edges, nodes, a, b) { SameAdjacent(w, r, a, b); }
    }
    assert Neighbours(w'.edges, nodes) == Neighbours(w.edges, nodes);
  }

  lemma SameCappedCases(w: World, w': World, r: Request, selected: set<NodeId>, scores: Score)
    requires Redacts(w, w', r)
    ensures CappedCases(w', r, selected, scores) == CappedCases(w, r, selected, scores)
    ensures forall id :: id in CappedCases(w, r, selected, scores) ==>
              id in CasesById(w) && id in CasesById(w') && CasesById(w')[id] == CasesById(w)[id]
  {
    forall c: Case ensures CaseReadable(w', r, c) == CaseReadable(w, r, c) { SameAccess(w, w', r, c.evidenceRefs); }
    var chosen := SelectedCases(w, r, selected);
    assert SelectedCases(w', r, selected) == chosen;
    var cases, cases' := CasesById(w), CasesById(w');
    assert (map id | id in chosen :: CaseScore(cases'[id], scores))
        == (map id | id in chosen :: CaseScore(cases[id], scores));
    CapMembers(w.limits, OpenCases, Ranked(chosen, map id | id in chosen :: CaseScore(cases[id], scores)), r.fixedCaps);
  }

  lemma CapMembers(limits: map<Category, int>, c: Category, values: seq<nat>, fixedCaps: bool)
    ensures forall x :: x in Cap(limits, c, values, fixedCaps) ==> x in values
  {}

  lemma {:induction false} SameCaseItems(cases: map<nat, Case>, cases': map<nat, Case>, ids: seq<CaseId>)
    requires forall id :: id in ids ==> id in cases && id in cases' && cases[id] == cases'[id]
    ensures CaseItems(cases', ids) == CaseItems(cases, ids)
  {
    if ids != [] {
      assert ids[0] in ids;
      assert forall id :: id in ids[1..] ==> id in ids;
      SameCaseItems(cases, cases', ids[1..]);
    }
  }

  lemma SameHolders(w: World, w': World, active: map<NodeId, Node>, nodes: seq<NodeId>, cases: seq<CaseId>,
                    scores: Score)
    requires forall id :: id in cases ==>
              id in CasesById(w) && id in CasesById(w') && CasesById(w')[id] == CasesById(w)[id]
    ensures Holders(w', active, nodes, cases, scores) == Holders(w, active, nodes, cases, scores)
  {}

  lemma SameAssembly(w: World, w': World, r: Request, active: map<NodeId, Node>, selected: set<NodeId>, scores: Score)
    requires w'.limits == w.limits && CappedCases(w', r, selected, scores) == CappedCases(w, r, selected, scores)
    requires forall id :: id in CappedCases(w, r, selected, scores) ==>
               id in CasesById(w) && id in CasesById(w') && CasesById(w')[id] == CasesById(w)[id]
    ensures Assemble(w', r, active, selected, scores) == Assemble(w, r, active, selected, scores)
  {
    SameItems(w, w', r, active, selected, scores);
    SameCaseItems(CasesById(w), CasesById(w'), CappedCases(w, r, selected, scores));
    SameEvidence(w, w', r, active, selected, scores);
    SameContextNodes(w, w', r, active, selected, scores);
  }

  lemma SameEvidence(w: World, w': World, r: Request, active: map<NodeId, Node>, selected: set<NodeId>, scores: Score)
    requires w'.limits == w.limits && CappedCases(w', r, selected, scores) == CappedCases(w, r, selected, scores)
    requires forall id :: id in CappedCases(w, r, selected, scores) ==>
               id in CasesById(w) && id in CasesById(w') && CasesById(w')[id] == CasesById(w)[id]
    ensures PackEvidence(w', r, active, selected, scores) == PackEvidence(w, r, active, selected, scores)
  {
    SameContextNodes(w, w', r, active, selected, scores);
    SameHolders(w, w', active, ContextNodes(w, r, active, selected, scores), CappedCases(w, r, selected, scores),
        scores);
  }

  lemma SameItems(w: World, w': World, r: Request, active: map<NodeId, Node>, selected: set<NodeId>, scores: Score)
    requires w.limits == w'.limits
    ensures PackNodes(w', r, active, selected, scores) == PackNodes(w, r, active, selected, scores)
  {}

  lemma SameContextNodes(w: World, w': World, r: Request, active: map<NodeId, Node>, selected: set<NodeId>,
                         scores: Score)
    requires w.limits == w'.limits
    ensures ContextNodes(w', r, active, selected, scores) == ContextNodes(w, r, active, selected, scores)
  {
    assert seq(|GROUPS|, i requires 0 <= i < |GROUPS| => CappedGroup(w, r, active, selected, scores, GROUPS[i]))
        == seq(|GROUPS|, i requires 0 <= i < |GROUPS| => CappedGroup(w', r, active, selected, scores, GROUPS[i]));
  }

  lemma RedactionInvisible(w: World, w': World, r: Request, words: Text -> set<Text>)
    requires GraphValid(w) && Redacts(w, w', r)
    ensures BuildPack(w', r, words) == BuildPack(w, r, words)
  {
    SameActive(w, w', r);
    var active := ActiveNodes(w, r);
    var seeded := SeedsAndScores(active, QueryScores(words, r.query, active), r.seeds);
    if seeded.Some? {
      SameSelection(w, w', r, seeded.value.0);
      SameCappedCases(w, w', r, Selected(w, active, seeded.value.0), seeded.value.1);
      SameAssembly(w, w', r, active, Selected(w, active, seeded.value.0), seeded.value.1);
    }
  }

  /** Non-interference, for every valid graph and every sequence of cases and records: deleting each
      node, incident edge, case and evidence record the actor may not read, with the older versions
      it replaced, leaves the whole result unchanged, refusals included. */
  lemma Noninterference(w: World, r: Request, words: Text -> set<Text>)
    requires GraphValid(w)
    ensures BuildPack(Withhold(w, r), r, words) == BuildPack(w, r, words)
  {
    WithholdRedacts(w, r);
    RedactionInvisible(w, Withhold(w, r), r, words);
  }

  /** The world was read from the stores: a valid graph, records of a readable evidence file, and
      case versions of an accepted case file. */
  ghost predicate FromStores(w: World, lines: seq<EvidenceStore.Line>, versions: seq<Case>) {
    && GraphValid(w)
    && EvidenceStore.Parse(lines).Some?
    && (forall e :: e in w.evidence ==> e in EvidenceStore.Parse(lines).value.records)
    && CaseStore.Versions(versions).Some? && (forall c :: c in w.cases ==> c in versions)
  }

  /** In a stored world no unreadable version ever replaced a readable one, for any actor. */
  lemma StoredNeverSuperseded(w: World, r: Request, lines: seq<EvidenceStore.Line>, versions: seq<Case>)
    requires FromStores(w, lines, versions)
    ensures !Superseded(w.cases, (c: Case) => c.id, (c: Case) => CaseReadable(w, r, c))
    ensures !Superseded(w.evidence, (e: Evidence) => e.id, (e: Evidence) => Allows(r, e))
  {
    EvidenceStore.ReadableIsConsistent(lines);
    forall e | e in w.evidence ensures e.id in EvidenceById(w) && Allows(r, EvidenceById(w)[e.id]) == Allows(r, e) {
      DictionaryKey(w.evidence, (e: Evidence) => e.id, e.id);
    }
    forall c | c in w.cases
      ensures c.id in CasesById(w) && CaseReadable(w, r, CasesById(w)[c.id]) == CaseReadable(w, r, c)
    {
      DictionaryKey(w.cases, (c: Case) => c.id, c.id);
      CaseStore.IdentityNeverChanges(versions, CasesById(w)[c.id], c);
    }
  }

  /** Over stored worlds plain record-wise deletion is invisible, for every request. */
  lemma StoredNoninterference(w: World, r: Request, words: Text -> set<Text>, lines: seq<EvidenceStore.Line>,
                              versions: seq<Case>)
    requires FromStores(w, lines, versions)
    ensures BuildPack(Redact(w, r), r, words) == BuildPack(w, r, words)
  {
    StoredNeverSuperseded(w, r, lines, versions);
    RedactRedacts(w, r);
    RedactionInvisible(w, Redact(w, r), r, words);
  }

  // ----- Versions no store delivers

  const OPEN_RECORD: Evidence := Chronology.Record(1, "docs", "spec", 0, None, {}, None, {}, None)
  const SECRET_RECORD: Evidence := Chronology.Record(2, "docs", "memo", 0, None, {"owner"}, None, {}, None)
  const FIRST_VERSION: Case := Case(1, "code_lag", 1, [], [1], 0, OpenCase, [])
  const SECOND_VERSION: Case := Case(1, "code_lag", 1, [], [2], 0, OpenCase, [])
  const REVISED: World := World([Node(1, Need, "need", true, None, [])], [], [FIRST_VERSION, SECOND_VERSION],
                                [OPEN_RECORD, SECRET_RECORD], map[])
  const STRANGER: Request := Request("", None, NoActor, ExactId(1), false)

  lemma RevisedEvidence()
    ensures EvidenceById(REVISED) == map[1 := OPEN_RECORD, 2 := SECRET_RECORD]
    ensures CaseReadable(REVISED, STRANGER, FIRST_VERSION) && !CaseReadable(REVISED, STRANGER, SECOND_VERSION)
    ensures !Superseded(REVISED.evidence, (e: Evidence) => e.id, (e: Evidence) => Allows(STRANGER, e))
  {
    var id := (e: Evidence) => e.id;
    assert [OPEN_RECORD, SECRET_RECORD][..1] == [OPEN_RECORD];
    assert ById([OPEN_RECORD], id) == map[1 := OPEN_RECORD];
    assert ById([OPEN_RECORD, SECRET_RECORD], id) == map[1 := OPEN_RECORD][2 := SECRET_RECORD];
    assert EvidenceById(REVISED) == map[1 := OPEN_RECORD, 2 := SECRET_RECORD];
    assert SECOND_VERSION.evidenceRefs[0] == 2;
  }

  lemma RevisedCases()
    ensures CasesById(REVISED) == map[1 := SECOND_VERSION]
    ensures CasesById(Redact(REVISED, STRANGER)) == map[1 := FIRST_VERSION]
    ensures Superseded(REVISED.cases, (c: Case) => c.id, (c: Case) => CaseReadable(REVISED, STRANGER, c))
  {
    RevisedEvidence();
    var id, keep := (c: Case) => c.id, (c: Case) => CaseReadable(REVISED, STRANGER, c);
    var cases := [FIRST_VERSION, SECOND_VERSION];
    assert cases[..1] == [FIRST_VERSION] && [FIRST_VERSION][..0] == [];
    assert ById([FIRST_VERSION], id) == map[1 := FIRST_VERSION];
    assert ById(cases, id) == map[1 := SECOND_VERSION];
    assert Keep([FIRST_VERSION], keep) == [FIRST_VERSION];
    assert Keep(cases, keep) == [FIRST_VERSION];
    assert FIRST_VERSION in cases && keep(FIRST_VERSION) && id(FIRST_VERSION) == 1;
  }

  lemma RevisedActive(w: World)
    requires w == REVISED || w == Redact(REVISED, STRANGER)
    ensures 1 in ActiveNodes(w, STRANGER)
  {}

  lemma RedactedReadable()
    ensures CaseReadable(Redact(REVISED, STRANGER), STRANGER, FIRST_VERSION)
  {
    RevisedEvidence();
    var id, keep := (e: Evidence) => e.id, (e: Evidence) => Allows(STRANGER, e);
    DeletionRestricts(REVISED.evidence, id, keep);
    assert EvidenceById(Redact(REVISED, STRANGER)) == Restrict(EvidenceById(REVISED), keep);
  }

  lemma OnlyCaseShown(w: World, selected: set<NodeId>, scores: Score, c: Case)
    requires CasesById(w) == map[1 := c] && Nonterminal(c.status) && Touches(c, selected) && w.limits == map[]
    ensures PackCases(w, STRANGER, selected, scores) ==
            if CaseReadable(w, STRANGER, c) then [CaseItem(c.id, c.kind, c.subject, c.evidenceRefs)] else []
  {
    var chosen := SelectedCases(w, STRANGER, selected);
    if CaseReadable(w, STRANGER, c) {
      assert chosen == {1};
      var r := Ranked(chosen, map id | id in chosen :: CaseScore(CasesById(w)[id], scores));
      assert |r| == 1 && r[0] in r;
      assert r == [1] && r[1..] == [];
      assert CappedCases(w, STRANGER, selected, scores) == [1] && [1][1..] == [];
      assert CaseItems(CasesById(w), []) == [];
    } else {
      assert chosen == {};
    }
  }

  /** On bare sequences the older versions must go too: a case whose current version the actor may
      not read is withheld altogether, and deleting that version alone brings its readable older
      version back. No case store accepts such a pair. */
  lemma SupersededCaseSurfaces(words: Text -> set<Text>)
    ensures CaseStore.Versions(REVISED.cases).None?
    ensures BuildPack(REVISED, STRANGER, words).Some? && BuildPack(REVISED, STRANGER, words).value.openCases == []
    ensures BuildPack(Redact(REVISED, STRANGER), STRANGER, words).Some?
    ensures |BuildPack(Redact(REVISED, STRANGER), STRANGER, words).value.openCases| == 1
  {
    RevisedCases();
    RevisedEvidence();
    RevisedShows(REVISED, words, SECOND_VERSION);
    RedactedReadable();
    RevisedShows(Redact(REVISED, STRANGER), words, FIRST_VERSION);
    RevisedRefused();
  }

  lemma RevisedRefused()
    ensures CaseStore.Versions([FIRST_VERSION, SECOND_VERSION]).None?
  {
    assert [FIRST_VERSION, SECOND_VERSION][..1] == [FIRST_VERSION] && [FIRST_VERSION][..0] == [];
    assert CaseStore.Versions([]) == Some(CaseStore.Latest(map[], map[]));
    assert CaseStore.Versions([FIRST_VERSION]).value.cases[1] == FIRST_VERSION;
  }

  lemma RevisedShows(w: World, words: Text -> set<Text>, c: Case)
    requires w == REVISED || w == Redact(REVISED, STRANGER)
    requires CasesById(w) == map[1 := c] && Nonterminal(c.status) && c.subject == 1
    ensures BuildPack(w, STRANGER, words).Some?
    ensures |BuildPack(w, STRANGER, words).value.openCases| == if CaseReadable(w, STRANGER, c) then 1 else 0
  {
    RevisedActive(w);
    ExactIdCases(w, STRANGER, words, 1);
    var active := ActiveNodes(w, STRANGER);
    OnlyCaseShown(w, Selected(w, active, {1}), QueryScores(words, "", active), c);
  }

  lemma ExactIdCases(w: World, r: Request, words: Text -> set<Text>, id: NodeId)
    requires r.seeds == ExactId(id) && id in ActiveNodes(w, r)
    ensures BuildPack(w, r, words).Some?
    ensures var active := ActiveNodes(w, r); var selected := Selected(w, active, {id});
            && id in selected
            && BuildPack(w, r, words).value.openCases
               == CaseItems(CasesById(w), CappedCases(w, r, selected, QueryScores(words, r.query, active)))
  {}
}
