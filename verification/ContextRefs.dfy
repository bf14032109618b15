/** Exact references (context/provider.py `for_refs`) and what a pack may name. */
module ContextRefs {
  import opened Common
  import opened Collections
  import opened Ranking
  import opened ContextGraph
  import opened ContextPack
  import opened ContextNoninterference

  const MAX_REFS := 256

  predicate WellFormedIds(ids: seq<NodeId>) {
    && ids != [] && |ids| <= MAX_REFS
    && 0 !in ids
    && |Elements(ids)| == |ids|
  }

  predicate WellFormedActor(actor: Actor) {
    match actor
    case NoActor => false
    case Principal(_) => true
    case Principals(names) => names != {} && "" !in names
  }

  function RefsRequest(ids: seq<NodeId>, actor: Actor): Request {
    Request("", None, actor, ExactIds(Elements(ids)), true)
  }

  /** The cap that applies to one group of an exact-reference pack. */
  function EffectiveCap(limits: map<Category, int>, c: Category): nat {
    var limit := if c in limits && limits[c] < HardLimit(c) then limits[c] else HardLimit(c);
    if limit < 0 then 0 else limit
  }

  /** An active node with this identifier that the actor may read. */
  ghost predicate ActiveAndVisible(w: World, actor: Actor, id: NodeId) {
    exists n :: n in w.nodes && n.id == id && n.active && RefsAllowed(EvidenceById(w), n.evidenceRefs, None, actor)
  }

  function Requested(w: World, ids: seq<NodeId>, actor: Actor, g: Group): set<NodeId> {
    InGroup(ActiveNodes(w, RefsRequest(ids, actor)), Elements(ids), g)
  }

  predicate Grouped(w: World, ids: seq<NodeId>, actor: Actor, id: NodeId) {
    var active := ActiveNodes(w, RefsRequest(ids, actor));
    id in active && GroupOf(active[id].kind).Some?
  }

  /** When exact references are answered. */
  ghost predicate Available(w: World, ids: seq<NodeId>, actor: Actor) {
    && WellFormedIds(ids) && WellFormedActor(actor)
    && (forall id :: id in ids ==> ActiveAndVisible(w, actor, id))
    && Fits(w, ids, actor)
  }

  function Returned(p: Pack): set<NodeId> {
    set g, i | g in p.nodes && 0 <= i < |p.nodes[g]| && p.nodes[g][i].NodeItem? :: p.nodes[g][i].id
  }

  // ----- Requested nodes survive their caps exactly when they fit

  lemma VisibleIsActive(w: World, ids: seq<NodeId>, actor: Actor, id: NodeId)
    ensures id in ActiveNodes(w, RefsRequest(ids, actor)) <==> ActiveAndVisible(w, actor, id)
  {
    var r := RefsRequest(ids, actor);
    DictionaryKey(Visible(w, r), (n: Node) => n.id, id);
    forall n: Node ensures n in Visible(w, r) <==> n in w.nodes && n.active && NodeReadable(w, r, n) {
      KeepMembers(w.nodes, (n: Node) => n.active && NodeReadable(w, r, n), n);
    }
    if ActiveAndVisible(w, actor, id) {
      var n :| n in w.nodes && n.id == id && n.active && RefsAllowed(EvidenceById(w), n.evidenceRefs, None, actor);
      assert n in Visible(w, r) && ((n: Node) => n.id)(n) == id;
    }
  }

  /** Requested nodes score one and everything else zero. */
  function RefScores(active: map<NodeId, Node>, ids: set<NodeId>): Score {
    map n | n in active :: if n in ids then 1 else 0
  }

  lemma NoMatches(active: map<NodeId, Node>, words: Text -> set<Text>)
    ensures forall n :: n in active ==> QueryScores(words, "", active)[n] == 0
  {}

  lemma BoostedZero(active: map<NodeId, Node>, scores: Score, ids: set<NodeId>)
    requires scores.Keys == active.Keys && forall n :: n in active ==> scores[n] == 0
    ensures Boosted(scores, ids) == RefScores(active, ids)
  {}

  lemma RefsSeeds(active: map<NodeId, Node>, ids: set<NodeId>, words: Text -> set<Text>)
    ensures SeedsAndScores(active, QueryScores(words, "", active), ExactIds(ids))
            == if ids <= active.Keys then Some((ids, RefScores(active, ids))) else None
  {
    var scores := QueryScores(words, "", active);
    NoMatches(active, words);
    BoostedZero(active, scores, ids);
  }

  lemma RequestedFirst(active: map<NodeId, Node>, ids: set<NodeId>, selected: set<NodeId>, g: Group)
    requires ids <= selected && ids <= active.Keys
    ensures InGroup(active, ids, g) <= InGroup(active, selected, g)
    ensures forall a, b :: a in InGroup(active, ids, g) && b in InGroup(active, selected, g) && b !in ids ==>
              Before(RefScores(active, ids), a, b)
  {}

  lemma FixedCap(limits: map<Category, int>, c: Category, values: seq<nat>)
    ensures var cap := EffectiveCap(limits, c);
            Cap(limits, c, values, true) == values[..if cap < |values| then cap else |values|]
  {}

  /** Within one group, every requested node is returned exactly when they all fit. */
  lemma GroupKept(limits: map<Category, int>, active: map<NodeId, Node>, ids: set<NodeId>, selected: set<NodeId>,
                  g: Group)
    requires ids <= selected && ids <= active.Keys
    ensures var ranked := Ranked(InGroup(active, selected, g), RefScores(active, ids));
            AllIn(InGroup(active, ids, g), Cap(limits, Nodes(g), ranked, true))
            <==> |InGroup(active, ids, g)| <= EffectiveCap(limits, Nodes(g))
  {
    var part, whole, scores := InGroup(active, ids, g), InGroup(active, selected, g), RefScores(active, ids);
    var cap := EffectiveCap(limits, Nodes(g));
    RequestedFirst(active, ids, selected, g);
    SubsetSize(part, whole);
    FixedCap(limits, Nodes(g), Ranked(whole, scores));
    CutKeeps(whole, scores, part, if cap < |whole| then cap else |whole|);
  }

  lemma {:induction false} ItemIds(active: map<NodeId, Node>, ids: seq<NodeId>, n: NodeId)
    requires forall id :: id in active ==> active[id].id == id
    requires forall id :: id in ids ==> id in active
    ensures (forall i :: 0 <= i < |NodeItems(active, ids)| ==> NodeItems(active, ids)[i].NodeItem?)
    ensures n in ids <==> exists i :: 0 <= i < |NodeItems(active, ids)| && NodeItems(active, ids)[i].id == n
  {
    if ids != [] {
      assert ids[0] in ids && forall id :: id in ids[1..] ==> id in ids;
      ItemIds(active, ids[1..], n);
      var rest := NodeItems(active, ids[1..]);
      var all := NodeItems(active, ids);
      assert all == [ItemOf(active[ids[0]])] + rest;
      assert ids == [ids[0]] + ids[1..];
      if n == ids[0] { assert all[0].id == n; }
      if n in ids[1..] {
        var i :| 0 <= i < |rest| && rest[i].id == n;
        assert all[i + 1].id == n;
      }
      if exists i :: 0 <= i < |all| && all[i].id == n {
        var i :| 0 <= i < |all| && all[i].id == n;
        if i > 0 { assert rest[i - 1].id == n; }
      }
    }
  }

  lemma CappedInGroup(w: World, r: Request, active: map<NodeId, Node>, selected: set<NodeId>, scores: Score, g: Group)
    ensures forall n :: n in CappedGroup(w, r, active, selected, scores, g) ==> n in InGroup(active, selected, g)
  {}

  lemma EveryGroup(g: Group)
    ensures g in GROUPS
  {
    assert || g == GROUPS[0] || g == GROUPS[1] || g == GROUPS[2] || g == GROUPS[3]
           || g == GROUPS[4] || g == GROUPS[5] || g == GROUPS[6];
  }

  lemma GroupItems(w: World, r: Request, active: map<NodeId, Node>, selected: set<NodeId>, scores: Score, g: Group,
                   n: NodeId)
    requires forall id :: id in active ==> active[id].id == id
    ensures var items := PackNodes(w, r, active, selected, scores);
            && g in items
            && (forall i :: 0 <= i < |items[g]| ==> items[g][i].NodeItem?)
            && (n in CappedGroup(w, r, active, selected, scores, g) <==>
                exists i :: 0 <= i < |items[g]| && items[g][i].id == n)
  {
    EveryGroup(g);
    CappedInGroup(w, r, active, selected, scores, g);
    ItemIds(active, CappedGroup(w, r, active, selected, scores, g), n);
  }

  /** The identifiers a pack returns are those of its capped groups. */
  lemma ReturnedIds(w: World, r: Request, active: map<NodeId, Node>, selected: set<NodeId>, scores: Score, n: NodeId)
    requires forall id :: id in active ==> active[id].id == id
    ensures n in Returned(Assemble(w, r, active, selected, scores)) <==>
              exists g :: n in CappedGroup(w, r, active, selected, scores, g)
  {
    ReturnedFrom(Assemble(w, r, active, selected, scores), n);
    forall g: Group
      ensures n in CappedGroup(w, r, active, selected, scores, g) <==>
                ReturnedIn(PackNodes(w, r, active, selected, scores), g, n)
    {
      GroupItems(w, r, active, selected, scores, g, n);
    }
  }

  ghost predicate ReturnedIn(nodes: map<Group, seq<Item>>, g: Group, n: NodeId) {
    g in nodes && exists i :: 0 <= i < |nodes[g]| && nodes[g][i].NodeItem? && nodes[g][i].id == n
  }

  lemma ReturnedFrom(p: Pack, n: NodeId)
    ensures n in Returned(p) <==> exists g :: ReturnedIn(p.nodes, g, n)
  {
    if n in Returned(p) {
      var g, i :| g in p.nodes && 0 <= i < |p.nodes[g]| && p.nodes[g][i].NodeItem? && p.nodes[g][i].id == n;
      assert ReturnedIn(p.nodes, g, n);
    }
  }

  lemma ActiveKeyed(w: World, r: Request)
    ensures forall id :: id in ActiveNodes(w, r) ==> ActiveNodes(w, r)[id].id == id
  {
    forall id | id in ActiveNodes(w, r) ensures ActiveNodes(w, r)[id].id == id { ActiveIsReadable(w, r, id); }
  }

  lemma ReturnedSplit(w: World, r: Request, active: map<NodeId, Node>, wanted: set<NodeId>, selected: set<NodeId>,
                      scores: Score)
    requires wanted <= active.Keys && forall id :: id in active ==> active[id].id == id
    ensures wanted <= Returned(Assemble(w, r, active, selected, scores)) <==>
              && (forall n :: n in wanted ==> GroupOf(active[n].kind).Some?)
              && (forall g :: AllIn(InGroup(active, wanted, g), CappedGroup(w, r, active, selected, scores, g)))
  {
    var returned := Returned(Assemble(w, r, active, selected, scores));
    if wanted <= returned {
      forall n | n in wanted
        ensures GroupOf(active[n].kind).Some? &&
                  n in CappedGroup(w, r, active, selected, scores, GroupOf(active[n].kind).value)
      {
        ReturnedIds(w, r, active, selected, scores, n);
        var g :| n in CappedGroup(w, r, active, selected, scores, g);
        CappedInGroup(w, r, active, selected, scores, g);
      }
    }
    if && (forall n :: n in wanted ==> GroupOf(active[n].kind).Some?)
       && (forall g :: AllIn(InGroup(active, wanted, g), CappedGroup(w, r, active, selected, scores, g))) {
      forall n | n in wanted ensures n in returned {
        var g := GroupOf(active[n].kind).value;
        assert n in InGroup(active, wanted, g) &&
            AllIn(InGroup(active, wanted, g), CappedGroup(w, r, active, selected, scores, g));
        ReturnedIds(w, r, active, selected, scores, n);
      }
    }
  }

  /** Every requested node has a group and each group's requested nodes fit its cap. */
  ghost predicate Fits(w: World, ids: seq<NodeId>, actor: Actor) {
    && (forall id :: id in ids ==> Grouped(w, ids, actor, id))
    && (forall g :: |Requested(w, ids, actor, g)| <= EffectiveCap(w.limits, Nodes(g)))
  }

  /** All requested nodes are returned exactly when they fit. */
  lemma AllReturned(w: World, ids: seq<NodeId>, actor: Actor)
    requires Elements(ids) <= ActiveNodes(w, RefsRequest(ids, actor)).Keys
    ensures var r := RefsRequest(ids, actor); var active := ActiveNodes(w, r);
            var selected := Selected(w, active, Elements(ids));
            Elements(ids) <= Returned(Assemble(w, r, active, selected, RefScores(active, Elements(ids))))
            <==> Fits(w, ids, actor)
  {
    var r := RefsRequest(ids, actor);
    var active := ActiveNodes(w, r);
    ActiveKeyed(w, r);
    SeedsSelected(w, active, Elements(ids));
    FitsByGroup(w, r, active, Elements(ids), Selected(w, active, Elements(ids)));
    assert forall id :: id in ids <==> id in Elements(ids);
  }

  lemma SeedsSelected(w: World, active: map<NodeId, Node>, seeds: set<NodeId>)
    ensures seeds <= Selected(w, active, seeds)
  {}

  lemma FitsByGroup(w: World, r: Request, active: map<NodeId, Node>, wanted: set<NodeId>, selected: set<NodeId>)
    requires r.fixedCaps && wanted <= active.Keys && wanted <= selected
    requires forall id :: id in active ==> active[id].id == id
    ensures wanted <= Returned(Assemble(w, r, active, selected, RefScores(active, wanted))) <==>
              && (forall n :: n in wanted ==> GroupOf(active[n].kind).Some?)
              && (forall g :: |InGroup(active, wanted, g)| <= EffectiveCap(w.limits, Nodes(g)))
  {
    var scores := RefScores(active, wanted);
    ReturnedSplit(w, r, active, wanted, selected, scores);
    forall g: Group
      ensures AllIn(InGroup(active, wanted, g), CappedGroup(w, r, active, selected, scores, g))
              <==> |InGroup(active, wanted, g)| <= EffectiveCap(w.limits, Nodes(g))
    {
      GroupKept(w.limits, active, wanted, selected, g);
    }
  }

  /** `for_refs` answers exactly the available requests, and then with the whole pack. */
  method ForRefs(w: World, ids: seq<NodeId>, actor: Actor, words: Text -> set<Text>) returns (result: Option<Pack>)
    ensures result.Some? <==> Available(w, ids, actor)
    ensures result.Some? ==>
              result == BuildPack(w, RefsRequest(ids, actor), words) && Elements(ids) <= Returned(result.value)
  {
    if !WellFormedIds(ids) || !WellFormedActor(actor) { return None; }
    result := Build(w, RefsRequest(ids, actor), words);
    RefsOutcome(w, ids, actor, words);
    if result.Some? && !(Elements(ids) <= Returned(result.value)) { return None; }
  }

  lemma RefsOutcome(w: World, ids: seq<NodeId>, actor: Actor, words: Text -> set<Text>)
    requires WellFormedIds(ids) && WellFormedActor(actor)
    ensures var b := BuildPack(w, RefsRequest(ids, actor), words);
            (b.Some? && Elements(ids) <= Returned(b.value)) <==> Available(w, ids, actor)
  {
    var active := ActiveNodes(w, RefsRequest(ids, actor));
    RefsSeeds(active, Elements(ids), words);
    forall id ensures id in active <==> ActiveAndVisible(w, actor, id) { VisibleIsActive(w, ids, actor, id); }
    assert forall id :: id in ids <==> id in Elements(ids);
    if Elements(ids) <= active.Keys { AllReturned(w, ids, actor); }
  }

  // ----- What a pack may name

  ghost predicate Held(holders: seq<Holder>, e: EvidenceId) { exists i :: 0 <= i < |holders| && e in holders[i].refs }

  /** The maxima list exactly the references held, each with the greatest score of its
      holders, or zero when none is positive. */
  lemma {:induction false} MaximaAreMaxima(holders: seq<Holder>, e: EvidenceId)
    ensures e in Maxima(holders) <==> Held(holders, e)
    ensures At(Maxima(holders), e) >= 0
    ensures forall i :: 0 <= i < |holders| && e in holders[i].refs ==> holders[i].score <= At(Maxima(holders), e)
    ensures At(Maxima(holders), e) > 0 ==>
              exists i :: 0 <= i < |holders| && e in holders[i].refs && holders[i].score == At(Maxima(holders), e)
  {
    if holders != [] {
      var k := |holders| - 1;
      MaximaAreMaxima(holders[..k], e);
      var before, last := Maxima(holders[..k]), holders[k];
      assert e in Elements(last.refs) <==> e in last.refs;
      assert Maxima(holders) == Raise(before, last);
      if Held(holders[..k], e) {
        var i :| 0 <= i < k && e in holders[..k][i].refs;
        assert e in holders[i].refs;
      }
      if Held(holders, e) {
        var i :| 0 <= i < |holders| && e in holders[i].refs;
        if i < k { assert e in holders[..k][i].refs; }
      }
      forall i | 0 <= i < |holders| && e in holders[i].refs ensures holders[i].score <= At(Maxima(holders), e) {
        if i < k { assert holders[..k][i] == holders[i]; }
      }
      if At(before, e) > 0 {
        var i :| 0 <= i < k && e in holders[..k][i].refs && holders[..k][i].score == At(before, e);
        assert e in holders[i].refs && holders[i].score == At(before, e);
      }
    }
  }

  lemma HoldersReadable(w: World, r: Request, active: map<NodeId, Node>, nodes: seq<NodeId>, cases: seq<CaseId>,
                        scores: Score, i: nat)
    requires i < |Holders(w, active, nodes, cases, scores)|
    requires forall id :: id in active ==> NodeReadable(w, r, active[id])
    requires forall id :: id in cases ==> id in CasesById(w) && CaseReadable(w, r, CasesById(w)[id])
    ensures RefsAllowed(EvidenceById(w), Holders(w, active, nodes, cases, scores)[i].refs, r.scope, r.actor)
  {}

  lemma CasesReadable(w: World, r: Request, selected: set<NodeId>, scores: Score)
    ensures forall id :: id in CappedCases(w, r, selected, scores) ==>
              id in CasesById(w) && CaseReadable(w, r, CasesById(w)[id])
  {
    var chosen := SelectedCases(w, r, selected);
    var cases := CasesById(w);
    CapMembers(w.limits, OpenCases, Ranked(chosen, map id | id in chosen :: CaseScore(cases[id], scores)), r.fixedCaps);
  }

  ghost predicate EvidenceReadable(w: World, r: Request, e: EvidenceId) {
    e in EvidenceById(w) && EvidenceAllowed(EvidenceById(w)[e], r.scope, r.actor)
  }

  lemma EvidenceNamed(w: World, r: Request, holders: seq<Holder>, e: EvidenceId)
    requires forall i :: 0 <= i < |holders| ==> RefsAllowed(EvidenceById(w), holders[i].refs, r.scope, r.actor)
    requires e in CappedEvidence(w, r, holders)
    ensures EvidenceReadable(w, r, e)
  {
    var maxima := Maxima(holders);
    CapMembers(w.limits, EvidenceRefs, Ranked(maxima.Keys, maxima), r.fixedCaps);
    MaximaAreMaxima(holders, e);
    var i :| 0 <= i < |holders| && e in holders[i].refs;
    var j :| 0 <= j < |holders[i].refs| && holders[i].refs[j] == e;
    assert RefsAllowed(EvidenceById(w), holders[i].refs, r.scope, r.actor);
  }

  /** The selection and scores behind a pack. */
  ghost function Chosen(w: World, r: Request, words: Text -> set<Text>): (set<NodeId>, Score)
    requires BuildPack(w, r, words).Some?
  {
    var active := ActiveNodes(w, r);
    var seeded := SeedsAndScores(active, QueryScores(words, r.query, active), r.seeds).value;
    (Selected(w, active, seeded.0), seeded.1)
  }

  /** The cases a pack shows. */
  ghost function ShownCases(w: World, r: Request, words: Text -> set<Text>): seq<CaseId>
    requires BuildPack(w, r, words).Some?
  {
    CappedCases(w, r, Chosen(w, r, words).0, Chosen(w, r, words).1)
  }

  ghost predicate ItemReadable(w: World, r: Request, item: Item) {
    RefsAllowed(EvidenceById(w), item.evidenceRefs, r.scope, r.actor)
  }

  lemma {:induction false} NodeItemsReadable(w: World, r: Request, active: map<NodeId, Node>, ids: seq<NodeId>)
    requires forall id :: id in active ==> NodeReadable(w, r, active[id])
    ensures forall i :: 0 <= i < |NodeItems(active, ids)| ==> ItemReadable(w, r, NodeItems(active, ids)[i])
  {
    if ids != [] { NodeItemsReadable(w, r, active, ids[1..]); }
  }

  lemma {:induction false} CaseItemsReadable(w: World, r: Request, ids: seq<CaseId>)
    requires forall id :: id in ids ==> id in CasesById(w) && CaseReadable(w, r, CasesById(w)[id])
    ensures var items := CaseItems(CasesById(w), ids);
            && |items| == |ids|
            && (forall i :: 0 <= i < |ids| ==>
                  && items[i].CaseItem? && items[i].subject == CasesById(w)[ids[i]].subject
                  && ItemReadable(w, r, items[i]))
  {
    if ids != [] {
      assert ids[0] in ids && forall id :: id in ids[1..] ==> id in ids;
      CaseItemsReadable(w, r, ids[1..]);
      var items, rest := CaseItems(CasesById(w), ids), CaseItems(CasesById(w), ids[1..]);
      assert |items| == |rest| + 1 && items[1..] == rest;
      forall i | 0 <= i < |ids|
        ensures items[i].CaseItem? && items[i].subject == CasesById(w)[ids[i]].subject && ItemReadable(w, r, items[i])
      {
        assert ids[i] in ids;
        if i > 0 { assert items[i] == rest[i - 1] && ids[i] == ids[1..][i - 1]; }
      }
    }
  }

  /** Every node a pack returns is active and readable, and every evidence reference it carries, in
      an item or in its own list, names a stored record the actor may read. */
  lemma PackIsReadable(w: World, r: Request, words: Text -> set<Text>)
    requires BuildPack(w, r, words).Some?
    ensures var p := BuildPack(w, r, words).value;
            && (forall n :: n in Returned(p) ==> n in ActiveNodes(w, r) && NodeReadable(w, r, ActiveNodes(w, r)[n]))
            && (forall g, i :: g in p.nodes && 0 <= i < |p.nodes[g]| ==> ItemReadable(w, r, p.nodes[g][i]))
            && (forall i :: 0 <= i < |p.openCases| ==> ItemReadable(w, r, p.openCases[i]))
            && (forall e :: e in p.evidenceRefs ==> EvidenceReadable(w, r, e))
  {
    var active := ActiveNodes(w, r);
    var selected, scores := Chosen(w, r, words).0, Chosen(w, r, words).1;
    var p := Assemble(w, r, active, selected, scores);
    assert BuildPack(w, r, words) == Some(p);
    ActiveKeyed(w, r);
    forall id | id in active ensures NodeReadable(w, r, active[id]) { ActiveIsReadable(w, r, id); }
    forall n | n in Returned(p) ensures n in active { ReturnedActive(w, r, active, selected, scores, n); }
    forall g | g in p.nodes ensures forall i :: 0 <= i < |p.nodes[g]| ==> ItemReadable(w, r, p.nodes[g][i]) {
      NodeItemsReadable(w, r, active, CappedGroup(w, r, active, selected, scores, g));
    }
    CasesReadable(w, r, selected, scores);
    CaseItemsReadable(w, r, CappedCases(w, r, selected, scores));
    NamedEvidence(w, r, active, selected, scores);
  }

  lemma ReturnedActive(w: World, r: Request, active: map<NodeId, Node>, selected: set<NodeId>, scores: Score, n: NodeId)
    requires forall id :: id in active ==> active[id].id == id
    requires n in Returned(Assemble(w, r, active, selected, scores))
    ensures n in active
  {
    ReturnedIds(w, r, active, selected, scores, n);
    var g :| n in CappedGroup(w, r, active, selected, scores, g);
    CappedInGroup(w, r, active, selected, scores, g);
  }

  // ----- Nodes named by case items

  function CaseSubjects(p: Pack): set<NodeId> {
    set i | 0 <= i < |p.openCases| && p.openCases[i].CaseItem? :: p.openCases[i].subject
  }

  function Warned(p: Pack): set<NodeId> { set x | x in p.warnings :: x.id }

  /** The nodes a pack names: those it returns or warns of, and the subjects of the cases it shows. */
  function Named(p: Pack): set<NodeId> { Returned(p) + Warned(p) + CaseSubjects(p) }

  lemma {:induction false} WarningsActive(active: map<NodeId, Node>, ids: seq<NodeId>)
    requires forall id :: id in active ==> active[id].id == id
    ensures forall i :: 0 <= i < |Warnings(active, ids)| ==> Warnings(active, ids)[i].id in active
  {
    if ids != [] { WarningsActive(active, ids[1..]); }
  }

  /** A pack names only active readable nodes exactly when the subject of every case it shows is
      one; a case is shown for the nodes it affects, and its subject need not be among them. */
  lemma NamesOnlyReadable(w: World, r: Request, words: Text -> set<Text>)
    requires BuildPack(w, r, words).Some?
    ensures Named(BuildPack(w, r, words).value) <= ActiveNodes(w, r).Keys <==>
              forall i :: 0 <= i < |ShownCases(w, r, words)| ==>
                && ShownCases(w, r, words)[i] in CasesById(w)
                && CasesById(w)[ShownCases(w, r, words)[i]].subject in ActiveNodes(w, r)
  {
    var p, shown := BuildPack(w, r, words).value, ShownCases(w, r, words);
    assert Returned(p) <= ActiveNodes(w, r).Keys by { PackIsReadable(w, r, words); }
    WarnedIsActive(w, r, words);
    ShownSubjects(w, r, words);
  }

  /** The subjects a pack names are those of the cases it shows. */
  lemma ShownSubjects(w: World, r: Request, words: Text -> set<Text>)
    requires BuildPack(w, r, words).Some?
    ensures forall i :: 0 <= i < |ShownCases(w, r, words)| ==> ShownCases(w, r, words)[i] in CasesById(w)
    ensures forall n :: n in CaseSubjects(BuildPack(w, r, words).value) <==>
              exists i :: 0 <= i < |ShownCases(w, r, words)| && CasesById(w)[ShownCases(w, r, words)[i]].subject == n
  {
    var p, shown := BuildPack(w, r, words).value, ShownCases(w, r, words);
    CasesReadable(w, r, Chosen(w, r, words).0, Chosen(w, r, words).1);
    assert forall i :: 0 <= i < |shown| ==> shown[i] in shown;
    CaseItemsReadable(w, r, shown);
    assert p.openCases == CaseItems(CasesById(w), shown);
    SubjectsOf(p, w, shown);
  }

  lemma WarnedIsActive(w: World, r: Request, words: Text -> set<Text>)
    requires BuildPack(w, r, words).Some?
    ensures Warned(BuildPack(w, r, words).value) <= ActiveNodes(w, r).Keys
  {
    var active := ActiveNodes(w, r);
    var selected, scores := Chosen(w, r, words).0, Chosen(w, r, words).1;
    ActiveKeyed(w, r);
    WarningsActive(active, Ranked(Elements(ContextNodes(w, r, active, selected, scores)), scores));
  }

  lemma SubjectsOf(p: Pack, w: World, shown: seq<CaseId>)
    requires |p.openCases| == |shown|
    requires forall i :: 0 <= i < |shown| ==>
               && shown[i] in CasesById(w) && p.openCases[i].CaseItem?
               && p.openCases[i].subject == CasesById(w)[shown[i]].subject
    ensures forall n :: n in CaseSubjects(p) <==> exists i :: 0 <= i < |shown| && CasesById(w)[shown[i]].subject == n
  {
    forall n | n in CaseSubjects(p) ensures exists i :: 0 <= i < |shown| && CasesById(w)[shown[i]].subject == n {
      var i :| 0 <= i < |p.openCases| && p.openCases[i].CaseItem? && p.openCases[i].subject == n;
      assert CasesById(w)[shown[i]].subject == n;
    }
    forall i | 0 <= i < |shown| ensures CasesById(w)[shown[i]].subject in CaseSubjects(p) {
      assert p.openCases[i].subject in CaseSubjects(p);
    }
  }

  // ----- When no request of an actor can be told of a hidden node

  /** An open case the actor may read that concerns a node the actor sees. */
  ghost predicate Concerns(w: World, r: Request, id: CaseId) {
    && id in CasesById(w) && Nonterminal(CasesById(w)[id].status) && CaseReadable(w, r, CasesById(w)[id])
    && Touches(CasesById(w)[id], ActiveNodes(w, r).Keys)
  }

  /** Every stored case of that kind is about a node the actor sees too. */
  ghost predicate SubjectsVisible(w: World, r: Request) {
    forall id :: Concerns(w, r, id) ==> CasesById(w)[id].subject in ActiveNodes(w, r)
  }

  /** The case list is not cut short. */
  predicate Uncut(w: World) { OpenCases in w.limits ==> |CasesById(w)| <= w.limits[OpenCases] }

  lemma SelectedIsActive(w: World, active: map<NodeId, Node>, seeds: set<NodeId>)
    requires seeds <= active.Keys
    ensures Selected(w, active, seeds) <= active.Keys
  {}

  lemma ShownConcern(w: World, r: Request, words: Text -> set<Text>, i: nat)
    requires BuildPack(w, r, words).Some? && i < |ShownCases(w, r, words)|
    ensures Concerns(w, r, ShownCases(w, r, words)[i])
  {
    ChosenIsActive(w, r, words);
    ShownIsSelected(w, r, Chosen(w, r, words).0, Chosen(w, r, words).1, ShownCases(w, r, words)[i]);
  }

  lemma ChosenIsActive(w: World, r: Request, words: Text -> set<Text>)
    requires BuildPack(w, r, words).Some?
    ensures Chosen(w, r, words).0 <= ActiveNodes(w, r).Keys
  {
    var active := ActiveNodes(w, r);
    var scores := QueryScores(words, r.query, active);
    SeedsActive(active, scores, r.seeds);
    SelectedIsActive(w, active, SeedsAndScores(active, scores, r.seeds).value.0);
  }

  lemma SeedsActive(active: map<NodeId, Node>, scores: Score, seeds: Seeds)
    requires scores.Keys == active.Keys && SeedsAndScores(active, scores, seeds).Some?
    ensures SeedsAndScores(active, scores, seeds).value.0 <= active.Keys
  {}

  lemma ShownIsSelected(w: World, r: Request, selected: set<NodeId>, scores: Score, id: CaseId)
    requires id in CappedCases(w, r, selected, scores)
    ensures id in SelectedCases(w, r, selected)
  {
    var chosen := SelectedCases(w, r, selected);
    var cases := CasesById(w);
    CapMembers(w.limits, OpenCases, Ranked(chosen, map id | id in chosen :: CaseScore(cases[id], scores)), r.fixedCaps);
  }

  /** Visible subjects suffice, for every request of the actor. */
  lemma VisibleSubjectsSuffice(w: World, r: Request, words: Text -> set<Text>)
    requires SubjectsVisible(w, r) && BuildPack(w, r, words).Some?
    ensures Named(BuildPack(w, r, words).value) <= ActiveNodes(w, r).Keys
  {
    forall i | 0 <= i < |ShownCases(w, r, words)|
      ensures ShownCases(w, r, words)[i] in CasesById(w)
      ensures CasesById(w)[ShownCases(w, r, words)[i]].subject in ActiveNodes(w, r)
    {
      ShownConcern(w, r, words, i);
    }
    NamesOnlyReadable(w, r, words);
  }

  /** The same actor and scope asking for one node. */
  function AskFor(r: Request, n: NodeId): Request { r.(seeds := ExactId(n), fixedCaps := false) }

  lemma SameSight(w: World, r: Request, n: NodeId)
    ensures ActiveNodes(w, AskFor(r, n)) == ActiveNodes(w, r)
  {
    var r' := AskFor(r, n);
    KeepTwice(w.nodes, (n: Node) => true, (n: Node) => n.active && NodeReadable(w, r, n),
              (n: Node) => n.active && NodeReadable(w, r', n));
    KeepTwice(w.nodes, (n: Node) => true, (n: Node) => n.active && NodeReadable(w, r', n),
              (n: Node) => n.active && NodeReadable(w, r', n));
  }

  lemma AllCasesShown(w: World, r: Request, selected: set<NodeId>, scores: Score, id: CaseId)
    requires Uncut(w) && !r.fixedCaps && id in SelectedCases(w, r, selected)
    ensures id in CappedCases(w, r, selected, scores)
  {
    var chosen, cases := SelectedCases(w, r, selected), CasesById(w);
    SubsetSize(chosen, cases.Keys);
    var ranked := Ranked(chosen, map id | id in chosen :: CaseScore(cases[id], scores));
    assert Cap(w.limits, OpenCases, ranked, false) == ranked;
  }

  /** A hidden subject surfaces: some node the actor sees, asked for by itself, yields a pack that
      names it. */
  lemma HiddenSubjectSurfaces(w: World, r: Request, words: Text -> set<Text>, id: CaseId) returns (n: NodeId)
    requires Uncut(w) && Concerns(w, r, id) && CasesById(w)[id].subject !in ActiveNodes(w, r)
    ensures n in ActiveNodes(w, r) && BuildPack(w, AskFor(r, n), words).Some?
    ensures CasesById(w)[id].subject in Named(BuildPack(w, AskFor(r, n), words).value)
  {
    var c := CasesById(w)[id];
    var i :| 0 <= i < |c.affected| && c.affected[i] in ActiveNodes(w, r).Keys;
    n := c.affected[i];
    var r' := AskFor(r, n);
    SameSight(w, r, n);
    ExactIdCases(w, r', words, n);
    var shown := ShownCases(w, r', words);
    AllCasesShown(w, r', Chosen(w, r', words).0, Chosen(w, r', words).1, id);
    var k :| 0 <= k < |shown| && shown[k] == id;
    ShownSubjects(w, r', words);
    assert c.subject in CaseSubjects(BuildPack(w, r', words).value);
  }

  ghost predicate NamesVisible(w: World, r: Request, words: Text -> set<Text>) {
    BuildPack(w, r, words).Some? ==> Named(BuildPack(w, r, words).value) <= ActiveNodes(w, r).Keys
  }

  /** With an uncut case list, asking for any one visible node never names a hidden node if and
      only if the subjects are visible; and then no request of the actor does. */
  lemma NamesHiddenExactly(w: World, r: Request, words: Text -> set<Text>)
    requires Uncut(w)
    ensures SubjectsVisible(w, r) <==> forall n :: n in ActiveNodes(w, r) ==> NamesVisible(w, AskFor(r, n), words)
    ensures SubjectsVisible(w, r) ==> NamesVisible(w, r, words)
  {
    if SubjectsVisible(w, r) {
      forall n | n in ActiveNodes(w, r) ensures NamesVisible(w, AskFor(r, n), words) {
        SameSight(w, r, n);
        assert forall id :: Concerns(w, AskFor(r, n), id) ==> Concerns(w, r, id);
        if BuildPack(w, AskFor(r, n), words).Some? { VisibleSubjectsSuffice(w, AskFor(r, n), words); }
      }
      if BuildPack(w, r, words).Some? { VisibleSubjectsSuffice(w, r, words); }
    } else {
      var id :| Concerns(w, r, id) && CasesById(w)[id].subject !in ActiveNodes(w, r);
      var n := HiddenSubjectSurfaces(w, r, words, id);
      SameSight(w, r, n);
      assert !NamesVisible(w, AskFor(r, n), words);
    }
  }

  const HALF_HIDDEN: World :=
    World([Node(1, Need, "need", true, None, []), Node(2, Need, "secret", true, None, [2])], [],
          [Case(1, "code_lag", 2, [1], [1], 0, OpenCase, [])], [OPEN_RECORD, SECRET_RECORD], map[])

  /** A stranger who asks for public node 1 is told of hidden node 2, the subject of a case with
      public evidence that affects node 1. */
  lemma HiddenSubjectNamed(words: Text -> set<Text>)
    ensures BuildPack(HALF_HIDDEN, STRANGER, words).Some?
    ensures 2 in Named(BuildPack(HALF_HIDDEN, STRANGER, words).value) && 2 !in ActiveNodes(HALF_HIDDEN, STRANGER)
  {
    var c := HALF_HIDDEN.cases[0];
    HalfHiddenNodes();
    assert HALF_HIDDEN.cases[..0] == [];
    assert CasesById(HALF_HIDDEN) == map[1 := c];
    ExactIdCases(HALF_HIDDEN, STRANGER, words, 1);
    var active := ActiveNodes(HALF_HIDDEN, STRANGER);
    assert c.affected[0] == 1;
    OnlyCaseShown(HALF_HIDDEN, Selected(HALF_HIDDEN, active, {1}), QueryScores(words, "", active), c);
    var p := BuildPack(HALF_HIDDEN, STRANGER, words).value;
    assert p.openCases[0].CaseItem? && p.openCases[0].subject == 2;
  }

  lemma HalfHiddenNodes()
    ensures CaseReadable(HALF_HIDDEN, STRANGER, HALF_HIDDEN.cases[0])
    ensures 1 in ActiveNodes(HALF_HIDDEN, STRANGER) && 2 !in ActiveNodes(HALF_HIDDEN, STRANGER)
  {
    RevisedEvidence();
    assert EvidenceById(HALF_HIDDEN) == EvidenceById(REVISED);
    var a, b := HALF_HIDDEN.nodes[0], HALF_HIDDEN.nodes[1];
    assert b.evidenceRefs[0] == 2;
    assert NodeReadable(HALF_HIDDEN, STRANGER, a) && !NodeReadable(HALF_HIDDEN, STRANGER, b);
    var keep := (n: Node) => n.active && NodeReadable(HALF_HIDDEN, STRANGER, n);
    forall n: Node ensures n in Visible(HALF_HIDDEN, STRANGER) <==> n in HALF_HIDDEN.nodes && keep(n) {
      KeepMembers(HALF_HIDDEN.nodes, keep, n);
    }
    var id := (n: Node) => n.id;
    assert a in Visible(HALF_HIDDEN, STRANGER) && id(a) == 1;
    DictionaryKey(Visible(HALF_HIDDEN, STRANGER), id, 1);
    DictionaryKey(Visible(HALF_HIDDEN, STRANGER), id, 2);
  }

  lemma NamedEvidence(w: World, r: Request, active: map<NodeId, Node>, selected: set<NodeId>, scores: Score)
    requires forall id :: id in active ==> NodeReadable(w, r, active[id])
    ensures forall e :: e in PackEvidence(w, r, active, selected, scores) ==> EvidenceReadable(w, r, e)
  {
    var nodes := ContextNodes(w, r, active, selected, scores);
    var cases := CappedCases(w, r, selected, scores);
    CasesReadable(w, r, selected, scores);
    var holders := Holders(w, active, nodes, cases, scores);
    forall i | 0 <= i < |holders| ensures RefsAllowed(EvidenceById(w), holders[i].refs, r.scope, r.actor) {
      HoldersReadable(w, r, active, nodes, cases, scores, i);
    }
    forall e | e in CappedEvidence(w, r, holders) ensures EvidenceReadable(w, r, e) {
      EvidenceNamed(w, r, holders, e);
    }
  }
}
