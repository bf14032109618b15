/** From declared evidence to drift observations (reconcile/evidence_detection.py). */
module EvidenceDrift {
  import opened Common
  import opened Collections
  import opened Chronology
  import opened Detectors
  import opened Selection
  import Store = EvidenceStore

  /** A public side plus the records it was derived from. */
  datatype Resolved = Resolved(side: Side, records: seq<Record>)

  /** What one detection run sees. */
  datatype Run = Run(records: seq<Record>, ingestions: seq<Ingestion>, graphIds: set<nat>, actor: Text)

  // ----- Resolving references and sides

  function ResolveReference(ref: Reference, declaring: Record, records: seq<Record>): Option<Record> {
    var matches := match ref
      case Self => [declaring]
      case Source(connector, external) =>
        if connector == "" || external == "" then []
        else Keep(records, (r: Record) => r.connectorType == connector && r.objectId == external)
      case GitPath(path) =>
        if path == "" then [] else Keep(records, (r: Record) => r.connectorType == "git" && path in r.changedPaths)
      case Exact(id) => Keep(records, (r: Record) => r.id == id);
    if |matches| == 1 then Some(matches[0]) else None
  }

  function ResolveAll(refs: seq<Reference>, declaring: Record, records: seq<Record>): Option<seq<Record>> {
    if refs == [] then Some([]) else
      match (ResolveAll(refs[..|refs| - 1], declaring, records), ResolveReference(refs[|refs| - 1], declaring, records))
      case (Some(before), Some(last)) => Some(before + [last])
      case _ => None
  }

  function Ids(records: seq<Record>): set<nat> { set i | 0 <= i < |records| :: records[i].id }

  predicate AllRecordsCurrent(records: seq<Record>, ingestions: seq<Ingestion>) {
    forall r :: r in records ==> Current(r, ingestions)
  }

  function ResolvedSide(d: SideDeclaration, declaring: Record, run: Run): Option<Resolved> {
    if d.refs == [] || |set i | 0 <= i < |d.refs| :: d.refs[i]| != |d.refs| then None else
      match ResolveAll(d.refs, declaring, run.records)
      case None => None
      case Some(records) =>
        if || records == [] || |Ids(records)| != |records| || Authors(records) == {}
           || !(forall r :: r in records ==> Allowed(r, run.actor))
        then None else
          var current := AllRecordsCurrent(records, run.ingestions);
          if d.current.Some? && d.current.value != current then None else
            Some(Resolved(Side(d.claim, Ids(records), LatestSeen(records), Authors(records), d.mode, current), records))
  }

  /** `_resolve_side`. */
  method ResolveSide(d: SideDeclaration, declaring: Record, run: Run) returns (result: Option<Resolved>)
    ensures result == ResolvedSide(d, declaring, run)
  {
    if d.refs == [] || |set i | 0 <= i < |d.refs| :: d.refs[i]| != |d.refs| { return None; }
    var resolved: seq<Record> := [];
    var k := 0;
    while k < |d.refs|
      invariant 0 <= k <= |d.refs| && |resolved| == k
      invariant ResolveAll(d.refs[..k], declaring, run.records) == Some(resolved)
    {
      assert d.refs[..k + 1][..k] == d.refs[..k];
      var record := ResolveReference(d.refs[k], declaring, run.records);
      if record == None {
        NeverResolves(d.refs, declaring, run.records, k + 1);
        return None;
      }
      resolved := resolved + [record.value];
      k := k + 1;
    }
    assert d.refs[..k] == d.refs;
    if || |Ids(resolved)| != |resolved| || Authors(resolved) == {}
       || !(forall r :: r in resolved ==> Allowed(r, run.actor)) {
      return None;
    }
    var current := RecordsAreCurrent(resolved, run.ingestions);
    if d.current.Some? && d.current.value != current { return None; }
    var side := Side(d.claim, Ids(resolved), LatestSeen(resolved), Authors(resolved), d.mode, current);
    result := Some(Resolved(side, resolved));
  }

  lemma {:induction false} NeverResolves(refs: seq<Reference>, declaring: Record, records: seq<Record>, k: nat)
    requires k <= |refs| && ResolveAll(refs[..k], declaring, records) == None
    ensures ResolveAll(refs, declaring, records) == None
  {
    if k == |refs| {
      assert refs[..k] == refs;
    } else {
      assert refs[..|refs| - 1][..k] == refs[..k];
      NeverResolves(refs[..|refs| - 1], declaring, records, k);
    }
  }

  // ----- The detection input of a declaring record

  const ROLE_ORDER: seq<Role> := [RequirementRole, ImplementationRole, TestRole, DecisionRole]

  const COMPARISONS: seq<(Role, Role)> :=
    [(RequirementRole, ImplementationRole), (DecisionRole, RequirementRole), (ImplementationRole, DecisionRole),
     (TestRole, DecisionRole), (ImplementationRole, TestRole)]

  /** The declared sides among the given roles, or None where one fails to resolve or
      shares evidence with an earlier one. */
  function ResolvedSides(roles: seq<Role>, d: Declaration, declaring: Record, run: Run): Option<map<Role, Resolved>> {
    if roles == [] then Some(map[]) else
      var role := roles[|roles| - 1];
      match ResolvedSides(roles[..|roles| - 1], d, declaring, run)
      case None => None
      case Some(before) =>
        if role !in d.sides then Some(before) else
          match ResolvedSide(d.sides[role], declaring, run)
          case None => None
          case Some(resolved) => if Overlaps(before, resolved) then None else Some(before[role := resolved])
  }

  predicate Overlaps(before: map<Role, Resolved>, resolved: Resolved) {
    exists r :: r in before && before[r].side.refs * resolved.side.refs != {}
  }

  function Chronologies(sides: map<Role, Resolved>, ingestions: seq<Ingestion>): map<(Role, Role), Order> {
    map p | p in COMPARISONS && p.0 in sides && p.1 in sides ::
      SideOrder(sides[p.0].records, sides[p.1].records, ingestions)
  }

  predicate VersionsAgree(versions: map<Role, int>, chronology: map<(Role, Role), Order>) {
    forall p :: p in chronology && p.0 in versions && p.1 in versions ==>
        Compare(versions[p.0], versions[p.1]) == chronology[p]
  }

  /** The sides and the input of a record that declares a comparison the actor may see. */
  function Declared(declaring: Record, run: Run): Option<(map<Role, Resolved>, Input)> {
    if declaring.declaration == None || !Allowed(declaring, run.actor) then None else
      var d := declaring.declaration.value;
      if d.subject !in run.graphIds || !(d.affected <= run.graphIds) then None else
        match ResolvedSides(ROLE_ORDER, d, declaring, run)
        case None => None
        case Some(sides) =>
          var chronology := Chronologies(sides, run.ingestions);
          if !VersionsAgree(d.versions, chronology) then None else
            Some((sides, Input(d.subject, d.affected, map r | r in sides :: sides[r].side, chronology,
                               d.compatibility, d.requirementActive, d.hasMappedSemantics, d.materialCodeChange)))
  }

  /** `_input_from_record`. */
  method InputFromRecord(declaring: Record, run: Run) returns (input: Option<Input>)
    ensures var want := Declared(declaring, run); input == if want == None then None else Some(want.value.1)
  {
    if declaring.declaration == None || !Allowed(declaring, run.actor) { return None; }
    var d := declaring.declaration.value;
    if d.subject !in run.graphIds || !(d.affected <= run.graphIds) { return None; }
    var sides := CollectSides(d, declaring, run);
    if sides == None { return None; }
    var chronology := Chronologies(sides.value, run.ingestions);
    if !VersionsAgree(d.versions, chronology) { return None; }
    input := Some(Input(d.subject, d.affected, map r | r in sides.value :: sides.value[r].side, chronology,
                        d.compatibility, d.requirementActive, d.hasMappedSemantics, d.materialCodeChange));
  }

  /** Its loop over the four sides. */
  method CollectSides(d: Declaration, declaring: Record, run: Run) returns (result: Option<map<Role, Resolved>>)
    ensures result == ResolvedSides(ROLE_ORDER, d, declaring, run)
  {
    var sides: map<Role, Resolved> := map[];
    var k := 0;
    while k < |ROLE_ORDER|
      invariant 0 <= k <= |ROLE_ORDER|
      invariant ResolvedSides(ROLE_ORDER[..k], d, declaring, run) == Some(sides)
    {
      var role := ROLE_ORDER[k];
      assert ROLE_ORDER[..k + 1][..k] == ROLE_ORDER[..k];
      if role in d.sides {
        var resolved := ResolveSide(d.sides[role], declaring, run);
        if resolved == None || Overlaps(sides, resolved.value) {
          NeverCollects(ROLE_ORDER, d, declaring, run, k + 1);
          return None;
        }
        sides := sides[role := resolved.value];
      }
      k := k + 1;
    }
    assert ROLE_ORDER[..k] == ROLE_ORDER;
    return Some(sides);
  }

  lemma {:induction false} NeverCollects(roles: seq<Role>, d: Declaration, declaring: Record, run: Run, k: nat)
    requires k <= |roles| && ResolvedSides(roles[..k], d, declaring, run) == None
    ensures ResolvedSides(roles, d, declaring, run) == None
  {
    if k == |roles| {
      assert roles[..k] == roles;
    } else {
      assert roles[..|roles| - 1][..k] == roles[..k];
      NeverCollects(roles[..|roles| - 1], d, declaring, run, k);
    }
  }

  // ----- What a resolved side holds

  /** Ingestions file every record of the run under that record's own object; so does every log the
      store accepts. */
  ghost predicate LogAgrees(run: Run) { forall r :: r in run.records ==> Recorded(r, run.ingestions) }

  /** Records and ingestions were read from one readable evidence file. */
  ghost predicate FromStore(run: Run, lines: seq<Store.Line>) {
    && Store.Parse(lines).Some?
    && (forall r :: r in run.records ==> r in Store.Parse(lines).value.records)
    && (forall i :: i in run.ingestions ==> i in Store.Parse(lines).value.ingestions)
  }

  /** The store's rule, one record per identifier, is all the chronology needs. */
  lemma StoredLogAgrees(run: Run, lines: seq<Store.Line>)
    requires FromStore(run, lines)
    ensures LogAgrees(run) && Store.OneRecordPerId(run.records)
  {
    Store.ReadableIsConsistent(lines);
  }

  lemma ResolvedIsKnown(ref: Reference, declaring: Record, records: seq<Record>)
    requires declaring in records && ResolveReference(ref, declaring, records).Some?
    ensures ResolveReference(ref, declaring, records).value in records
  {
    var r := ResolveReference(ref, declaring, records).value;
    match ref
    case Self =>
    case Source(connector, external) =>
      KeepMembers(records, (r: Record) => r.connectorType == connector && r.objectId == external, r);
    case GitPath(path) => KeepMembers(records, (r: Record) => r.connectorType == "git" && path in r.changedPaths, r);
    case Exact(id) => KeepMembers(records, (r: Record) => r.id == id, r);
  }

  lemma {:induction false} ResolvedAreKnown(refs: seq<Reference>, declaring: Record, records: seq<Record>)
    requires declaring in records && ResolveAll(refs, declaring, records).Some?
    ensures forall r :: r in ResolveAll(refs, declaring, records).value ==> r in records
  {
    if refs != [] {
      ResolvedAreKnown(refs[..|refs| - 1], declaring, records);
      ResolvedIsKnown(refs[|refs| - 1], declaring, records);
    }
  }

  /** A resolved side stands for known records and knows whether all of them are current. */
  ghost predicate Grounded(resolved: Resolved, run: Run) {
    && resolved.records != []
    && (forall r :: r in resolved.records ==> r in run.records)
    && resolved.side.refs == Ids(resolved.records)
    && (resolved.side.current <==> AllRecordsCurrent(resolved.records, run.ingestions))
  }

  lemma {:induction false} SidesGrounded(roles: seq<Role>, d: Declaration, declaring: Record, run: Run)
    requires declaring in run.records && ResolvedSides(roles, d, declaring, run).Some?
    ensures forall r :: r in ResolvedSides(roles, d, declaring, run).value ==>
              Grounded(ResolvedSides(roles, d, declaring, run).value[r], run)
  {
    if roles != [] {
      SidesGrounded(roles[..|roles| - 1], d, declaring, run);
      var role := roles[|roles| - 1];
      if role in d.sides { ResolvedAreKnown(d.sides[role].refs, declaring, run.records); }
    }
  }

  // ----- Lag means a real lapse of time between different objects

  /** Every record of the first side is of another object than, and was observed strictly
      after, every record of the second. */
  ghost predicate StrictlyAfter(run: Run, later: set<nat>, earlier: set<nat>) {
    forall x, y :: x in run.records && y in run.records && x.id in later && y.id in earlier ==>
      !SameObject(x, y) && x.observedAt > y.observedAt
  }

  lemma SideMembers(resolved: Resolved, run: Run, x: Record)
    requires Grounded(resolved, run) && Store.OneRecordPerId(run.records)
    ensures x in resolved.records <==> x in run.records && x.id in resolved.side.refs
  {}

  lemma AllLater(left: seq<Record>, right: seq<Record>, ingestions: seq<Ingestion>)
    requires left != [] && right != []
    ensures SideOrder(left, right, ingestions) == Later <==>
              forall x, y :: x in left && y in right ==> RecordOrder(x, y, ingestions) == Later
  {
    var orders := PairOrders(left, right, ingestions);
    assert RecordOrder(left[0], right[0], ingestions) in orders;
    if orders == {Later} {
      forall x, y | x in left && y in right ensures RecordOrder(x, y, ingestions) == Later {
        var i :| 0 <= i < |left| && left[i] == x;
        var j :| 0 <= j < |right| && right[j] == y;
        assert RecordOrder(left[i], right[j], ingestions) in orders;
      }
    }
    if forall x, y :: x in left && y in right ==> RecordOrder(x, y, ingestions) == Later {
      forall o | o in orders ensures o == Later {}
      assert left[0] in left && right[0] in right;
      assert orders == {Later};
    }
  }

  /** Between sides of which the second is current, derived AFTER is exactly `StrictlyAfter`. */
  lemma SideOrderIsTime(a: Resolved, b: Resolved, run: Run)
    requires Grounded(a, run) && Grounded(b, run) && b.side.current && LogAgrees(run) &&
              Store.OneRecordPerId(run.records)
    ensures SideOrder(a.records, b.records, run.ingestions) == Later <==> StrictlyAfter(run, a.side.refs, b.side.refs)
  {
    AllLater(a.records, b.records, run.ingestions);
    forall x, y | x in a.records && y in b.records
      ensures RecordOrder(x, y, run.ingestions) == Later <==> !SameObject(x, y) && x.observedAt > y.observedAt
    {
      CurrentOrder(x, y, run.ingestions);
    }
    forall x ensures x in a.records <==> x in run.records && x.id in a.side.refs { SideMembers(a, run, x); }
    forall y ensures y in b.records <==> y in run.records && y.id in b.side.refs { SideMembers(b, run, y); }
  }

  ghost predicate Both(i: Input, a: Role, b: Role) { a in i.sides && b in i.sides && i.sides[b].current }

  ghost predicate Lapsed(run: Run, i: Input, a: Role, b: Role) {
    a in i.sides && b in i.sides && StrictlyAfter(run, i.sides[a].refs, i.sides[b].refs)
  }

  /** For each comparison a detector makes against a current side of declared evidence. */
  lemma AfterIsLapse(declaring: Record, run: Run, a: Role, b: Role)
    requires declaring in run.records && LogAgrees(run) && Store.OneRecordPerId(run.records) &&
              Declared(declaring, run).Some?
    requires (a, b) in COMPARISONS && Both(Declared(declaring, run).value.1, a, b)
    ensures After(Declared(declaring, run).value.1, a, b) <==> Lapsed(run, Declared(declaring, run).value.1, a, b)
  {
    var sides, i := Declared(declaring, run).value.0, Declared(declaring, run).value.1;
    SidesGrounded(ROLE_ORDER, declaring.declaration.value, declaring, run);
    SideOrderIsTime(sides[a], sides[b], run);
    assert (a, b) in i.orders;
  }

  /** Exactly when each lag detector fires on a declared comparison. */
  ghost predicate LagFires(run: Run, i: Input, d: Detector) {
    match d
    case RequirementLag =>
      && i.compatibility == Aligns
      && AllCurrent(i, {RequirementRole, ImplementationRole, TestRole, DecisionRole})
      && i.sides[DecisionRole].mode == Explicit
      && Lapsed(run, i, DecisionRole, RequirementRole) && Lapsed(run, i, ImplementationRole, DecisionRole)
      && Lapsed(run, i, TestRole, DecisionRole)
    case CodeLag =>
      && i.requirementActive && AllCurrent(i, {RequirementRole, ImplementationRole})
      && Lapsed(run, i, RequirementRole, ImplementationRole)
    case TestLag =>
      && i.requirementActive && AllCurrent(i, {RequirementRole, ImplementationRole, TestRole})
      && Lapsed(run, i, ImplementationRole, TestRole)
    case _ => false
  }

  predicate IsLag(d: Detector) { d == RequirementLag || d == CodeLag || d == TestLag }

  lemma LagIsLapse(declaring: Record, run: Run, lines: seq<Store.Line>, d: Detector)
    requires FromStore(run, lines) && declaring in run.records && Declared(declaring, run).Some? && IsLag(d)
    ensures Fires(Declared(declaring, run).value.1, d) <==> LagFires(run, Declared(declaring, run).value.1, d)
  {
    StoredLogAgrees(run, lines);
    var i := Declared(declaring, run).value.1;
    forall k | 0 <= k < |COMPARISONS| && Both(i, COMPARISONS[k].0, COMPARISONS[k].1)
      ensures After(i, COMPARISONS[k].0, COMPARISONS[k].1) <==> Lapsed(run, i, COMPARISONS[k].0, COMPARISONS[k].1)
    {
      AfterIsLapse(declaring, run, COMPARISONS[k].0, COMPARISONS[k].1);
    }
    LagPairs(run, i, d);
  }

  lemma LagPairs(run: Run, i: Input, d: Detector)
    requires IsLag(d)
    requires forall k :: 0 <= k < |COMPARISONS| && Both(i, COMPARISONS[k].0, COMPARISONS[k].1) ==>
               (After(i, COMPARISONS[k].0, COMPARISONS[k].1) <==> Lapsed(run, i, COMPARISONS[k].0, COMPARISONS[k].1))
    ensures Fires(i, d) <==> LagFires(run, i, d)
  {
    assert COMPARISONS[0] == (RequirementRole, ImplementationRole);
    assert COMPARISONS[1] == (DecisionRole, RequirementRole);
    assert COMPARISONS[2] == (ImplementationRole, DecisionRole);
    assert COMPARISONS[3] == (TestRole, DecisionRole);
    assert COMPARISONS[4] == (ImplementationRole, TestRole);
  }

  // ----- The whole run

  /** The distinct records in first-seen order, or None when one identifier names two records. */
  function Stable(records: seq<Record>): Option<seq<Record>> {
    if records == [] then Some([]) else
      var last := records[|records| - 1];
      match Stable(records[..|records| - 1])
      case None => None
      case Some(before) =>
        if last in before then Some(before)
        else if exists i :: 0 <= i < |before| && before[i].id == last.id then None
        else Some(before + [last])
  }

  lemma {:induction false} StableIsUnique(records: seq<Record>)
    ensures Stable(records).Some? <==> Store.OneRecordPerId(records)
    ensures Stable(records).Some? ==> forall r :: r in Stable(records).value <==> r in records
  {
    if records != [] {
      var init, last := records[..|records| - 1], records[|records| - 1];
      StableIsUnique(init);
      assert records == init + [last];
      assert last in records && forall r :: r in init ==> r in records;
      if Stable(init).Some? && exists i :: 0 <= i < |Stable(init).value| && Stable(init).value[i].id == last.id {
        var i :| 0 <= i < |Stable(init).value| && Stable(init).value[i].id == last.id;
        assert Stable(init).value[i] in records;
      }
    }
  }

  function PlaceById(xs: seq<Record>, x: Record): seq<Record> {
    if xs == [] || xs[|xs| - 1].id <= x.id then xs + [x] else PlaceById(xs[..|xs| - 1], x) + [xs[|xs| - 1]]
  }

  function SortedById(xs: seq<Record>): seq<Record> {
    if xs == [] then [] else PlaceById(SortedById(xs[..|xs| - 1]), xs[|xs| - 1])
  }

  lemma {:induction false} PlacedMembers(xs: seq<Record>, x: Record)
    ensures forall y :: y in PlaceById(xs, x) <==> y in xs || y == x
  {
    if !(xs == [] || xs[|xs| - 1].id <= x.id) {
      PlacedMembers(xs[..|xs| - 1], x);
      assert xs == xs[..|xs| - 1] + [xs[|xs| - 1]];
    }
  }

  lemma {:induction false} SortedMembers(xs: seq<Record>)
    ensures forall y :: y in SortedById(xs) <==> y in xs
  {
    if xs != [] {
      SortedMembers(xs[..|xs| - 1]);
      PlacedMembers(SortedById(xs[..|xs| - 1]), xs[|xs| - 1]);
      assert xs == xs[..|xs| - 1] + [xs[|xs| - 1]];
    }
  }

  /** What one declaring record contributes. */
  function Contribution(hash: Hash, declaring: Record, run: Run): seq<Observation> {
    match Declared(declaring, run)
    case None => []
    case Some((_, input)) => var all := Fired(hash, input, DETECTORS); if all == [] then [] else [all[0]]
  }

  function Candidates(hash: Hash, declaring: seq<Record>, run: Run): seq<Observation> {
    if declaring == [] then [] else
      Candidates(hash, declaring[..|declaring| - 1], run) + Contribution(hash, declaring[|declaring| - 1], run)
  }

  /** `o` comes from a firing detector on the comparison some record declares. */
  ghost predicate ComesFrom(hash: Hash, o: Observation, declaring: Record, run: Run) {
    && Declared(declaring, run).Some?
    && Fires(Declared(declaring, run).value.1, o.detector)
    && o == Observe(hash, Declared(declaring, run).value.1.subject, Declared(declaring, run).value.1.affected,
                    o.detector, SidesFor(Declared(declaring, run).value.1, o.detector))
  }

  lemma {:induction false} FiredComeFrom(hash: Hash, i: Input, ds: seq<Detector>)
    ensures forall o :: o in Fired(hash, i, ds) ==>
              Fires(i, o.detector) && o == Observe(hash, i.subject, i.affected, o.detector, SidesFor(i, o.detector))
  {
    if ds != [] { FiredComeFrom(hash, i, ds[..|ds| - 1]); }
  }

  lemma {:induction false} CandidatesComeFrom(hash: Hash, declaring: seq<Record>, run: Run, o: Observation)
    requires o in Candidates(hash, declaring, run)
    ensures exists r :: r in declaring && ComesFrom(hash, o, r, run)
  {
    var init, last := declaring[..|declaring| - 1], declaring[|declaring| - 1];
    if o in Candidates(hash, init, run) {
      CandidatesComeFrom(hash, init, run, o);
      var r :| r in init && ComesFrom(hash, o, r, run);
      assert r in declaring;
    } else {
      FiredComeFrom(hash, Declared(last, run).value.1, DETECTORS);
      assert last in declaring && ComesFrom(hash, o, last, run);
    }
  }

  lemma CandidatesIdentified(hash: Hash, declaring: seq<Record>, run: Run)
    requires Injective(hash)
    ensures Identified(Candidates(hash, declaring, run))
  {
    forall o | o in Candidates(hash, declaring, run) ensures o.fingerprint == hash(FactsOf(o)) {
      CandidatesComeFrom(hash, declaring, run, o);
    }
  }

  /** `detect_evidence_drift`: nothing when records disagree about an identifier, else the
      selection from every declared comparison. */
  method DetectEvidenceDrift(hash: Hash, records: seq<Record>, ingestions: seq<Ingestion>, graphIds: set<nat>,
                             actor: Text)
    returns (out: seq<Observation>)
    requires Injective(hash)
    ensures !Store.OneRecordPerId(records) ==> out == []
    ensures Store.OneRecordPerId(records) ==>
              && Stable(records).Some?
              && var run := Run(Stable(records).value, ingestions, graphIds, actor);
              IsSelection(Candidates(hash, SortedById(run.records), run), out)
  {
    StableIsUnique(records);
    var stable := CollectStable(records);
    if stable == None { return []; }
    var run := Run(stable.value, ingestions, graphIds, actor);
    var declaring := SortedById(stable.value);
    var candidates := CollectCandidates(hash, declaring, run);
    CandidatesIdentified(hash, declaring, run);
    out := SelectDriftObservations(candidates);
  }

  /** Its loop over the declaring records. */
  method CollectCandidates(hash: Hash, declaring: seq<Record>, run: Run) returns (candidates: seq<Observation>)
    ensures candidates == Candidates(hash, declaring, run)
  {
    candidates := [];
    var k := 0;
    while k < |declaring|
      invariant 0 <= k <= |declaring|
      invariant candidates == Candidates(hash, declaring[..k], run)
    {
      assert declaring[..k + 1][..k] == declaring[..k];
      var found := Contribute(hash, declaring[k], run);
      candidates := candidates + found;
      k := k + 1;
    }
    assert declaring[..k] == declaring;
  }

  method Contribute(hash: Hash, declaring: Record, run: Run) returns (found: seq<Observation>)
    ensures found == Contribution(hash, declaring, run)
  {
    var input := InputFromRecord(declaring, run);
    if input.None? { return []; }
    found := DetectDrift(hash, input.value);
  }

  /** Its first loop. */
  method CollectStable(records: seq<Record>) returns (stable: Option<seq<Record>>)
    ensures stable == Stable(records)
  {
    var byId: seq<Record> := [];
    var k := 0;
    while k < |records|
      invariant 0 <= k <= |records|
      invariant Stable(records[..k]) == Some(byId)
    {
      var record := records[k];
      assert records[..k + 1][..k] == records[..k];
      if record !in byId {
        if exists i :: 0 <= i < |byId| && byId[i].id == record.id {
          NeverStable(records, k + 1);
          return None;
        }
        byId := byId + [record];
      }
      k := k + 1;
    }
    assert records[..k] == records;
    return Some(byId);
  }

  lemma {:induction false} NeverStable(records: seq<Record>, k: nat)
    requires k <= |records| && Stable(records[..k]) == None
    ensures Stable(records) == None
  {
    if k == |records| {
      assert records[..k] == records;
    } else {
      assert records[..|records| - 1][..k] == records[..k];
      NeverStable(records[..|records| - 1], k);
    }
  }

  /** The evidence an emitted lag observation carries: which side comes strictly after which. */
  ghost predicate LagShown(run: Run, o: Observation) {
    match o.detector
    case RequirementLag =>
      && |o.sides| == 4
      && StrictlyAfter(run, o.sides[1].refs, o.sides[0].refs)
      && StrictlyAfter(run, o.sides[2].refs, o.sides[1].refs)
      && StrictlyAfter(run, o.sides[3].refs, o.sides[1].refs)
    case CodeLag => |o.sides| >= 2 && StrictlyAfter(run, o.sides[0].refs, o.sides[1].refs)
    case TestLag => |o.sides| == 3 && StrictlyAfter(run, o.sides[1].refs, o.sides[2].refs)
    case _ => true
  }

  lemma PresentSides(i: Input)
    ensures RequirementRole in i.sides && ImplementationRole in i.sides ==>
              var p := Present(i, [RequirementRole, ImplementationRole, TestRole]);
              |p| >= 2 && p[0] == i.sides[RequirementRole] && p[1] == i.sides[ImplementationRole]
              && (TestRole in i.sides ==> |p| == 3 && p[2] == i.sides[TestRole])
    ensures (forall r :: r in ALL_ROLES ==> r in i.sides) ==>
              Present(i, ALL_ROLES) ==
              [i.sides[RequirementRole], i.sides[DecisionRole], i.sides[ImplementationRole], i.sides[TestRole]]
  {
    var three := [RequirementRole, ImplementationRole, TestRole];
    assert three[1..] == [ImplementationRole, TestRole] && three[1..][1..] == [TestRole];
    assert ALL_ROLES[1..] == [DecisionRole, ImplementationRole, TestRole];
    assert ALL_ROLES[1..][1..] == [ImplementationRole, TestRole] && ALL_ROLES[1..][1..][1..] == [TestRole];
    assert RequirementRole in ALL_ROLES && DecisionRole in ALL_ROLES;
    assert ImplementationRole in ALL_ROLES && TestRole in ALL_ROLES;
    assert Present(i, [TestRole]) == if TestRole in i.sides then [i.sides[TestRole]] else [];
  }

  lemma FiringLagShown(run: Run, i: Input, o: Observation)
    requires IsLag(o.detector) && LagFires(run, i, o.detector) && o.sides == SidesFor(i, o.detector)
    ensures LagShown(run, o)
  {
    PresentSides(i);
  }

  /** Whatever the run reports as lag rests on strictly later evidence of other objects. */
  lemma EveryLagIsShown(hash: Hash, run: Run, lines: seq<Store.Line>, out: seq<Observation>, o: Observation)
    requires FromStore(run, lines)
    requires IsSelection(Candidates(hash, SortedById(run.records), run), out) && o in out && IsLag(o.detector)
    ensures LagShown(run, o)
  {
    var candidates := Candidates(hash, SortedById(run.records), run);
    OneLeastPerSubject(candidates, out, o.subject);
    CandidatesComeFrom(hash, SortedById(run.records), run, o);
    var r :| r in SortedById(run.records) && ComesFrom(hash, o, r, run);
    SortedMembers(run.records);
    LagIsLapse(r, run, lines, o.detector);
    FiringLagShown(run, Declared(r, run).value.1, o);
  }
}
