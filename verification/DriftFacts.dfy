/** What the drift detectors and the resolution of declared sides decide, over sides, authors,
    orders and records directly (reconcile/detectors.py, reconcile/evidence_detection.py). */
module DriftFacts {
  import opened Common
  import opened Collections
  import opened Chronology
  import opened Detectors
  import opened Selection
  import opened EvidenceDrift

  // ----- Detectors

  ghost predicate Live(i: Input, r: Role) { r in i.sides && i.sides[r].current }

  /** A current explicit position. */
  ghost predicate Position(i: Input, r: Role) { r in i.sides && i.sides[r].current && i.sides[r].mode == Explicit }

  ghost predicate Wrote(i: Input, r: Role, author: Text) { Position(i, r) && author in i.sides[r].authors }

  /** The first side comes after the second: by the derived order, else by time. */
  ghost predicate Newer(i: Input, a: Role, b: Role) {
    && a in i.sides && b in i.sides
    && if (a, b) in i.orders then i.orders[(a, b)] == Later else i.sides[a].observedAt > i.sides[b].observedAt
  }

  lemma NewerExactly(i: Input, a: Role, b: Role)
    ensures After(i, a, b) <==> Newer(i, a, b)
  {}

  lemma LagsExactly(i: Input)
    ensures Fires(i, RequirementLag) <==>
              && i.compatibility == Aligns && Position(i, DecisionRole)
              && Live(i, RequirementRole) && Live(i, ImplementationRole) && Live(i, TestRole)
              && Newer(i, DecisionRole, RequirementRole) && Newer(i, ImplementationRole, DecisionRole)
              && Newer(i, TestRole, DecisionRole)
    ensures Fires(i, CodeLag) <==>
              && i.requirementActive && Live(i, RequirementRole) && Live(i, ImplementationRole)
              && Newer(i, RequirementRole, ImplementationRole)
    ensures Fires(i, TestLag) <==>
              && i.requirementActive && Live(i, RequirementRole) && Live(i, ImplementationRole) && Live(i, TestRole)
              && Newer(i, ImplementationRole, TestRole)
  {}

  lemma PresentOne(i: Input, r: Role, rest: seq<Role>)
    ensures Present(i, [r] + rest) == (if r in i.sides then [i.sides[r]] else []) + Present(i, rest)
  {
    assert ([r] + rest)[1..] == rest;
  }

  lemma PresentTwo(i: Input)
    ensures Present(i, [TestRole]) == One(i, TestRole)
    ensures Present(i, [ImplementationRole, TestRole]) == One(i, ImplementationRole) + One(i, TestRole)
    ensures Present(i, [ImplementationRole]) == One(i, ImplementationRole)
  {
    PresentOne(i, TestRole, []);
    PresentOne(i, ImplementationRole, []);
    PresentOne(i, ImplementationRole, [TestRole]);
    assert [TestRole] + [] == [TestRole] && [ImplementationRole] + [] == [ImplementationRole];
    assert [ImplementationRole] + [TestRole] == [ImplementationRole, TestRole];
  }

  lemma PresentThree(i: Input)
    ensures Present(i, [RequirementRole, ImplementationRole, TestRole])
         == One(i, RequirementRole) + One(i, ImplementationRole) + One(i, TestRole)
  {
    PresentTwo(i);
    PresentOne(i, RequirementRole, [ImplementationRole, TestRole]);
    assert [RequirementRole] + [ImplementationRole, TestRole] == [RequirementRole, ImplementationRole, TestRole];
  }

  /** The four sides that exist, in the order of the reports. */
  lemma PresentAll(i: Input)
    ensures Present(i, ALL_ROLES) ==
              One(i, RequirementRole) + One(i, DecisionRole) + One(i, ImplementationRole) + One(i, TestRole)
  {
    PresentTwo(i);
    PresentOne(i, DecisionRole, [ImplementationRole, TestRole]);
    PresentOne(i, RequirementRole, [DecisionRole, ImplementationRole, TestRole]);
    assert [DecisionRole] + [ImplementationRole, TestRole] == [DecisionRole, ImplementationRole, TestRole];
    assert [RequirementRole] + [DecisionRole, ImplementationRole, TestRole] == ALL_ROLES;
  }

  function One(i: Input, r: Role): seq<Side> { if r in i.sides then [i.sides[r]] else [] }

  function OnePosition(i: Input, r: Role): seq<Side> {
    if r in i.sides && i.sides[r].current && i.sides[r].mode == Explicit then [i.sides[r]] else []
  }

  lemma {:induction false} ExplicitConcat(a: seq<Side>, b: seq<Side>)
    ensures CurrentExplicit(a + b) == CurrentExplicit(a) + CurrentExplicit(b)
  {
    if a == [] {
      assert a + b == b;
    } else {
      assert (a + b)[1..] == a[1..] + b;
      ExplicitConcat(a[1..], b);
    }
  }

  lemma ExplicitOne(i: Input, r: Role)
    ensures CurrentExplicit(One(i, r)) == OnePosition(i, r)
  {}

  lemma PositionsAll(i: Input)
    ensures CurrentExplicit(Present(i, ALL_ROLES))
         == OnePosition(i, RequirementRole) + OnePosition(i, DecisionRole)
            + OnePosition(i, ImplementationRole) + OnePosition(i, TestRole)
  {
    PresentAll(i);
    var a, b, c, d := One(i, RequirementRole), One(i, DecisionRole), One(i, ImplementationRole), One(i, TestRole);
    ExplicitConcat(a, b);
    ExplicitConcat(a + b, c);
    ExplicitConcat(a + b + c, d);
    ExplicitOne(i, RequirementRole);
    ExplicitOne(i, DecisionRole);
    ExplicitOne(i, ImplementationRole);
    ExplicitOne(i, TestRole);
  }

  lemma TwoElements<T>(s: set<T>)
    ensures |s| >= 2 <==> exists x, y :: x in s && y in s && x != y
  {
    if |s| >= 2 {
      var x :| x in s;
      assert |s - {x}| == |s| - 1;
      var y :| y in s - {x};
      assert x in s && y in s && x != y;
    }
    if exists x, y :: x in s && y in s && x != y {
      var x, y :| x in s && y in s && x != y;
      SubsetSize({x, y}, s);
      assert |{x, y}| == 2;
    }
  }

  function AuthorsOf(sides: seq<Side>): set<Text> { set k, a | 0 <= k < |sides| && a in sides[k].authors :: a }

  lemma PositionIn(i: Input, r: Role)
    requires Position(i, r)
    ensures i.sides[r] in OnePosition(i, RequirementRole) + OnePosition(i, DecisionRole)
                          + OnePosition(i, ImplementationRole) + OnePosition(i, TestRole)
  {
    assert OnePosition(i, r) == [i.sides[r]] && i.sides[r] in OnePosition(i, r);
  }

  lemma PositionAuthors(i: Input, author: Text)
    ensures author in AuthorsOf(CurrentExplicit(Present(i, ALL_ROLES))) <==> exists r :: Wrote(i, r, author)
  {
    PositionsAll(i);
    var sides := CurrentExplicit(Present(i, ALL_ROLES));
    if author in AuthorsOf(sides) {
      var k :| 0 <= k < |sides| && author in sides[k].authors;
      assert || (Wrote(i, RequirementRole, author)) || Wrote(i, DecisionRole, author)
             || Wrote(i, ImplementationRole, author) || Wrote(i, TestRole, author);
    }
    if exists r :: Wrote(i, r, author) {
      var r :| Wrote(i, r, author);
      PositionIn(i, r);
      var k :| 0 <= k < |sides| && sides[k] == i.sides[r];
    }
  }

  /** Conflicting sources: contradicting declarations of which at least two roles hold current
      explicit positions, by at least two authors between them. */
  lemma ConflictingExactly(i: Input)
    ensures Fires(i, ConflictingSources) <==>
              && i.compatibility == Contradicts
              && (exists a, b :: a != b && Position(i, a) && Position(i, b))
              && (exists x, y, r, q :: x != y && Wrote(i, r, x) && Wrote(i, q, y))
  {
    PositionsAll(i);
    var sides := CurrentExplicit(Present(i, ALL_ROLES));
    CountPositions(i);
    TwoElements(AuthorsOf(sides));
    if |AuthorsOf(sides)| >= 2 {
      var x, y :| x in AuthorsOf(sides) && y in AuthorsOf(sides) && x != y;
      PositionAuthors(i, x);
      PositionAuthors(i, y);
    }
    if exists x, y, r, q :: x != y && Wrote(i, r, x) && Wrote(i, q, y) {
      var x, y, r, q :| x != y && Wrote(i, r, x) && Wrote(i, q, y);
      PositionAuthors(i, x);
      PositionAuthors(i, y);
    }
    assert AuthorsOf(sides) == set k, a | 0 <= k < |sides| && a in sides[k].authors :: a;
  }

  lemma CountPositions(i: Input)
    ensures |CurrentExplicit(Present(i, ALL_ROLES))| >= 2 <==> exists a, b :: a != b && Position(i, a) && Position(i, b)
  {
    PositionsAll(i);
    var r, d, c, t := Position(i, RequirementRole), Position(i, DecisionRole), Position(i, ImplementationRole),
        Position(i, TestRole);
    assert r && d ==> RequirementRole != DecisionRole;
    assert r && c ==> RequirementRole != ImplementationRole;
    assert r && t ==> RequirementRole != TestRole;
    assert d && c ==> DecisionRole != ImplementationRole;
    assert d && t ==> DecisionRole != TestRole;
    assert c && t ==> ImplementationRole != TestRole;
  }

  /** Undocumented code: a material change without mapped semantics. Ambiguous divergence: unknown
      compatibility of at least two sides. */
  lemma OthersExactly(i: Input)
    ensures Fires(i, UndocumentedCode) <==>
              ImplementationRole in i.sides && i.materialCodeChange && !i.hasMappedSemantics
    ensures Fires(i, AmbiguousDivergence) <==>
              i.compatibility == Unclear && exists a, b :: a != b && a in i.sides && b in i.sides
    ensures forall d :: Fires(i, d) ==>
              d in {ConflictingSources, RequirementLag, CodeLag, TestLag, UndocumentedCode, AmbiguousDivergence}
  {
    PresentAll(i);
    var n := |One(i, RequirementRole)| + |One(i, DecisionRole)| + |One(i, ImplementationRole)| + |One(i, TestRole)|;
    assert |Present(i, ALL_ROLES)| == n;
    if n >= 2 {
      var a := if RequirementRole in i.sides then RequirementRole
               else if DecisionRole in i.sides then DecisionRole else ImplementationRole;
      var b := if TestRole in i.sides then TestRole
               else if ImplementationRole in i.sides then ImplementationRole else DecisionRole;
      assert a != b && a in i.sides && b in i.sides;
    }
  }

  /** What each detector reports: the subject, the affected nodes, its sides in this order, and a
      fingerprint of its detector, subject, affected nodes and evidence. */
  lemma ReportExactly(hash: Hash, i: Input, d: Detector)
    requires Fires(i, d)
    ensures var o := Detect(hash, i, d).value;
            && Detect(hash, i, d).Some? && o.subject == i.subject && o.affected == i.affected && o.detector == d
            && o.fingerprint
               == hash(Facts(d, i.subject, i.affected, set k, r | 0 <= k < |o.sides| && r in o.sides[k].refs :: r))
            && o.sides == match d
                          case ConflictingSources =>
                            OnePosition(i, RequirementRole) + OnePosition(i, DecisionRole)
                            + OnePosition(i, ImplementationRole) + OnePosition(i, TestRole)
                          case CodeLag => One(i, RequirementRole) + One(i, ImplementationRole) + One(i, TestRole)
                          case TestLag => One(i, RequirementRole) + One(i, ImplementationRole) + One(i, TestRole)
                          case UndocumentedCode => One(i, ImplementationRole)
                          case _ =>
                            One(i, RequirementRole) + One(i, DecisionRole)
                            + One(i, ImplementationRole) + One(i, TestRole)
  {
    PresentAll(i);
    PresentTwo(i);
    PresentThree(i);
    PositionsAll(i);
    OthersExactly(i);
  }

  /** The established precedence, most specific first. */
  lemma PrecedenceExactly()
    ensures [Precedence(ConflictingSources), Precedence(RequirementLag), Precedence(CodeLag), Precedence(TestLag),
             Precedence(UndocumentedCode), Precedence(IntentWithoutRequirement), Precedence(RequirementWithoutIntent),
             Precedence(RelevantProvisionalIntent), Precedence(StaleSourceEvidence), Precedence(AmbiguousDivergence)]
         == [0, 1, 2, 3, 4, 5, 6, 7, 8, 9]
    ensures forall name :: Precedence(OtherDetector(name)) == 100
  {}

  // ----- Resolution of sides

  /** The reference names the record. */
  ghost predicate Names(ref: Reference, r: Record, declaring: Record) {
    match ref
    case Self => r == declaring
    case Source(connector, external) =>
      |connector| > 0 && |external| > 0 && r.connectorType == connector && r.objectId == external
    case GitPath(path) => |path| > 0 && r.connectorType == "git" && path in r.changedPaths
    case Exact(id) => r.id == id
  }

  /** Position k holds the only record among the candidates that the reference names. */
  ghost predicate OnlyAt(ref: Reference, records: seq<Record>, declaring: Record, k: int) {
    && 0 <= k < |records| && Names(ref, records[k], declaring)
    && forall j :: 0 <= j < |records| && j != k ==> !Names(ref, records[j], declaring)
  }

  lemma {:induction false} KeptOnce<T>(items: seq<T>, keep: T -> bool)
    ensures |Keep(items, keep)| == 0 <==> forall j :: 0 <= j < |items| ==> !keep(items[j])
    ensures |Keep(items, keep)| == 1 <==> exists k :: SoleAt(items, keep, k)
    ensures forall k :: SoleAt(items, keep, k) ==> Keep(items, keep) == [items[k]]
  {
    if items != [] {
      var n := |items| - 1;
      KeptOnce(items[..n], keep);
      if keep(items[n]) {
        if |Keep(items[..n], keep)| == 0 { assert SoleAt(items, keep, n); }
        forall k | SoleAt(items, keep, k) ensures k == n {}
      } else {
        forall k: int ensures SoleAt(items, keep, k) <==> SoleAt(items[..n], keep, k) {}
      }
    }
  }

  ghost predicate SoleAt<T>(items: seq<T>, keep: T -> bool, k: int) {
    0 <= k < |items| && keep(items[k]) && forall j :: 0 <= j < |items| && j != k ==> !keep(items[j])
  }

  /** A reference resolves exactly to the declaring record itself or to the only record it names. */
  lemma ReferenceExactly(ref: Reference, declaring: Record, records: seq<Record>, r: Record)
    ensures ResolveReference(ref, declaring, records) == Some(r) <==>
              if ref.Self? then r == declaring else exists k :: OnlyAt(ref, records, declaring, k) && records[k] == r
  {
    match ref
    case Self =>
    case Source(connector, external) =>
      var keep := (r: Record) => r.connectorType == connector && r.objectId == external;
      KeptOnce(records, keep);
      if connector != "" && external != "" {
        forall k: int ensures SoleAt(records, keep, k) <==> OnlyAt(ref, records, declaring, k) {}
      }
    case GitPath(path) =>
      var keep := (r: Record) => r.connectorType == "git" && path in r.changedPaths;
      KeptOnce(records, keep);
      if path != "" { forall k: int ensures SoleAt(records, keep, k) <==> OnlyAt(ref, records, declaring, k) {} }
    case Exact(id) =>
      var keep := (r: Record) => r.id == id;
      KeptOnce(records, keep);
      forall k: int ensures SoleAt(records, keep, k) <==> OnlyAt(ref, records, declaring, k) {}
  }

  lemma {:induction false} AllResolve(refs: seq<Reference>, declaring: Record, records: seq<Record>, found: seq<Record>)
    ensures ResolveAll(refs, declaring, records) == Some(found) <==>
              |found| == |refs| && forall k :: 0 <= k < |refs| ==>
                  ResolveReference(refs[k], declaring, records) == Some(found[k])
  {
    if refs != [] {
      var n := |refs| - 1;
      if |found| == |refs| {
        AllResolve(refs[..n], declaring, records, found[..n]);
        assert found == found[..n] + [found[n]];
      }
      if ResolveAll(refs, declaring, records) == Some(found) {
        AllResolve(refs[..n], declaring, records, ResolveAll(refs[..n], declaring, records).value);
      }
    }
  }

  /** The latest observation of the records. */
  ghost predicate IsLatest(records: seq<Record>, t: Time) {
    && (forall k :: 0 <= k < |records| ==> records[k].observedAt <= t)
    && exists k :: 0 <= k < |records| && records[k].observedAt == t
  }

  lemma {:induction false} LatestExactly(records: seq<Record>, t: Time)
    requires records != []
    ensures LatestSeen(records) == t <==> IsLatest(records, t)
  {
    var n := |records| - 1;
    if n > 0 {
      var before := LatestSeen(records[..n]);
      LatestExactly(records[..n], before);
      var k :| 0 <= k < n && records[..n][k].observedAt == before;
      assert records[k].observedAt == before;
      forall j | 0 <= j < n ensures records[j].observedAt <= before { assert records[j] == records[..n][j]; }
    }
  }

  /** The records behind a declared side: one per reference, all different, all readable. */
  ghost predicate Stands(d: SideDeclaration, declaring: Record, run: Run, records: seq<Record>) {
    && |d.refs| > 0 && (forall i, j :: 0 <= i < j < |d.refs| ==> d.refs[i] != d.refs[j])
    && |records| == |d.refs|
    && (forall k :: 0 <= k < |d.refs| ==> ResolveReference(d.refs[k], declaring, run.records) == Some(records[k]))
    && (forall i, j :: 0 <= i < j < |records| ==> records[i].id != records[j].id)
    && (forall k :: 0 <= k < |records| ==> records[k].acl == {} || run.actor in records[k].acl)
    && (exists k :: 0 <= k < |records| && records[k].author.Some? && |records[k].author.value| > 0)
    && (d.current.Some? ==>
          (d.current.value <==> forall k :: 0 <= k < |records| ==> Current(records[k], run.ingestions)))
  }

  /** The public side of those records. */
  ghost predicate Shows(d: SideDeclaration, run: Run, records: seq<Record>, side: Side) {
    && side.claim == d.claim && side.mode == d.mode
    && (forall id :: id in side.refs <==> exists k :: 0 <= k < |records| && records[k].id == id)
    && (forall a :: a in side.authors <==> |a| > 0 && exists k :: 0 <= k < |records| && records[k].author == Some(a))
    && IsLatest(records, side.observedAt)
    && (side.current <==> forall k :: 0 <= k < |records| ==> Current(records[k], run.ingestions))
  }

  lemma IdsCount(records: seq<Record>)
    ensures |Ids(records)| == |records| <==> forall i, j :: 0 <= i < j < |records| ==> records[i].id != records[j].id
  {
    var ids := seq(|records|, i requires 0 <= i < |records| => records[i].id);
    CountDistinct(ids);
    assert forall k :: 0 <= k < |records| ==> ids[k] == records[k].id;
    forall x ensures x in Ids(records) <==> x in set i | 0 <= i < |ids| :: ids[i] {
      if x in Ids(records) {
        var k :| 0 <= k < |records| && records[k].id == x;
        assert ids[k] == x;
      }
    }
    assert Ids(records) == set i | 0 <= i < |ids| :: ids[i];
  }

  lemma ByIndex(records: seq<Record>, run: Run)
    ensures AllRecordsCurrent(records, run.ingestions) <==>
              forall k :: 0 <= k < |records| ==> Current(records[k], run.ingestions)
    ensures (forall r :: r in records ==> Allowed(r, run.actor)) <==>
              forall k :: 0 <= k < |records| ==> records[k].acl == {} || run.actor in records[k].acl
  {
    assert forall k :: 0 <= k < |records| ==> records[k] in records;
  }

  lemma SideStands(d: SideDeclaration, declaring: Record, run: Run, x: Resolved)
    requires ResolvedSide(d, declaring, run) == Some(x)
    ensures Stands(d, declaring, run, x.records) && Shows(d, run, x.records, x.side)
  {
    CountDistinct(d.refs);
    AllResolve(d.refs, declaring, run.records, x.records);
    IdsCount(x.records);
    ByIndex(x.records, run);
    AuthorsExactly(x.records);
    LatestExactly(x.records, x.side.observedAt);
  }

  lemma StandsSide(d: SideDeclaration, declaring: Record, run: Run, x: Resolved)
    requires Stands(d, declaring, run, x.records) && Shows(d, run, x.records, x.side)
    ensures ResolvedSide(d, declaring, run) == Some(x)
  {
    RefsResolve(d, declaring, run, x.records);
    RecordsPass(d, declaring, run, x.records);
    SameSide(d, run, x.records, x.side);
  }

  lemma RefsResolve(d: SideDeclaration, declaring: Record, run: Run, records: seq<Record>)
    requires Stands(d, declaring, run, records)
    ensures |set i | 0 <= i < |d.refs| :: d.refs[i]| == |d.refs|
    ensures ResolveAll(d.refs, declaring, run.records) == Some(records)
  {
    CountDistinct(d.refs);
    AllResolve(d.refs, declaring, run.records, records);
  }

  lemma RecordsPass(d: SideDeclaration, declaring: Record, run: Run, records: seq<Record>)
    requires Stands(d, declaring, run, records)
    ensures records != [] && |Ids(records)| == |records| && Authors(records) != {}
    ensures forall r :: r in records ==> Allowed(r, run.actor)
    ensures d.current.Some? ==> d.current.value == AllRecordsCurrent(records, run.ingestions)
  {
    IdsCount(records);
    AuthorsExactly(records);
    ByIndex(records, run);
  }

  /** A declared side resolves exactly to records that stand for it, and shows them. */
  lemma SideExactly(d: SideDeclaration, declaring: Record, run: Run, x: Resolved)
    ensures ResolvedSide(d, declaring, run) == Some(x) <==>
              Stands(d, declaring, run, x.records) && Shows(d, run, x.records, x.side)
  {
    if ResolvedSide(d, declaring, run) == Some(x) { SideStands(d, declaring, run, x); }
    if Stands(d, declaring, run, x.records) && Shows(d, run, x.records, x.side) { StandsSide(d, declaring, run, x); }
  }

  lemma AuthorsExactly(records: seq<Record>)
    ensures forall a :: a in Authors(records) <==>
              |a| > 0 && exists k :: 0 <= k < |records| && records[k].author == Some(a)
    ensures Authors(records) != {} <==>
              exists k :: 0 <= k < |records| && records[k].author.Some? && |records[k].author.value| > 0
  {
    forall k | 0 <= k < |records| && records[k].author.Some? && |records[k].author.value| > 0
      ensures records[k].author.value in Authors(records)
    {}
  }

  lemma SameSide(d: SideDeclaration, run: Run, records: seq<Record>, side: Side)
    requires records != [] && Shows(d, run, records, side)
    ensures side == Side(d.claim, Ids(records), LatestSeen(records), Authors(records), d.mode,
              AllRecordsCurrent(records, run.ingestions))
  {
    ByIndex(records, run);
    AuthorsExactly(records);
    LatestExactly(records, side.observedAt);
    assert side.refs == Ids(records);
    assert side.authors == Authors(records);
  }

  // ----- The input of a declaring record

  /** The declared sides among some roles all resolve and cite different evidence. */
  ghost predicate SidesStand(roles: seq<Role>, d: Declaration, declaring: Record, run: Run,
                             sides: map<Role, Resolved>) {
    && (forall r :: r in sides <==> r in roles && r in d.sides)
    && SidesResolve(d, declaring, run, sides) && Disjoint(sides)
  }

  ghost predicate SidesResolve(d: Declaration, declaring: Record, run: Run, sides: map<Role, Resolved>) {
    forall r :: r in sides ==> r in d.sides && ResolvedSide(d.sides[r], declaring, run) == Some(sides[r])
  }

  lemma {:induction false} SidesExactly(roles: seq<Role>, d: Declaration, declaring: Record, run: Run,
                                        sides: map<Role, Resolved>)
    requires forall i, j :: 0 <= i < j < |roles| ==> roles[i] != roles[j]
    ensures ResolvedSides(roles, d, declaring, run) == Some(sides) <==> SidesStand(roles, d, declaring, run, sides)
  {
    if roles == [] {
      assert SidesStand(roles, d, declaring, run, sides) ==> sides == map[];
    } else {
      var n := |roles| - 1;
      var init, role := roles[..n], roles[n];
      assert roles == init + [role] && role !in init;
      if role !in d.sides {
        SidesExactly(init, d, declaring, run, sides);
        assert SidesStand(roles, d, declaring, run, sides) <==> SidesStand(init, d, declaring, run, sides);
      } else {
        SidesExactly(init, d, declaring, run, sides - {role});
        if ResolvedSides(roles, d, declaring, run) == Some(sides) {
          var found := ResolvedSides(init, d, declaring, run).value;
          SidesExactly(init, d, declaring, run, found);
          SideJoins(init, role, d, declaring, run, found, sides);
        }
        if SidesStand(roles, d, declaring, run, sides) {
          SideLeaves(init, role, d, declaring, run, sides);
        }
      }
    }
  }

  lemma SideJoins(init: seq<Role>, role: Role, d: Declaration, declaring: Record, run: Run, found: map<Role, Resolved>,
                  sides: map<Role, Resolved>)
    requires SidesStand(init, d, declaring, run, found) && role !in init && role in d.sides
    requires ResolvedSide(d.sides[role], declaring, run).Some?
    requires var x := ResolvedSide(d.sides[role], declaring, run).value;
             !Overlaps(found, x) && sides == found[role := x]
    ensures SidesStand(init + [role], d, declaring, run, sides)
  {
    forall r ensures r in init + [role] <==> r in init || r == role {}
    JoinDisjoint(found, role, sides[role]);
  }

  ghost predicate Disjoint(sides: map<Role, Resolved>) {
    forall r, q :: r in sides && q in sides && r != q ==> sides[r].side.refs !! sides[q].side.refs
  }

  lemma JoinDisjoint(found: map<Role, Resolved>, role: Role, x: Resolved)
    requires Disjoint(found) && role !in found && !Overlaps(found, x)
    ensures Disjoint(found[role := x])
  {
    forall r | r in found ensures found[r].side.refs !! x.side.refs {
      var a, b := found[r].side.refs, x.side.refs;
      forall e | e in a ensures e !in b { assert e in b ==> e in a * b; }
    }
  }

  lemma SideLeaves(init: seq<Role>, role: Role, d: Declaration, declaring: Record, run: Run, sides: map<Role, Resolved>)
    requires SidesStand(init + [role], d, declaring, run, sides) && role !in init && role in d.sides
    ensures SidesStand(init, d, declaring, run, sides - {role}) && !Overlaps(sides - {role}, sides[role])
    ensures sides == (sides - {role})[role := sides[role]]
    ensures ResolvedSide(d.sides[role], declaring, run) == Some(sides[role])
  {
    assert role in init + [role] && role in sides;
    SplitDisjoint(sides, role);
    assert SidesResolve(d, declaring, run, sides - {role});
    forall r
      ensures r in sides - {role} <==> r in init && r in d.sides
    {
      assert r in init + [role] <==> r in init || r == role;
    }
  }

  lemma SplitDisjoint(sides: map<Role, Resolved>, role: Role)
    requires Disjoint(sides) && role in sides
    ensures Disjoint(sides - {role}) && !Overlaps(sides - {role}, sides[role])
    ensures sides == (sides - {role})[role := sides[role]]
  {}

  ghost predicate VersionsFit(d: Declaration, a: Role, b: Role, derived: Order) {
    a in d.versions && b in d.versions ==>
      match derived
      case Earlier => d.versions[a] < d.versions[b]
      case Later => d.versions[a] > d.versions[b]
      case Tied => d.versions[a] == d.versions[b]
      case Unknown => false
  }

  /** The comparisons a declaration makes. */
  lemma ComparisonsExactly(p: (Role, Role))
    ensures p in COMPARISONS <==>
              || p == (RequirementRole, ImplementationRole) || p == (DecisionRole, RequirementRole)
              || p == (ImplementationRole, DecisionRole) || p == (TestRole, DecisionRole) ||
                  p == (ImplementationRole, TestRole)
  {
    assert COMPARISONS[0] == (RequirementRole, ImplementationRole) && COMPARISONS[1] == (DecisionRole, RequirementRole);
    assert COMPARISONS[2] == (ImplementationRole, DecisionRole) && COMPARISONS[3] == (TestRole, DecisionRole);
    assert COMPARISONS[4] == (ImplementationRole, TestRole);
  }

  lemma RoleOrder(r: Role)
    ensures r in ROLE_ORDER && forall i, j :: 0 <= i < j < |ROLE_ORDER| ==> ROLE_ORDER[i] != ROLE_ORDER[j]
  {
    assert ROLE_ORDER[0] == RequirementRole && ROLE_ORDER[1] == ImplementationRole && ROLE_ORDER[2] == TestRole;
    assert ROLE_ORDER[3] == DecisionRole;
  }

  /** A readable record declares nodes of the graph, all its sides resolve to different evidence, and
      every pair of declared versions agrees with the derived order. */
  ghost predicate Declares(declaring: Record, run: Run, sides: map<Role, Resolved>) {
    && declaring.declaration.Some? && (declaring.acl == {} || run.actor in declaring.acl)
    && var d := declaring.declaration.value;
    && d.subject in run.graphIds && (forall n :: n in d.affected ==> n in run.graphIds)
    && (forall r :: r in sides <==> r in d.sides)
    && SidesResolve(d, declaring, run, sides) && Disjoint(sides)
    && (forall a, b :: (a, b) in COMPARISONS && a in sides && b in sides ==>
          VersionsFit(d, a, b, SideOrder(sides[a].records, sides[b].records, run.ingestions)))
  }

  /** A record yields an input with these sides exactly when it declares them. */
  lemma DeclaredExactly(declaring: Record, run: Run, sides: map<Role, Resolved>)
    ensures (Declared(declaring, run).Some? && Declared(declaring, run).value.0 == sides) <==>
              Declares(declaring, run, sides)
  {
    if declaring.declaration.Some? {
      var d := declaring.declaration.value;
      RoleOrder(RequirementRole);
      SidesExactly(ROLE_ORDER, d, declaring, run, sides);
      AllRoles(d, declaring, run, sides);
      VersionsExactly(d, sides, run);
      DeclaredSides(declaring, run, sides);
    }
  }

  lemma DeclaredSides(declaring: Record, run: Run, sides: map<Role, Resolved>)
    requires declaring.declaration.Some?
    ensures (Declared(declaring, run).Some? && Declared(declaring, run).value.0 == sides) <==>
              && Allowed(declaring, run.actor)
              && declaring.declaration.value.subject in run.graphIds &&
                  declaring.declaration.value.affected <= run.graphIds
              && ResolvedSides(ROLE_ORDER, declaring.declaration.value, declaring, run) == Some(sides)
              && VersionsAgree(declaring.declaration.value.versions, Chronologies(sides, run.ingestions))
  {}

  /** The input repeats the declaration with the resolved sides and the orders derived from their records. */
  lemma InputExactly(declaring: Record, run: Run)
    requires Declared(declaring, run).Some?
    ensures declaring.declaration.Some?
    ensures var (sides, input) := Declared(declaring, run).value; var d := declaring.declaration.value;
            && input.subject == d.subject && input.affected == d.affected
            && input.sides.Keys == sides.Keys && (forall r :: r in sides ==> input.sides[r] == sides[r].side)
            && (forall a, b :: (a, b) in input.orders <==> (a, b) in COMPARISONS && a in sides && b in sides)
            && (forall a, b :: (a, b) in input.orders ==>
                  input.orders[(a, b)] == SideOrder(sides[a].records, sides[b].records, run.ingestions))
            && input.compatibility == d.compatibility && input.requirementActive == d.requirementActive
            && input.hasMappedSemantics == d.hasMappedSemantics && input.materialCodeChange == d.materialCodeChange
  {}

  lemma AllRoles(d: Declaration, declaring: Record, run: Run, sides: map<Role, Resolved>)
    ensures SidesStand(ROLE_ORDER, d, declaring, run, sides) <==>
              (forall r :: r in sides <==> r in d.sides) && SidesResolve(d, declaring, run, sides) && Disjoint(sides)
  {
    forall r: Role ensures r in ROLE_ORDER { RoleOrder(r); }
  }

  lemma VersionsExactly(d: Declaration, sides: map<Role, Resolved>, run: Run)
    ensures VersionsAgree(d.versions, Chronologies(sides, run.ingestions)) <==>
              forall a, b :: (a, b) in COMPARISONS && a in sides && b in sides ==>
                VersionsFit(d, a, b, SideOrder(sides[a].records, sides[b].records, run.ingestions))
  {
    var chronology := Chronologies(sides, run.ingestions);
    if VersionsAgree(d.versions, chronology) {
      forall a, b | (a, b) in COMPARISONS && a in sides && b in sides
        ensures VersionsFit(d, a, b, SideOrder(sides[a].records, sides[b].records, run.ingestions))
      {
        assert (a, b) in chronology &&
            chronology[(a, b)] == SideOrder(sides[a].records, sides[b].records, run.ingestions);
      }
    }
    if forall a, b :: (a, b) in COMPARISONS && a in sides && b in sides ==>
         VersionsFit(d, a, b, SideOrder(sides[a].records, sides[b].records, run.ingestions)) {
      forall p | p in chronology && p.0 in d.versions && p.1 in d.versions
        ensures Compare(d.versions[p.0], d.versions[p.1]) == chronology[p]
      {
        assert (p.0, p.1) in COMPARISONS;
        assert VersionsFit(d, p.0, p.1, SideOrder(sides[p.0].records, sides[p.1].records, run.ingestions));
      }
    }
  }

  // ----- Orders and currency

  /** Some connector that ingested both versions saw them in the given order, and none otherwise. */
  ghost predicate Agreed(left: map<Text, int>, right: map<Text, int>, o: Order) {
    && (exists c :: c in left && c in right)
    && forall c :: c in left && c in right ==>
         match o
         case Earlier => left[c] < right[c]
         case Later => left[c] > right[c]
         case Tied => left[c] == right[c]
         case Unknown => false
  }

  /** Versions of one source object are ordered by the connectors that ingested both, when those
      agree; other records by observation time. */
  lemma RecordOrderExactly(left: Record, right: Record, ingestions: seq<Ingestion>, o: Order)
    requires o != Unknown
    ensures RecordOrder(left, right, ingestions) == o <==>
              if left.connectorType == right.connectorType && left.objectId == right.objectId
              then Agreed(Sequences(ingestions, left.id), Sequences(ingestions, right.id), o)
              else match o
                   case Earlier => left.observedAt < right.observedAt
                   case Later => left.observedAt > right.observedAt
                   case _ => left.observedAt == right.observedAt
  {
    if SameObject(left, right) {
      var l, r := Sequences(ingestions, left.id), Sequences(ingestions, right.id);
      if Agreed(l, r, o) {
        var c :| c in l && c in r;
        assert Compare(l[c], r[c]) == o && o in SharedOrders(l, r);
        assert SharedOrders(l, r) == {o};
      }
      if RecordOrder(left, right, ingestions) == o {
        assert o in SharedOrders(l, r);
        forall c | c in l && c in r
          ensures Compare(l[c], r[c]) == o
        {
          assert Compare(l[c], r[c]) in SharedOrders(l, r);
        }
      }
    }
  }

  /** A connector's position of a record is that of its last ingestion under the identifier. */
  lemma {:induction false} SequencesExactly(ingestions: seq<Ingestion>, id: nat, c: Text, n: int)
    ensures (c in Sequences(ingestions, id) && Sequences(ingestions, id)[c] == n) <==>
              exists k :: LastIngestion(ingestions, id, c, n, k)
  {
    if ingestions != [] {
      var last := |ingestions| - 1;
      SequencesExactly(ingestions[..last], id, c, n);
      if ingestions[last].evidence.id == id && ingestions[last].connectorId == c {
        assert ingestions[last].sequence == n ==> LastIngestion(ingestions, id, c, n, last);
        forall k | LastIngestion(ingestions, id, c, n, k) ensures k == last {}
      } else {
        forall k: int ensures LastIngestion(ingestions, id, c, n, k) <==>
            LastIngestion(ingestions[..last], id, c, n, k) {}
      }
    }
  }

  ghost predicate LastIngestion(ingestions: seq<Ingestion>, id: nat, c: Text, n: int, k: int) {
    && 0 <= k < |ingestions| && ingestions[k].evidence.id == id && ingestions[k].connectorId == c &&
        ingestions[k].sequence == n
    && forall j :: k < j < |ingestions| ==> ingestions[j].evidence.id != id || ingestions[j].connectorId != c
  }

  /** A record is current when it was ingested and no connector that ingested it has a later
      ingestion of its object. */
  lemma CurrentExactly(r: Record, log: seq<Ingestion>)
    ensures Current(r, log) <==>
              && (exists a :: a in log && a.evidence.id == r.id)
              && (forall a, b ::
                    (&& a in log && a.evidence.id == r.id && b in log && b.connectorId == a.connectorId
                     && b.evidence.connectorType == r.connectorType && b.evidence.objectId == r.objectId)
                    ==> b.sequence <= a.sequence)
  {
    if Current(r, log) {
      forall a, b | a in log && a.evidence.id == r.id && b in log && b.connectorId == a.connectorId
                    && b.evidence.connectorType == r.connectorType && b.evidence.objectId == r.objectId
        ensures b.sequence <= a.sequence
      {
        assert !Supersedes(b, r, a);
      }
    }
  }
}
