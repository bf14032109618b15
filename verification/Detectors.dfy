/** The six drift detectors and their first-match loop (reconcile/detectors.py). */
module Detectors {
  import opened Common
  import opened Chronology

  datatype Side = Side(claim: Text, refs: set<nat>, observedAt: Time, authors: set<Text>, mode: SourceMode,
                       current: bool)

  /** Sides and derived orders are absent where the source holds None. */
  datatype Input = Input(subject: nat, affected: set<nat>, sides: map<Role, Side>, orders: map<(Role, Role), Order>,
                         compatibility: Compatibility, requirementActive: bool, hasMappedSemantics: bool,
                         materialCodeChange: bool)

  datatype Detector = ConflictingSources | RequirementLag | CodeLag | TestLag | UndocumentedCode
                    | IntentWithoutRequirement | RequirementWithoutIntent | RelevantProvisionalIntent
                    | StaleSourceEvidence | AmbiguousDivergence | OtherDetector(name: Text)

  /** `_DETECTOR_ORDER`. */
  function Precedence(d: Detector): nat {
    match d
    case ConflictingSources => 0
    case RequirementLag => 1
    case CodeLag => 2
    case TestLag => 3
    case UndocumentedCode => 4
    case IntentWithoutRequirement => 5
    case RequirementWithoutIntent => 6
    case RelevantProvisionalIntent => 7
    case StaleSourceEvidence => 8
    case AmbiguousDivergence => 9
    case OtherDetector(_) => 100
  }

  /** What a fingerprint is computed from. A fingerprint is a SHA-256 value; its 64 hexadecimal
      digits compare as the number they denote. */
  datatype Facts = Facts(detector: Detector, subject: nat, affected: set<nat>, refs: set<nat>)

  type Hash = Facts -> nat

  ghost predicate Injective(hash: Hash) { forall x, y :: hash(x) == hash(y) ==> x == y }

  datatype Observation = Observation(subject: nat, affected: set<nat>, sides: seq<Side>, detector: Detector,
                                     fingerprint: nat)

  function RefsOf(sides: seq<Side>): set<nat> { set i, r | 0 <= i < |sides| && r in sides[i].refs :: r }

  function FactsOf(o: Observation): Facts { Facts(o.detector, o.subject, o.affected, RefsOf(o.sides)) }

  function Observe(hash: Hash, subject: nat, affected: set<nat>, d: Detector, sides: seq<Side>): (o: Observation)
    ensures o.subject == subject && o.detector == d && o.fingerprint == hash(FactsOf(o))
  {
    Observation(subject, affected, sides, d, hash(Facts(d, subject, affected, RefsOf(sides))))
  }

  // ----- Detectors

  function OrderOf(i: Input, a: Role, b: Role): Order
    requires a in i.sides && b in i.sides
  {
    if (a, b) in i.orders then i.orders[(a, b)] else Compare(i.sides[a].observedAt, i.sides[b].observedAt)
  }

  /** The sides that exist among the given roles, in that order. */
  function Present(i: Input, roles: seq<Role>): seq<Side> {
    if roles == [] then [] else (if roles[0] in i.sides then [i.sides[roles[0]]] else []) + Present(i, roles[1..])
  }

  function CurrentExplicit(sides: seq<Side>): seq<Side> {
    if sides == [] then [] else
      (if sides[0].current && sides[0].mode == Explicit then [sides[0]] else []) + CurrentExplicit(sides[1..])
  }

  predicate AllCurrent(i: Input, roles: set<Role>) { forall r :: r in roles ==> r in i.sides && i.sides[r].current }

  const ALL_ROLES: seq<Role> := [RequirementRole, DecisionRole, ImplementationRole, TestRole]

  predicate After(i: Input, a: Role, b: Role) { a in i.sides && b in i.sides && OrderOf(i, a, b) == Later }

  predicate Fires(i: Input, d: Detector) {
    match d
    case ConflictingSources =>
      var candidates := CurrentExplicit(Present(i, ALL_ROLES));
      && i.compatibility == Contradicts && |candidates| >= 2
      && |set k, a | 0 <= k < |candidates| && a in candidates[k].authors :: a| >= 2
    case RequirementLag =>
      && i.compatibility == Aligns
      && AllCurrent(i, {RequirementRole, ImplementationRole, TestRole, DecisionRole})
      && i.sides[DecisionRole].mode == Explicit
      && After(i, DecisionRole, RequirementRole)
      && After(i, ImplementationRole, DecisionRole)
      && After(i, TestRole, DecisionRole)
    case CodeLag =>
      && i.requirementActive && AllCurrent(i, {RequirementRole, ImplementationRole})
      && After(i, RequirementRole, ImplementationRole)
    case TestLag =>
      && i.requirementActive && AllCurrent(i, {RequirementRole, ImplementationRole, TestRole})
      && After(i, ImplementationRole, TestRole)
    case UndocumentedCode => ImplementationRole in i.sides && i.materialCodeChange && !i.hasMappedSemantics
    case AmbiguousDivergence => i.compatibility == Unclear && |Present(i, ALL_ROLES)| >= 2
    case _ => false
  }

  function SidesFor(i: Input, d: Detector): seq<Side> {
    match d
    case ConflictingSources => CurrentExplicit(Present(i, ALL_ROLES))
    case RequirementLag => Present(i, ALL_ROLES)
    case CodeLag => Present(i, [RequirementRole, ImplementationRole, TestRole])
    case TestLag => Present(i, [RequirementRole, ImplementationRole, TestRole])
    case UndocumentedCode => Present(i, [ImplementationRole])
    case AmbiguousDivergence => Present(i, ALL_ROLES)
    case _ => []
  }

  function Detect(hash: Hash, i: Input, d: Detector): (r: Option<Observation>)
    ensures r.Some? ==>
              r.value.detector == d && r.value.subject == i.subject && r.value.fingerprint == hash(FactsOf(r.value))
  {
    if Fires(i, d) then Some(Observe(hash, i.subject, i.affected, d, SidesFor(i, d))) else None
  }

  const DETECTORS: seq<Detector> :=
    [ConflictingSources, RequirementLag, CodeLag, TestLag, UndocumentedCode, AmbiguousDivergence]

  /** Everything the given detectors report, in their order. */
  function Fired(hash: Hash, i: Input, detectors: seq<Detector>): (r: seq<Observation>)
    ensures forall o :: o in r ==> o.subject == i.subject
  {
    if detectors == [] then [] else
      var rest := Fired(hash, i, detectors[..|detectors| - 1]);
      var last := Detect(hash, i, detectors[|detectors| - 1]);
      if last == None then rest else rest + [last.value]
  }

  /** `detect_drift`: the first observation of each subject, hence at most one. (The final
      sort acts on at most one observation.) */
  method DetectDrift(hash: Hash, i: Input) returns (observations: seq<Observation>)
    ensures var all := Fired(hash, i, DETECTORS); observations == if all == [] then [] else [all[0]]
  {
    observations := [];
    var classified: set<nat> := {};
    var k := 0;
    assert DETECTORS[..0] == [];
    while k < |DETECTORS|
      invariant 0 <= k <= |DETECTORS|
      invariant var all := Fired(hash, i, DETECTORS[..k]); observations == if all == [] then [] else [all[0]]
      invariant classified == if observations == [] then {} else {i.subject}
    {
      assert DETECTORS[..k + 1][..k] == DETECTORS[..k];
      var observation := Detect(hash, i, DETECTORS[k]);
      if observation.Some? && observation.value.subject !in classified {
        observations := observations + [observation.value];
        classified := classified + {observation.value.subject};
      }
      k := k + 1;
    }
    assert DETECTORS[..k] == DETECTORS;
  }
}
