/** Derived chronology between evidence records (reconcile/evidence_detection.py). Record
    identifiers are natural numbers in the source's string order. */
module Chronology {
  import opened Common

  datatype Reference = Self | Source(connector: Text, external: Text) | GitPath(path: Text) | Exact(id: nat)

  datatype SideDeclaration = SideDeclaration(claim: Text, refs: seq<Reference>, mode: SourceMode, current: Option<bool>)

  datatype SourceMode = Explicit | Inferred | Derived

  datatype Compatibility = Aligns | Contradicts | Unclear

  datatype Role = RequirementRole | ImplementationRole | TestRole | DecisionRole

  /** A declared comparison; the front-matter and schema parsing that yields it is not modelled. */
  datatype Declaration = Declaration(subject: nat, affected: set<nat>, sides: map<Role, SideDeclaration>,
                                     versions: map<Role, int>, compatibility: Compatibility, requirementActive: bool,
                                     hasMappedSemantics: bool, materialCodeChange: bool)

  datatype Record = Record(id: nat, connectorType: Text, objectId: Text, observedAt: Time, author: Option<Text>,
                           acl: set<Text>, scope: Option<Text>, changedPaths: set<Text>,
                           declaration: Option<Declaration>)

  /** One connector's association with a record; `predecessor` is the connector's previous version of the object. */
  datatype Ingestion = Ingestion(connectorId: Text, sequence: int, predecessor: Option<nat>, evidence: Record)

  datatype Order = Earlier | Later | Tied | Unknown

  predicate SameObject(a: Record, b: Record) { a.connectorType == b.connectorType && a.objectId == b.objectId }

  /** `evidence_allowed`: public, or granted to the actor. */
  predicate Allowed(r: Record, actor: Text) { r.acl == {} || actor in r.acl }

  /** The non-empty authors of the records. */
  function Authors(records: seq<Record>): set<Text> {
    set i | 0 <= i < |records| && records[i].author.Some? && records[i].author.value != "" :: records[i].author.value
  }

  function LatestSeen(records: seq<Record>): Time
    requires records != []
  {
    if |records| == 1 then records[0].observedAt else
      var before := LatestSeen(records[..|records| - 1]);
      if records[|records| - 1].observedAt > before then records[|records| - 1].observedAt else before
  }

  // ----- Record order

  function Compare(left: int, right: int): Order {
    if left < right then Earlier else if left > right then Later else Tied
  }

  /** `{item.connector_id: item.sequence for item in ingestions if item.evidence.id == id}`. */
  function Sequences(ingestions: seq<Ingestion>, id: nat): map<Text, int> {
    if ingestions == [] then map[] else
      var last := ingestions[|ingestions| - 1];
      var before := Sequences(ingestions[..|ingestions| - 1], id);
      if last.evidence.id == id then before[last.connectorId := last.sequence] else before
  }

  /** The single element of a set of orders, else Unknown. */
  function Only(orders: set<Order>): Order {
    if orders == {Earlier} then Earlier
    else if orders == {Later} then Later
    else if orders == {Tied} then Tied
    else Unknown
  }

  function SharedOrders(left: map<Text, int>, right: map<Text, int>): set<Order> {
    set c | c in left && c in right :: Compare(left[c], right[c])
  }

  function RecordOrder(left: Record, right: Record, ingestions: seq<Ingestion>): Order {
    if SameObject(left, right) then Only(SharedOrders(Sequences(ingestions, left.id), Sequences(ingestions, right.id)))
    else Compare(left.observedAt, right.observedAt)
  }

  function PairOrders(left: seq<Record>, right: seq<Record>, ingestions: seq<Ingestion>): set<Order> {
    set i, j | 0 <= i < |left| && 0 <= j < |right| :: RecordOrder(left[i], right[j], ingestions)
  }

  function SideOrder(left: seq<Record>, right: seq<Record>, ingestions: seq<Ingestion>): Order {
    Only(PairOrders(left, right, ingestions))
  }

  // ----- Currency

  /** `item` is a later ingestion of `record`'s object than one of the record's own. */
  predicate Supersedes(item: Ingestion, record: Record, association: Ingestion) {
    && item.connectorId == association.connectorId
    && SameObject(item.evidence, record)
    && item.sequence > association.sequence
  }

  predicate Current(record: Record, ingestions: seq<Ingestion>) {
    && (exists a :: a in ingestions && a.evidence.id == record.id)
    && (forall a, item :: a in ingestions && a.evidence.id == record.id && item in ingestions ==>
        !Supersedes(item, record, a))
  }

  /** `_records_are_current`. */
  method RecordsAreCurrent(records: seq<Record>, ingestions: seq<Ingestion>) returns (current: bool)
    ensures current <==> forall r :: r in records ==> Current(r, ingestions)
  {
    for i := 0 to |records|
      invariant forall r :: r in records[..i] ==> Current(r, ingestions)
    {
      var record := records[i];
      assert record in records;
      var found := false;
      for j := 0 to |ingestions|
        invariant found <==> exists a :: a in ingestions[..j] && a.evidence.id == record.id
        invariant forall a, item :: a in ingestions[..j] && a.evidence.id == record.id && item in ingestions ==>
                  !Supersedes(item, record, a)
      {
        var a := ingestions[j];
        assert a in ingestions;
        assert ingestions[..j + 1] == ingestions[..j] + [a];
        if a.evidence.id == record.id {
          found := true;
          if k :| 0 <= k < |ingestions| && Supersedes(ingestions[k], record, a) {
            assert ingestions[k] in ingestions;
            return false;
          }
        }
      }
      assert ingestions[..|ingestions|] == ingestions;
      if !found { return false; }
      assert records[..i + 1] == records[..i] + [record];
    }
    assert records[..|records|] == records;
    return true;
  }

  // ----- Antisymmetry

  function Reverse(o: Order): Order {
    match o case Earlier => Later case Later => Earlier case Tied => Tied case Unknown => Unknown
  }

  lemma OnlyReverse(orders: set<Order>, reversed: set<Order>)
    requires forall o :: o in reversed <==> Reverse(o) in orders
    ensures Only(reversed) == Reverse(Only(orders))
  {
    forall o: Order ensures Reverse(Reverse(o)) == o {}
    forall o: Order | orders == {o} ensures reversed == {Reverse(o)} {}
    forall o: Order | reversed == {o} ensures orders == {Reverse(o)} {
      assert Reverse(o) in orders;
      forall p | p in orders ensures p == Reverse(o) { assert Reverse(p) in reversed; }
    }
  }

  lemma RecordOrderAntisymmetric(left: Record, right: Record, ingestions: seq<Ingestion>)
    ensures RecordOrder(right, left, ingestions) == Reverse(RecordOrder(left, right, ingestions))
  {
    if SameObject(left, right) {
      var l, r := Sequences(ingestions, left.id), Sequences(ingestions, right.id);
      forall o ensures o in SharedOrders(r, l) <==> Reverse(o) in SharedOrders(l, r) {
        if o in SharedOrders(r, l) {
          var c :| c in r && c in l && Compare(r[c], l[c]) == o;
          assert Compare(l[c], r[c]) == Reverse(o);
        }
        if Reverse(o) in SharedOrders(l, r) {
          var c :| c in l && c in r && Compare(l[c], r[c]) == Reverse(o);
          assert Compare(r[c], l[c]) == o;
        }
      }
      OnlyReverse(SharedOrders(l, r), SharedOrders(r, l));
    }
  }

  lemma SideOrderAntisymmetric(left: seq<Record>, right: seq<Record>, ingestions: seq<Ingestion>)
    ensures SideOrder(right, left, ingestions) == Reverse(SideOrder(left, right, ingestions))
  {
    forall o ensures o in PairOrders(right, left, ingestions) <==> Reverse(o) in PairOrders(left, right, ingestions) {
      if o in PairOrders(right, left, ingestions) {
        var i, j :| 0 <= i < |right| && 0 <= j < |left| && RecordOrder(right[i], left[j], ingestions) == o;
        RecordOrderAntisymmetric(right[i], left[j], ingestions);
      }
      if Reverse(o) in PairOrders(left, right, ingestions) {
        var i, j :| 0 <= i < |left| && 0 <= j < |right| && RecordOrder(left[i], right[j], ingestions) == Reverse(o);
        RecordOrderAntisymmetric(left[i], right[j], ingestions);
      }
    }
    OnlyReverse(PairOrders(left, right, ingestions), PairOrders(right, left, ingestions));
  }

  // ----- Coherence with currency

  /** Every ingestion under the record's identifier concerns the record's object. */
  ghost predicate Recorded(record: Record, ingestions: seq<Ingestion>) {
    forall item :: item in ingestions && item.evidence.id == record.id ==> SameObject(item.evidence, record)
  }

  lemma {:induction false} SequenceWitness(ingestions: seq<Ingestion>, id: nat, c: Text)
    requires c in Sequences(ingestions, id)
    ensures exists a :: a in ingestions && a.evidence.id == id && a.connectorId == c &&
              a.sequence == Sequences(ingestions, id)[c]
  {
    var init, last := ingestions[..|ingestions| - 1], ingestions[|ingestions| - 1];
    assert last in ingestions;
    if !(last.evidence.id == id && last.connectorId == c) {
      SequenceWitness(init, id, c);
      var a :| a in init && a.evidence.id == id && a.connectorId == c && a.sequence == Sequences(init, id)[c];
      assert a in ingestions;
    }
  }

  /** A record ordered before another version of its object is not current. */
  lemma EarlierIsNotCurrent(left: Record, right: Record, ingestions: seq<Ingestion>)
    requires SameObject(left, right) && Recorded(right, ingestions)
    requires RecordOrder(left, right, ingestions) == Earlier
    ensures !Current(left, ingestions)
  {
    var l, r := Sequences(ingestions, left.id), Sequences(ingestions, right.id);
    assert Earlier in SharedOrders(l, r);
    var c :| c in l && c in r && Compare(l[c], r[c]) == Earlier;
    SequenceWitness(ingestions, left.id, c);
    SequenceWitness(ingestions, right.id, c);
    var a :| a in ingestions && a.evidence.id == left.id && a.connectorId == c && a.sequence == l[c];
    var b :| b in ingestions && b.evidence.id == right.id && b.connectorId == c && b.sequence == r[c];
    assert Supersedes(b, left, a);
  }

  /** Two current records one of which is ordered after the other are of different objects
      and strictly ordered by observation time; for different objects that is all it takes. */
  lemma CurrentOrder(left: Record, right: Record, ingestions: seq<Ingestion>)
    requires Current(right, ingestions) && Recorded(left, ingestions)
    ensures RecordOrder(left, right, ingestions) == Later <==>
              !SameObject(left, right) && left.observedAt > right.observedAt
  {
    RecordOrderAntisymmetric(left, right, ingestions);
    if SameObject(left, right) && RecordOrder(left, right, ingestions) == Later {
      EarlierIsNotCurrent(right, left, ingestions);
    }
  }

  /** Without `Recorded` it fails: a log that files the newer identifier under another object. */
  lemma MisfiledVersionLooksCurrent()
    ensures var was := Record(1, "docs", "spec", 0, None, {}, None, {}, None);
            var now := was.(id := 2, observedAt := 1);
            var log := [Ingestion("docs-main", 1, None, was),
                        Ingestion("docs-main", 2, None, now.(objectId := "other"))];
            RecordOrder(was, now, log) == Earlier && Current(was, log) && !Recorded(now, log)
  {
    var was := Record(1, "docs", "spec", 0, None, {}, None, {}, None);
    var now := was.(id := 2, observedAt := 1);
    var first := Ingestion("docs-main", 1, None, was);
    var second := Ingestion("docs-main", 2, None, now.(objectId := "other"));
    var log := [first, second];
    assert log[..1] == [first] && [first][..0] == [];
    assert Sequences([], 1) == map[] && Sequences([], 2) == map[];
    assert Sequences([first], 1) == map["docs-main" := 1] && Sequences([first], 2) == map[];
    assert Sequences(log, 1) == map["docs-main" := 1] && Sequences(log, 2) == map["docs-main" := 2];
    assert SharedOrders(Sequences(log, 1), Sequences(log, 2)) == {Earlier} by {
      assert Compare(Sequences(log, 1)["docs-main"], Sequences(log, 2)["docs-main"]) == Earlier;
    }
    assert first in log && second in log && "other" != "spec";
    assert |"other"| == 5 && |"spec"| == 4;
  }
}
