/** The evidence ledger (storage/jsonl/evidence_store.py): immutable records and the
    connector associations appended with them. Lines are values, not bytes. */
module EvidenceStore {
  import opened Common
  import opened Collections
  import opened Chronology

  /** A raw legacy row, or a versioned ingestion envelope. */
  datatype Line = Legacy(raw: Record) | Associated(ingestion: Ingestion)

  /** The records in first-seen order, and the associations in file order. */
  datatype Index = Index(records: seq<Record>, ingestions: seq<Ingestion>)

  function RecordOf(line: Line): Record { if line.Legacy? then line.raw else line.ingestion.evidence }

  function LedgerOf(ingestions: seq<Ingestion>, connectorId: Text): seq<Ingestion> {
    Keep(ingestions, (i: Ingestion) => i.connectorId == connectorId)
  }

  /** The last version of the record's object in a connector's ledger. */
  function Predecessor(ledger: seq<Ingestion>, record: Record): Option<nat> {
    if ledger == [] then None
    else if SameObject(ledger[|ledger| - 1].evidence, record) then Some(ledger[|ledger| - 1].evidence.id)
    else Predecessor(ledger[..|ledger| - 1], record)
  }

  predicate Associates(ledger: seq<Ingestion>, id: nat) { exists i :: 0 <= i < |ledger| && ledger[i].evidence.id == id }

  /** One identifier never names two records. */
  predicate Conflicts(records: seq<Record>, record: Record) {
    exists i :: 0 <= i < |records| && records[i].id == record.id && records[i] != record
  }

  predicate Continues(index: Index, i: Ingestion) {
    var ledger := LedgerOf(index.ingestions, i.connectorId);
    && i.sequence == |ledger| + 1
    && !Associates(ledger, i.evidence.id)
    && i.predecessor == Predecessor(ledger, i.evidence)
  }

  function ParseLine(index: Index, line: Line): Option<Index> {
    var record := RecordOf(line);
    if (line.Associated? && !Continues(index, line.ingestion)) || Conflicts(index.records, record) then None
    else
      Some(Index(if record in index.records then index.records else index.records + [record],
                 if line.Associated? then index.ingestions + [line.ingestion] else index.ingestions))
  }

  function Parse(lines: seq<Line>): Option<Index> {
    if lines == [] then Some(Index([], []))
    else match Parse(lines[..|lines| - 1])
      case None => None
      case Some(index) => ParseLine(index, lines[|lines| - 1])
  }

  lemma ParseSnoc(lines: seq<Line>, line: Line)
    ensures Parse(lines + [line]) == match Parse(lines) case None => None case Some(index) => ParseLine(index, line)
  {
    assert (lines + [line])[..|lines|] == lines;
  }

  lemma {:induction false} ParsePrefix(lines: seq<Line>, n: nat)
    requires n <= |lines| && Parse(lines[..n]).None?
    ensures Parse(lines).None?
  {
    if n == |lines| {
      assert lines[..n] == lines;
    } else {
      assert lines[..|lines| - 1][..n] == lines[..n];
      ParsePrefix(lines[..|lines| - 1], n);
    }
  }

  /** `parse_evidence_lines`. */
  method ParseLines(lines: seq<Line>) returns (result: Option<Index>)
    ensures result == Parse(lines)
  {
    var records: seq<Record>, ingestions: seq<Ingestion> := [], [];
    var n := 0;
    while n < |lines|
      invariant 0 <= n <= |lines|
      invariant Parse(lines[..n]) == Some(Index(records, ingestions))
    {
      var line := lines[n];
      assert lines[..n + 1] == lines[..n] + [line];
      ParseSnoc(lines[..n], line);
      if Parse(lines[..n + 1]).None? { ParsePrefix(lines, n + 1); }
      if line.Associated? && !Continues(Index(records, ingestions), line.ingestion) {
        return None;
      }
      var record := RecordOf(line);
      if Conflicts(records, record) {
        return None;
      }
      if line.Associated? {
        ingestions := ingestions + [line.ingestion];
      }
      if record !in records {
        records := records + [record];
      }
      n := n + 1;
    }
    assert lines[..n] == lines;
    return Some(Index(records, ingestions));
  }

  // ----- What every readable file satisfies

  ghost predicate OneRecordPerId(records: seq<Record>) {
    forall a, b :: a in records && b in records && a.id == b.id ==> a == b
  }

  ghost predicate Consistent(index: Index) {
    && OneRecordPerId(index.records)
    && (forall i :: i in index.ingestions ==> i.evidence in index.records)
  }

  /** One identifier names one record, over the records and the associations together. */
  lemma {:induction false} ReadableIsConsistent(lines: seq<Line>)
    requires Parse(lines).Some?
    ensures Consistent(Parse(lines).value)
  {
    if lines != [] {
      ReadableIsConsistent(lines[..|lines| - 1]);
      StepIsConsistent(Parse(lines[..|lines| - 1]).value, lines[|lines| - 1]);
    }
  }

  lemma StepIsConsistent(index: Index, line: Line)
    requires Consistent(index) && ParseLine(index, line).Some?
    ensures Consistent(ParseLine(index, line).value)
  {
    var record, index' := RecordOf(line), ParseLine(index, line).value;
    forall r | r in index.records && r.id == record.id ensures r == record {
      var i :| 0 <= i < |index.records| && index.records[i] == r;
    }
    assert forall r :: r in index'.records <==> r in index.records || r == record;
  }

  // ----- Connector ledgers

  /** Entries are numbered from one and associate each record at most once. */
  ghost predicate Numbered(ledger: seq<Ingestion>) {
    && (forall k :: 0 <= k < |ledger| ==> ledger[k].sequence == k + 1)
    && (forall j, k :: 0 <= j < k < |ledger| ==> ledger[j].evidence.id != ledger[k].evidence.id)
  }

  /** In every readable file each connector's ledger is numbered. */
  lemma {:induction false} LedgersNumbered(lines: seq<Line>, connectorId: Text)
    requires Parse(lines).Some?
    ensures Numbered(LedgerOf(Parse(lines).value.ingestions, connectorId))
  {
    if lines != [] {
      var init, last := lines[..|lines| - 1], lines[|lines| - 1];
      LedgersNumbered(init, connectorId);
      if last.Associated? { LedgerGrows(Parse(init).value, last.ingestion, connectorId); }
    }
  }

  lemma LedgerGrows(index: Index, i: Ingestion, connectorId: Text)
    requires Numbered(LedgerOf(index.ingestions, connectorId)) && Continues(index, i)
    ensures Numbered(LedgerOf(index.ingestions + [i], connectorId))
  {
    LedgerSnoc(index.ingestions, i, connectorId);
  }

  lemma LedgerSnoc(ingestions: seq<Ingestion>, i: Ingestion, connectorId: Text)
    ensures LedgerOf(ingestions + [i], connectorId)
         == LedgerOf(ingestions, connectorId) + (if i.connectorId == connectorId then [i] else [])
  {
    assert (ingestions + [i])[..|ingestions|] == ingestions;
  }

  /** `Predecessor` is the last version of the object in the ledger. */
  lemma {:induction false} PredecessorIsLast(ledger: seq<Ingestion>, record: Record)
    ensures Predecessor(ledger, record).None? <==> forall k :: 0 <= k < |ledger| ==>
              !SameObject(ledger[k].evidence, record)
    ensures Predecessor(ledger, record).Some? ==> exists k: nat :: LastVersion(ledger, record, k)
    ensures forall k: nat :: LastVersion(ledger, record, k) ==>
              Predecessor(ledger, record) == Some(ledger[k].evidence.id)
  {
    if ledger != [] {
      var n := |ledger| - 1;
      PredecessorIsLast(ledger[..n], record);
      if SameObject(ledger[n].evidence, record) {
        assert LastVersion(ledger, record, n);
      } else {
        forall k: nat ensures LastVersion(ledger, record, k) <==> LastVersion(ledger[..n], record, k) {}
      }
    }
  }

  ghost predicate LastVersion(ledger: seq<Ingestion>, record: Record, k: nat) {
    && k < |ledger| && SameObject(ledger[k].evidence, record)
    && forall j :: k < j < |ledger| ==> !SameObject(ledger[j].evidence, record)
  }

  /** The record is the last version of its object in every ledger that associates it. */
  ghost predicate NewestEverywhere(record: Record, ingestions: seq<Ingestion>) {
    forall c :: Associates(LedgerOf(ingestions, c), record.id) ==>
      Predecessor(LedgerOf(ingestions, c), record) == Some(record.id)
  }

  lemma LedgerMembers(ingestions: seq<Ingestion>, connectorId: Text, i: Ingestion)
    ensures i in LedgerOf(ingestions, connectorId) <==> i in ingestions && i.connectorId == connectorId
  {
    KeepMembers(ingestions, (i: Ingestion) => i.connectorId == connectorId, i);
  }

  /** One ledger: nothing supersedes the association at k exactly when k is the last version. */
  lemma UnsupersededIsLast(ledger: seq<Ingestion>, record: Record, k: nat)
    requires Numbered(ledger) && k < |ledger| && SameObject(ledger[k].evidence, record)
    requires forall j :: 0 <= j < |ledger| ==> ledger[j].connectorId == ledger[k].connectorId
    ensures LastVersion(ledger, record, k) <==> forall i :: i in ledger ==> !Supersedes(i, record, ledger[k])
  {
    if LastVersion(ledger, record, k) {
      forall i | i in ledger ensures !Supersedes(i, record, ledger[k]) {
        var j :| 0 <= j < |ledger| && ledger[j] == i;
      }
    }
    forall j | k < j < |ledger| &&
        SameObject(ledger[j].evidence, record) ensures Supersedes(ledger[j], record, ledger[k]) {}
    assert forall j :: 0 <= j < |ledger| ==> ledger[j] in ledger;
  }

  /** In a numbered ledger the record's association is unsuperseded exactly when the record is
      the ledger's predecessor for its object. */
  lemma LedgerCurrent(ledger: seq<Ingestion>, record: Record, a: Ingestion)
    requires Numbered(ledger) && a in ledger && a.evidence == record
    requires forall j :: 0 <= j < |ledger| ==> ledger[j].connectorId == a.connectorId
    ensures (forall i :: i in ledger ==> !Supersedes(i, record, a)) <==> Predecessor(ledger, record) == Some(record.id)
  {
    var k: nat :| k < |ledger| && ledger[k] == a;
    UnsupersededIsLast(ledger, record, k);
    LastIsPredecessor(ledger, record, k);
  }

  lemma LastIsPredecessor(ledger: seq<Ingestion>, record: Record, k: nat)
    requires forall i, j :: 0 <= i < j < |ledger| ==> ledger[i].evidence.id != ledger[j].evidence.id
    requires k < |ledger| && ledger[k].evidence == record
    ensures LastVersion(ledger, record, k) <==> Predecessor(ledger, record) == Some(record.id)
  {
    PredecessorIsLast(ledger, record);
    if Predecessor(ledger, record) == Some(record.id) {
      var last: nat :| LastVersion(ledger, record, last);
      assert ledger[last].evidence.id == ledger[k].evidence.id;
      assert last == k;
    }
  }

  /** Over the store's whole log, in any order, a record is current exactly when some connector
      associates it and it is the newest version of its object for every connector that does. */
  lemma CurrentIsNewest(lines: seq<Line>, log: seq<Ingestion>, record: Record)
    requires Parse(lines).Some? && record in Parse(lines).value.records
    requires forall i :: i in log <==> i in Parse(lines).value.ingestions
    ensures Current(record, log) <==>
              && (exists c :: Associates(LedgerOf(Parse(lines).value.ingestions, c), record.id))
              && NewestEverywhere(record, Parse(lines).value.ingestions)
  {
    var all := Parse(lines).value.ingestions;
    forall a | a in all && a.evidence.id == record.id
      ensures Associates(LedgerOf(all, a.connectorId), record.id)
      ensures (forall i :: i in all ==> !Supersedes(i, record, a)) <==>
                Predecessor(LedgerOf(all, a.connectorId), record) == Some(record.id)
    {
      AssociationCurrent(lines, record, a);
    }
    forall c | Associates(LedgerOf(all, c), record.id)
      ensures exists a :: a in all && a.evidence.id == record.id && a.connectorId == c
    {
      var k :| 0 <= k < |LedgerOf(all, c)| && LedgerOf(all, c)[k].evidence.id == record.id;
      LedgerMembers(all, c, LedgerOf(all, c)[k]);
    }
  }

  lemma AssociationCurrent(lines: seq<Line>, record: Record, a: Ingestion)
    requires Parse(lines).Some? && record in Parse(lines).value.records
    requires a in Parse(lines).value.ingestions && a.evidence.id == record.id
    ensures var all := Parse(lines).value.ingestions; var ledger := LedgerOf(all, a.connectorId);
            && Associates(ledger, record.id)
            && ((forall i :: i in all ==> !Supersedes(i, record, a)) <==>
                Predecessor(ledger, record) == Some(record.id))
  {
    var all := Parse(lines).value.ingestions;
    var ledger := LedgerOf(all, a.connectorId);
    ReadableIsConsistent(lines);
    LedgersNumbered(lines, a.connectorId);
    forall i
      ensures i in ledger <==> i in all && i.connectorId == a.connectorId
    {
      LedgerMembers(all, a.connectorId, i);
    }
    assert forall j :: 0 <= j < |ledger| ==> ledger[j] in ledger;
    var k :| 0 <= k < |ledger| && ledger[k] == a;
    LedgerCurrent(ledger, record, a);
  }

  // ----- Which files are readable

  /** Line m associates, for the connector, another observation of the record's object. */
  predicate Observes(line: Line, connectorId: Text, record: Record) {
    && line.Associated? && line.ingestion.connectorId == connectorId
    && line.ingestion.evidence.connectorType == record.connectorType
    && line.ingestion.evidence.objectId == record.objectId
  }

  predicate AssociatedBy(line: Line, connectorId: Text) {
    line.Associated? && line.ingestion.connectorId == connectorId
  }

  /** Line m is the connector's last association before line n. */
  ghost predicate LastAssociation(lines: seq<Line>, connectorId: Text, n: int, m: int) {
    && 0 <= m < n <= |lines| && AssociatedBy(lines[m], connectorId)
    && forall k :: m < k < n ==> !AssociatedBy(lines[k], connectorId)
  }

  ghost predicate LastObservation(lines: seq<Line>, connectorId: Text, record: Record, n: int, m: int) {
    && 0 <= m < n <= |lines| && Observes(lines[m], connectorId, record)
    && forall k :: m < k < n ==> !Observes(lines[k], connectorId, record)
  }

  /** Numbered one after the connector's last association, or first; not associated before; its
      predecessor is the connector's last observation of the object. */
  ghost predicate Chains(lines: seq<Line>, n: int, i: Ingestion)
    requires 0 <= n <= |lines|
  {
    && (i.sequence == 1 <==> forall m :: 0 <= m < n ==> !AssociatedBy(lines[m], i.connectorId))
    && (forall m :: LastAssociation(lines, i.connectorId, n, m) ==> i.sequence == lines[m].ingestion.sequence + 1)
    && (forall m :: 0 <= m < n && AssociatedBy(lines[m], i.connectorId) ==>
        lines[m].ingestion.evidence.id != i.evidence.id)
    && (i.predecessor.None? <==> forall m :: 0 <= m < n ==> !Observes(lines[m], i.connectorId, i.evidence))
    && (forall m :: LastObservation(lines, i.connectorId, i.evidence, n, m) ==>
          i.predecessor == Some(lines[m].ingestion.evidence.id))
  }

  /** The line agrees with every earlier record of its identifier, and an association chains. */
  ghost predicate Agrees(lines: seq<Line>, n: int)
    requires 0 <= n < |lines|
  {
    && (forall m :: 0 <= m < n && RecordOf(lines[m]).id == RecordOf(lines[n]).id ==>
        RecordOf(lines[m]) == RecordOf(lines[n]))
    && (lines[n].Associated? ==> Chains(lines, n, lines[n].ingestion))
  }

  lemma {:induction false} RecordsAre(lines: seq<Line>, r: Record)
    requires Parse(lines).Some?
    ensures r in Parse(lines).value.records <==> exists m :: 0 <= m < |lines| && RecordOf(lines[m]) == r
  {
    if lines != [] {
      var n := |lines| - 1;
      RecordsAre(lines[..n], r);
      if m :| 0 <= m < n && RecordOf(lines[m]) == r { assert lines[..n][m] == lines[m]; }
      if m :| 0 <= m < n && RecordOf(lines[..n][m]) == r { assert lines[m] == lines[..n][m]; }
      assert RecordOf(lines[n]) == RecordOf(lines[|lines| - 1]);
    }
  }

  lemma {:induction false} AssociationsAre(lines: seq<Line>, i: Ingestion)
    requires Parse(lines).Some?
    ensures i in Parse(lines).value.ingestions <==> exists m :: 0 <= m < |lines| && lines[m] == Associated(i)
  {
    if lines != [] {
      var n := |lines| - 1;
      AssociationsAre(lines[..n], i);
      if m :| 0 <= m < n && lines[m] == Associated(i) { assert lines[..n][m] == lines[m]; }
      if m :| 0 <= m < n && lines[..n][m] == Associated(i) { assert lines[m] == lines[..n][m]; }
    }
  }

  /** The ledger ends with the connector's last association. */
  ghost predicate Ends(lines: seq<Line>, connectorId: Text, ledger: seq<Ingestion>) {
    && (ledger == [] <==> forall m :: 0 <= m < |lines| ==> !AssociatedBy(lines[m], connectorId))
    && (forall m :: LastAssociation(lines, connectorId, |lines|, m) ==>
          ledger != [] && ledger[|ledger| - 1] == lines[m].ingestion)
  }

  ghost predicate Precedes(lines: seq<Line>, connectorId: Text, record: Record, p: Option<nat>) {
    && (p.None? <==> forall m :: 0 <= m < |lines| ==> !Observes(lines[m], connectorId, record))
    && (forall m :: LastObservation(lines, connectorId, record, |lines|, m) ==>
        p == Some(lines[m].ingestion.evidence.id))
  }

  lemma EndsOwn(lines: seq<Line>, line: Line, connectorId: Text, ledger: seq<Ingestion>)
    requires AssociatedBy(line, connectorId)
    ensures Ends(lines + [line], connectorId, ledger + [line.ingestion])
  {
    var all := lines + [line];
    assert all[|lines|] == line;
    forall m | LastAssociation(all, connectorId, |all|, m) ensures m == |lines| {}
  }

  lemma EndsOther(lines: seq<Line>, line: Line, connectorId: Text, ledger: seq<Ingestion>)
    requires Ends(lines, connectorId, ledger) && !AssociatedBy(line, connectorId)
    ensures Ends(lines + [line], connectorId, ledger)
  {
    var all := lines + [line];
    var n, k := |lines|, |all|;
    assert all[n] == line;
    forall m | 0 <= m < n ensures all[m] == lines[m] {}
    forall m: int | LastAssociation(all, connectorId, k, m) ensures LastAssociation(lines, connectorId, n, m) {
      assert forall j :: m < j < n ==> all[j] == lines[j];
    }
  }

  lemma PrecedesSnoc(lines: seq<Line>, line: Line, connectorId: Text, record: Record, p: Option<nat>)
    requires Precedes(lines, connectorId, record, p)
    ensures Precedes(lines + [line], connectorId, record,
                     if Observes(line, connectorId, record) then Some(line.ingestion.evidence.id) else p)
  {
    var all := lines + [line];
    var n, k := |lines|, |all|;
    assert all[n] == line;
    forall m | 0 <= m < n ensures all[m] == lines[m] {}
    if Observes(line, connectorId, record) {
      forall m | LastObservation(all, connectorId, record, k, m) ensures m == n {}
    } else {
      forall m: int | LastObservation(all, connectorId, record, k, m)
        ensures LastObservation(lines, connectorId, record, n, m)
      {
        assert forall j :: m < j < n ==> all[j] == lines[j];
      }
    }
  }

  /** What the last line adds to a connector's ledger. */
  lemma LedgerStep(lines: seq<Line>, connectorId: Text)
    requires lines != [] && Parse(lines).Some?
    ensures var init, last := lines[..|lines| - 1], lines[|lines| - 1];
            && Parse(init).Some?
            && LedgerOf(Parse(lines).value.ingestions, connectorId)
               == LedgerOf(Parse(init).value.ingestions, connectorId)
                  + (if AssociatedBy(last, connectorId) then [last.ingestion] else [])
  {
    var init, last := lines[..|lines| - 1], lines[|lines| - 1];
    if last.Associated? { LedgerSnoc(Parse(init).value.ingestions, last.ingestion, connectorId); }
  }

  lemma {:induction false} LedgerEnds(lines: seq<Line>, connectorId: Text)
    requires Parse(lines).Some?
    ensures Ends(lines, connectorId, LedgerOf(Parse(lines).value.ingestions, connectorId))
  {
    if lines != [] {
      var init, last := lines[..|lines| - 1], lines[|lines| - 1];
      LedgerStep(lines, connectorId);
      LedgerEnds(init, connectorId);
      EndsSnoc(init, last, connectorId, LedgerOf(Parse(init).value.ingestions, connectorId));
      assert lines == init + [last];
    }
  }

  lemma EndsSnoc(lines: seq<Line>, line: Line, connectorId: Text, ledger: seq<Ingestion>)
    requires Ends(lines, connectorId, ledger)
    ensures Ends(lines + [line], connectorId,
                 ledger + (if AssociatedBy(line, connectorId) then [line.ingestion] else []))
  {
    if AssociatedBy(line, connectorId) {
      EndsOwn(lines, line, connectorId, ledger);
    } else {
      EndsOther(lines, line, connectorId, ledger);
      assert ledger + [] == ledger;
    }
  }

  lemma {:induction false} PredecessorIs(lines: seq<Line>, connectorId: Text, record: Record)
    requires Parse(lines).Some?
    ensures Precedes(lines, connectorId, record,
                     Predecessor(LedgerOf(Parse(lines).value.ingestions, connectorId), record))
  {
    if lines != [] {
      var init, last := lines[..|lines| - 1], lines[|lines| - 1];
      assert lines == init + [last];
      PredecessorIs(init, connectorId, record);
      var all := Parse(init).value.ingestions;
      PrecedesSnoc(init, last, connectorId, record, Predecessor(LedgerOf(all, connectorId), record));
      if last.Associated? { PredecessorSnoc(all, last.ingestion, connectorId, record); }
    }
  }

  lemma PredecessorSnoc(ingestions: seq<Ingestion>, i: Ingestion, connectorId: Text, record: Record)
    ensures Predecessor(LedgerOf(ingestions + [i], connectorId), record) ==
            if Observes(Associated(i), connectorId, record) then Some(i.evidence.id)
            else Predecessor(LedgerOf(ingestions, connectorId), record)
  {
    var ledger := LedgerOf(ingestions, connectorId);
    LedgerSnoc(ingestions, i, connectorId);
    if i.connectorId == connectorId {
      assert LedgerOf(ingestions + [i], connectorId) == ledger + [i];
      assert (ledger + [i])[..|ledger|] == ledger;
    } else {
      assert LedgerOf(ingestions + [i], connectorId) == ledger;
    }
  }

  lemma AssociatesExactly(lines: seq<Line>, connectorId: Text, id: nat)
    requires Parse(lines).Some?
    ensures Associates(LedgerOf(Parse(lines).value.ingestions, connectorId), id) <==>
              exists m :: 0 <= m < |lines| && AssociatedBy(lines[m], connectorId) &&
                  lines[m].ingestion.evidence.id == id
  {
    var all := Parse(lines).value.ingestions;
    var ledger := LedgerOf(all, connectorId);
    if k :| 0 <= k < |ledger| && ledger[k].evidence.id == id {
      LedgerMembers(all, connectorId, ledger[k]);
      AssociationsAre(lines, ledger[k]);
    }
    if m :| 0 <= m < |lines| && AssociatedBy(lines[m], connectorId) && lines[m].ingestion.evidence.id == id {
      AssociationsAre(lines, lines[m].ingestion);
      LedgerMembers(all, connectorId, lines[m].ingestion);
    }
  }

  lemma SequenceExactly(lines: seq<Line>, i: Ingestion)
    requires Parse(lines).Some?
    ensures i.sequence == |LedgerOf(Parse(lines).value.ingestions, i.connectorId)| + 1 <==>
              && (i.sequence == 1 <==> forall m :: 0 <= m < |lines| ==> !AssociatedBy(lines[m], i.connectorId))
              && (forall m :: LastAssociation(lines, i.connectorId, |lines|, m) ==>
                  i.sequence == lines[m].ingestion.sequence + 1)
  {
    LedgerEnds(lines, i.connectorId);
    LedgersNumbered(lines, i.connectorId);
    if m :| 0 <= m < |lines| && AssociatedBy(lines[m], i.connectorId) {
      var k := LastAssociated(lines, i.connectorId, |lines|, m);
    }
  }

  lemma {:induction false} LastAssociated(lines: seq<Line>, connectorId: Text, n: nat, m: int) returns (k: int)
    requires 0 <= m < n <= |lines| && AssociatedBy(lines[m], connectorId)
    ensures LastAssociation(lines, connectorId, n, k)
    decreases n
  {
    if AssociatedBy(lines[n - 1], connectorId) {
      k := n - 1;
    } else {
      k := LastAssociated(lines, connectorId, n - 1, m);
    }
  }

  lemma {:induction false} LastObserved(lines: seq<Line>, connectorId: Text, record: Record, n: nat, m: int)
    returns (k: int)
    requires 0 <= m < n <= |lines| && Observes(lines[m], connectorId, record)
    ensures LastObservation(lines, connectorId, record, n, k)
    decreases n
  {
    if Observes(lines[n - 1], connectorId, record) {
      k := n - 1;
    } else {
      k := LastObserved(lines, connectorId, record, n - 1, m);
    }
  }

  lemma ChainsExactly(lines: seq<Line>, i: Ingestion)
    requires Parse(lines).Some?
    ensures Continues(Parse(lines).value, i) <==> Chains(lines, |lines|, i)
  {
    SequenceExactly(lines, i);
    AssociatesExactly(lines, i.connectorId, i.evidence.id);
    PredecessorIs(lines, i.connectorId, i.evidence);
    if m :| 0 <= m < |lines| && Observes(lines[m], i.connectorId, i.evidence) {
      var k := LastObserved(lines, i.connectorId, i.evidence, |lines|, m);
    }
  }

  lemma ConflictsExactly(lines: seq<Line>, r: Record)
    requires Parse(lines).Some?
    ensures Conflicts(Parse(lines).value.records, r) <==>
              exists m :: 0 <= m < |lines| && RecordOf(lines[m]).id == r.id && RecordOf(lines[m]) != r
  {
    var records := Parse(lines).value.records;
    if k :| 0 <= k < |records| && records[k].id == r.id && records[k] != r {
      RecordsAre(lines, records[k]);
    }
    if m :| 0 <= m < |lines| && RecordOf(lines[m]).id == r.id && RecordOf(lines[m]) != r {
      RecordsAre(lines, RecordOf(lines[m]));
      var k :| 0 <= k < |records| && records[k] == RecordOf(lines[m]);
    }
  }

  lemma ChainsPrefix(lines: seq<Line>, n: int, i: Ingestion)
    requires 0 <= n <= |lines|
    ensures Chains(lines, n, i) <==> Chains(lines[..n], n, i)
  {
    forall m | 0 <= m < n ensures lines[..n][m] == lines[m] {}
    forall m: int
      ensures LastAssociation(lines, i.connectorId, n, m) <==> LastAssociation(lines[..n], i.connectorId, n, m) {}
    forall m: int
      ensures LastObservation(lines, i.connectorId, i.evidence, n, m) <==>
              LastObservation(lines[..n], i.connectorId, i.evidence, n, m) {}
  }

  lemma AgreesPrefix(lines: seq<Line>, k: nat, n: int)
    requires 0 <= n < k <= |lines|
    ensures Agrees(lines, n) <==> Agrees(lines[..k], n)
  {
    forall m | 0 <= m < k ensures lines[..k][m] == lines[m] {}
    if lines[n].Associated? {
      assert lines[..k][..n] == lines[..n];
      ChainsPrefix(lines, n, lines[n].ingestion);
      ChainsPrefix(lines[..k], n, lines[n].ingestion);
    }
  }

  lemma LineExactly(lines: seq<Line>)
    requires lines != [] && Parse(lines[..|lines| - 1]).Some?
    ensures Parse(lines).Some? <==> Agrees(lines, |lines| - 1)
  {
    var n := |lines| - 1;
    forall m | 0 <= m < n ensures lines[..n][m] == lines[m] {}
    ConflictsExactly(lines[..n], RecordOf(lines[n]));
    if lines[n].Associated? {
      ChainsPrefix(lines, n, lines[n].ingestion);
      ChainsExactly(lines[..n], lines[n].ingestion);
    }
  }

  /** A file is readable exactly when every line agrees with the lines before it. */
  lemma {:induction false} ReadableExactly(lines: seq<Line>)
    ensures Parse(lines).Some? <==> forall n :: 0 <= n < |lines| ==> Agrees(lines, n)
  {
    if lines != [] {
      var k := |lines| - 1;
      ReadableExactly(lines[..k]);
      forall n | 0 <= n < k ensures Agrees(lines, n) <==> Agrees(lines[..k], n) { AgreesPrefix(lines, k, n); }
      if Parse(lines[..k]).Some? { LineExactly(lines); }
    }
  }

  // ----- The store

  datatype Outcome = Added | Present | Conflicting

  /** The association `associate` would append. */
  function NextIngestion(index: Index, connectorId: Text, record: Record): Ingestion {
    var ledger := LedgerOf(index.ingestions, connectorId);
    Ingestion(connectorId, |ledger| + 1, Predecessor(ledger, record), record)
  }

  class JsonlEvidenceStore {
    var lines: seq<Line>

    ghost predicate Valid() reads this { Parse(lines).Some? }

    constructor ()
      ensures Valid() && lines == []
    { lines := []; }

    /** `put` of an unassociated record. */
    method Put(record: Record) returns (outcome: Outcome)
      requires Valid()
      modifies this
      ensures Valid()
      ensures outcome.Conflicting? <==> Conflicts(Parse(old(lines)).value.records, record)
      ensures outcome.Added? <==> forall r :: r in Parse(old(lines)).value.records ==> r.id != record.id
      ensures lines == if outcome.Added? then old(lines) + [Legacy(record)] else old(lines)
      ensures !outcome.Conflicting? ==>
                var before, after := Parse(old(lines)).value, Parse(lines).value;
                && (forall r :: r in after.records <==> r in before.records || r == record)
                && after.ingestions == before.ingestions
    {
      var index := ParseLines(lines);
      var records := index.value.records;
      if Conflicts(records, record) {
        return Conflicting;
      }
      if record in records {
        return Present;
      }
      ParseSnoc(lines, Legacy(record));
      lines := lines + [Legacy(record)];
      return Added;
    }

    /** `associate`: the connector's ledger grows by one entry naming its predecessor, unless
        the connector already associates the record. */
    method Associate(connectorId: Text, record: Record) returns (outcome: Outcome, evidenceAdded: bool)
      requires Valid()
      modifies this
      ensures Valid()
      ensures outcome.Conflicting? <==> Conflicts(Parse(old(lines)).value.records, record)
      ensures outcome.Present? <==>
                && !outcome.Conflicting?
                && Associates(LedgerOf(Parse(old(lines)).value.ingestions, connectorId), record.id)
      ensures evidenceAdded <==> outcome.Added? && record !in Parse(old(lines)).value.records
      ensures !outcome.Added? ==> lines == old(lines)
      ensures outcome.Added? ==>
                var before, after := Parse(old(lines)).value, Parse(lines).value;
                && after.ingestions == before.ingestions + [NextIngestion(before, connectorId, record)]
                && (forall r :: r in after.records <==> r in before.records || r == record)
    {
      var index := ParseLines(lines);
      var records := index.value.records;
      if Conflicts(records, record) {
        return Conflicting, false;
      }
      var ledger := LedgerOf(index.value.ingestions, connectorId);
      if Associates(ledger, record.id) {
        return Present, false;
      }
      var ingestion := Ingestion(connectorId, |ledger| + 1, Predecessor(ledger, record), record);
      ParseSnoc(lines, Associated(ingestion));
      lines := lines + [Associated(ingestion)];
      return Added, record !in records;
    }
  }
}
