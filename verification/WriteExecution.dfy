/** The external write protocol (mutations/executor.py) as a state machine: any number
    of executor calls interleave, store and provider operations fail in every way, and
    a call can be cut off before any step. Claims and receipts follow
    storage/jsonl/receipt_store.py: a claim is appended under a lock when the key has
    none, and only completed receipts are read back. */
module WriteExecution {
  import opened Common
  import opened WriteModels

  type Pid = nat
  type Key = (PlanId, ApprovalId)

  datatype RemoteObject = RemoteObject(
    connectorId: Text, profileId: Text, profileVersion: Text, objectType: Text, id: Text,
    version: Text, content: Content)

  datatype Receipt =
    | Succeeded(executedBy: Text, resultingVersion: Text)
    | Rejected(executedBy: Text)
    | Failed(executedBy: Text)

  datatype Result = Returned(receipt: Receipt) | Unavailable | Aborted

  datatype Phase =
    | Start                       // inputs not validated yet
    | Validated                   // about to look for a receipt
    | Unclaimed                   // no receipt: window check, then claim
    | Contended                   // lost the claim: look again
    | Claimed                     // won the claim: fetch the target
    | Matched                     // target equals the preview: call the provider
    | Called(version: Text)       // provider accepted: fetch again
    | Completing(failure: Receipt)
    | Committing(success: Receipt)
    | Finished(result: Result)

  datatype Process = Process(request: Request, phase: Phase)

  /** What went over the provider boundary. */
  datatype Entry =
    | Looked(pid: Pid, seenBefore: RemoteObject)
    | Sent(pid: Pid)
    | Answered(pid: Pid, version: Text)
    | LookedAgain(pid: Pid, seenAfter: RemoteObject)

  datatype System = System(
    procs: map<Pid, Process>, claims: map<Key, Pid>, receipts: map<Key, Receipt>, log: seq<Entry>)

  /** What the environment answers to the next step of a call. A store failure may
      still have reached the disk. */
  datatype Response =
    | Ok | StoreFails(durable: bool)
    | Fetched(remote: RemoteObject) | FetchDenied | FetchFails
    | Wrote(newVersion: Text) | WriteDenied | WriteFails | WriteCutOff

  datatype Event = Spawn(pid: Pid, request: Request) | Crash(pid: Pid) | Advance(pid: Pid, response: Response)

  const INITIAL := System(map[], map[], map[], [])

  function KeyOf(r: Request): Key { (PlanDigest(r.plan), ApprovalDigest(r.approval)) }

  predicate Identifies(p: WritePlan, o: RemoteObject) {
    && o.connectorId == p.connectorId && o.profileId == p.profileId && o.profileVersion == p.profileVersion
    && o.objectType == p.objectType && o.id == p.targetId
  }

  predicate MatchesPreview(p: WritePlan, o: RemoteObject) {
    Identifies(p, o) && o.version == p.beforeVersion && o.content == p.before
  }

  predicate MatchesResult(p: WritePlan, version: Text, o: RemoteObject) {
    Identifies(p, o) && o.version == version && o.content == p.after
  }

  function SetPhase(s: System, pid: Pid, phase: Phase): System requires pid in s.procs {
    s.(procs := s.procs[pid := s.procs[pid].(phase := phase)])
  }

  function Log(s: System, e: Entry): System { s.(log := s.log + [e]) }

  function Record(s: System, key: Key, r: Receipt): System { s.(receipts := s.receipts[key := r]) }

  /** `_get_receipt_safely` and what follows it: `missing` is the phase when there is none. */
  function ReadReceipt(s: System, pid: Pid, response: Response, missing: Phase): System requires pid in s.procs {
    var key := KeyOf(s.procs[pid].request);
    if response != Ok then SetPhase(s, pid, Finished(Unavailable))
    else if key in s.receipts then SetPhase(s, pid, Finished(Returned(s.receipts[key])))
    else SetPhase(s, pid, missing)
  }

  function Claim(s: System, pid: Pid, response: Response): System requires pid in s.procs {
    var r := s.procs[pid].request;
    var key := KeyOf(r);
    if !InWindow(r) then SetPhase(s, pid, Finished(Unavailable))
    else if key in s.claims then
      SetPhase(s, pid, if response == Ok then Contended else Finished(Unavailable))
    else if response == Ok then SetPhase(s.(claims := s.claims[key := pid]), pid, Claimed)
    else if response == StoreFails(true) then SetPhase(s.(claims := s.claims[key := pid]), pid, Finished(Unavailable))
    else SetPhase(s, pid, Finished(Unavailable))
  }

  function FetchTarget(s: System, pid: Pid, response: Response): System requires pid in s.procs {
    var r := s.procs[pid].request;
    match response
    case Fetched(o) =>
      SetPhase(Log(s, Looked(pid, o)), pid,
               if MatchesPreview(r.plan, o) then Matched else Completing(Rejected(r.actor)))
    case _ => SetPhase(s, pid, Completing(Failed(r.actor)))
  }

  /** The call leaves the process whatever the answer is. */
  function CallProvider(s: System, pid: Pid, response: Response): System requires pid in s.procs {
    var r := s.procs[pid].request;
    var s' := Log(s, Sent(pid));
    match response
    case Wrote(v) =>
      if v == r.plan.beforeVersion then SetPhase(s', pid, Completing(Failed(r.actor)))
      else SetPhase(Log(s', Answered(pid, v)), pid, Called(v))
    case WriteCutOff => SetPhase(s', pid, Finished(Aborted))
    case _ => SetPhase(s', pid, Completing(Failed(r.actor)))
  }

  function Verify(s: System, pid: Pid, version: Text, response: Response): System requires pid in s.procs {
    var r := s.procs[pid].request;
    match response
    case Fetched(o) =>
      SetPhase(Log(s, LookedAgain(pid, o)), pid,
               if MatchesResult(r.plan, version, o) then Committing(Succeeded(r.actor, version))
               else Finished(Unavailable))
    case _ => SetPhase(s, pid, Finished(Unavailable))
  }

  /** `complete` and the success transaction: at most one receipt per key, and a failure
      reported to the caller may have been written. */
  function WriteReceipt(s: System, pid: Pid, receipt: Receipt, response: Response): System requires pid in s.procs {
    var key := KeyOf(s.procs[pid].request);
    if key in s.receipts then SetPhase(s, pid, Finished(Unavailable))
    else if response == Ok then SetPhase(Record(s, key, receipt), pid, Finished(Returned(receipt)))
    else if response == StoreFails(true) then SetPhase(Record(s, key, receipt), pid, Finished(Unavailable))
    else SetPhase(s, pid, Finished(Unavailable))
  }

  function Progress(s: System, pid: Pid, response: Response): System requires pid in s.procs {
    match s.procs[pid].phase
    case Start => SetPhase(s, pid, if ValidatedInputs(s.procs[pid].request) then Validated else Finished(Unavailable))
    case Validated => ReadReceipt(s, pid, response, Unclaimed)
    case Unclaimed => Claim(s, pid, response)
    case Contended => ReadReceipt(s, pid, response, Finished(Unavailable))
    case Claimed => FetchTarget(s, pid, response)
    case Matched => CallProvider(s, pid, response)
    case Called(version) => Verify(s, pid, version, response)
    case Completing(receipt) => WriteReceipt(s, pid, receipt, response)
    case Committing(receipt) => WriteReceipt(s, pid, receipt, response)
    case Finished(_) => s
  }

  function Next(s: System, e: Event): System {
    match e
    case Spawn(pid, request) => if pid in s.procs then s else s.(procs := s.procs[pid := Process(request, Start)])
    case Crash(pid) =>
      if pid in s.procs && !s.procs[pid].phase.Finished? then SetPhase(s, pid, Finished(Aborted)) else s
    case Advance(pid, response) => if pid in s.procs then Progress(s, pid, response) else s
  }

  function RunFrom(s: System, events: seq<Event>): System {
    if events == [] then s else Next(RunFrom(s, events[..|events| - 1]), events[|events| - 1])
  }

  // ----- The invariant

  /** Phases in which the call holds the claim. */
  predicate Holds(phase: Phase) {
    phase.Claimed? || phase.Matched? || phase.Called? || phase.Completing? || phase.Committing?
  }

  ghost predicate ClaimsInv(s: System) {
    && (forall key :: key in s.claims ==>
          && s.claims[key] in s.procs
          && KeyOf(s.procs[s.claims[key]].request) == key
          && (Holds(s.procs[s.claims[key]].phase) || s.procs[s.claims[key]].phase.Finished?))
    && (forall pid :: pid in s.procs && Holds(s.procs[pid].phase) ==> Owns(s, pid))
  }

  ghost predicate Owns(s: System, pid: Pid) {
    pid in s.procs && KeyOf(s.procs[pid].request) in s.claims && s.claims[KeyOf(s.procs[pid].request)] == pid
  }

  ghost predicate RequestsInv(s: System) {
    forall pid :: pid in s.procs ==>
      && (Holds(s.procs[pid].phase) ==> Authorized(s.procs[pid].request))
      && (s.procs[pid].phase.Validated? || s.procs[pid].phase.Unclaimed? || s.procs[pid].phase.Contended? ==>
            ValidatedInputs(s.procs[pid].request))
  }

  /** Whoever called the provider owns the key, was authorized, and is past the call. */
  ghost predicate SentInv(s: System) {
    && (forall i :: 0 <= i < |s.log| && s.log[i].Sent? ==> Spent(s, s.log[i].pid))
    && (forall i, j :: 0 <= i < j < |s.log| && s.log[i].Sent? && s.log[j].Sent? ==> s.log[i].pid != s.log[j].pid)
  }

  ghost predicate Spent(s: System, pid: Pid) {
    && Owns(s, pid)
    && Authorized(s.procs[pid].request)
    && !s.procs[pid].phase.Claimed? && !s.procs[pid].phase.Matched?
  }

  // ----- What one step can do

  /** Every change a step of call `pid` can make, phase by phase. */
  ghost predicate Stepped(s: System, s': System, pid: Pid) {
    && pid in s.procs && pid in s'.procs
    && s'.procs == s.procs[pid := s.procs[pid].(phase := s'.procs[pid].phase)]
    && ClaimStepped(s, s', pid)
    && LogStepped(s, s', pid)
    && ReceiptStepped(s, s', pid)
  }

  ghost predicate ClaimStepped(s: System, s': System, pid: Pid) requires pid in s.procs && pid in s'.procs {
    var r, was, now := s.procs[pid].request, s.procs[pid].phase, s'.procs[pid].phase;
    && (Holds(was) ==> Holds(now) || now.Finished?)
    && (was.Finished? ==> now == was)
    && (s'.claims == s.claims ||
        (&& was.Unclaimed? && KeyOf(r) !in s.claims && InWindow(r) && (now.Claimed? || now.Finished?)
         && s'.claims == s.claims[KeyOf(r) := pid]))
    && (Holds(now) && !Holds(was) ==> now.Claimed? && was.Unclaimed? && InWindow(r) && s'.claims != s.claims)
    && (now.Validated? || now.Unclaimed? || now.Contended? ==>
          ValidatedInputs(r) || was.Validated? || was.Unclaimed? || was.Contended?)
  }

  ghost predicate LogStepped(s: System, s': System, pid: Pid) requires pid in s.procs && pid in s'.procs {
    var r, was, now := s.procs[pid].request, s.procs[pid].phase, s'.procs[pid].phase;
    && s.log <= s'.log
    && (forall i :: |s.log| <= i < |s'.log| && s'.log[i].Sent? ==>
        i == |s.log| && s'.log[i] == Sent(pid) && was.Matched?)
    && (now.Claimed? ==> !was.Matched?)
    && (was.Matched? ==> !now.Matched?)
    && (was.Called? || was.Completing? || was.Committing? ==> !now.Claimed? && !now.Matched?)
    && (now.Matched? ==>
          && was.Claimed? && |s'.log| == |s.log| + 1 && s'.log[|s.log|].Looked?
          && s'.log[|s.log|].pid == pid && MatchesPreview(r.plan, s'.log[|s.log|].seenBefore))
    && (now.Called? ==>
          && was.Matched? && now.version != r.plan.beforeVersion
          && |s'.log| == |s.log| + 2 && s'.log[|s.log|] == Sent(pid)
          && s'.log[|s.log| + 1] == Answered(pid, now.version))
    && (now.Committing? ==>
          && was.Called? && now.success == Succeeded(r.actor, was.version)
          && |s'.log| == |s.log| + 1 && s'.log[|s.log|].LookedAgain? && s'.log[|s.log|].pid == pid
          && MatchesResult(r.plan, was.version, s'.log[|s.log|].seenAfter))
    && (now.Completing? ==> !now.failure.Succeeded?)
  }

  ghost predicate ReceiptStepped(s: System, s': System, pid: Pid) requires pid in s.procs && pid in s'.procs {
    var r, was, now := s.procs[pid].request, s.procs[pid].phase, s'.procs[pid].phase;
    && (s'.receipts == s.receipts ||
        (&& KeyOf(r) !in s.receipts
         && ((was.Completing? && s'.receipts == s.receipts[KeyOf(r) := was.failure])
             || (was.Committing? && s'.receipts == s.receipts[KeyOf(r) := was.success]))))
    && (now.Finished? && now.result.Returned? && !was.Finished? ==>
          KeyOf(r) in s'.receipts && s'.receipts[KeyOf(r)] == now.result.receipt)
  }

  lemma ReadProgress(s: System, pid: Pid, response: Response)
    requires pid in s.procs
    requires var was := s.procs[pid].phase; was.Start? || was.Validated? || was.Contended?
    ensures Stepped(s, Progress(s, pid, response), pid)
  {}

  lemma ClaimProgress(s: System, pid: Pid, response: Response)
    requires pid in s.procs && s.procs[pid].phase.Unclaimed?
    ensures Stepped(s, Progress(s, pid, response), pid)
  {}

  lemma EarlyProgress(s: System, pid: Pid, response: Response)
    requires pid in s.procs && !Holds(s.procs[pid].phase)
    ensures Stepped(s, Progress(s, pid, response), pid)
  {
    if s.procs[pid].phase.Unclaimed? {
      ClaimProgress(s, pid, response);
    } else if s.procs[pid].phase.Finished? {
      assert s.procs[pid := s.procs[pid]] == s.procs;
    } else {
      ReadProgress(s, pid, response);
    }
  }

  lemma FetchProgress(s: System, pid: Pid, response: Response)
    requires pid in s.procs && (s.procs[pid].phase.Claimed? || s.procs[pid].phase.Called?)
    ensures Stepped(s, Progress(s, pid, response), pid)
  {}

  lemma CallProgress(s: System, pid: Pid, response: Response)
    requires pid in s.procs && s.procs[pid].phase.Matched?
    ensures Stepped(s, Progress(s, pid, response), pid)
  {}

  lemma StoreProgress(s: System, pid: Pid, response: Response)
    requires pid in s.procs
    requires var was := s.procs[pid].phase; was.Completing? || was.Committing?
    ensures Stepped(s, Progress(s, pid, response), pid)
  {}

  lemma LateProgress(s: System, pid: Pid, response: Response)
    requires pid in s.procs && Holds(s.procs[pid].phase)
    ensures Stepped(s, Progress(s, pid, response), pid)
  {
    if s.procs[pid].phase.Completing? || s.procs[pid].phase.Committing? {
      StoreProgress(s, pid, response);
    } else if s.procs[pid].phase.Matched? {
      CallProgress(s, pid, response);
    } else {
      FetchProgress(s, pid, response);
    }
  }

  lemma NextStepped(s: System, e: Event)
    ensures Next(s, e) == s || Stepped(s, Next(s, e), e.pid) ||
            (e.Spawn? && e.pid !in s.procs && Next(s, e) == Spawned(s, e.pid, e.request))
  {
    if e.Advance? && e.pid in s.procs {
      if Holds(s.procs[e.pid].phase) {
        LateProgress(s, e.pid, e.response);
      } else {
        EarlyProgress(s, e.pid, e.response);
      }
    }
  }

  function Spawned(s: System, pid: Pid, r: Request): System { s.(procs := s.procs[pid := Process(r, Start)]) }

  lemma SpawnKeepsProven(s: System, pid: Pid, r: Request, key: Key, v: Text)
    requires pid !in s.procs && Proven(s, key, v)
    ensures Proven(Spawned(s, pid, r), key, v)
  {}

  lemma SpawnKeepsClaims(s: System, pid: Pid, r: Request)
    requires ClaimsInv(s) && RequestsInv(s) && SentInv(s) && pid !in s.procs
    ensures ClaimsInv(Spawned(s, pid, r)) && RequestsInv(Spawned(s, pid, r)) && SentInv(Spawned(s, pid, r))
  {}

  lemma SpawnKeeps(s: System, pid: Pid, r: Request)
    requires Inv(s) && pid !in s.procs
    ensures Inv(Spawned(s, pid, r))
  {
    SpawnKeepsClaims(s, pid, r);
    forall key | key in s.receipts && s.receipts[key].Succeeded?
      ensures Proven(Spawned(s, pid, r), key, s.receipts[key].resultingVersion)
    {
      SpawnKeepsProven(s, pid, r, key, s.receipts[key].resultingVersion);
    }
  }

  lemma ClaimsStep(s: System, s': System, pid: Pid)
    requires ClaimsInv(s) && Stepped(s, s', pid)
    ensures ClaimsInv(s')
  {
    forall q | q in s'.procs && Holds(s'.procs[q].phase) ensures Owns(s', q) {
      if Holds(s.procs[q].phase) { assert Owns(s, q); }
    }
  }

  lemma RequestsStep(s: System, s': System, pid: Pid)
    requires RequestsInv(s) && Stepped(s, s', pid)
    ensures RequestsInv(s')
  {}

  lemma SpentStays(s: System, s': System, pid: Pid, q: Pid)
    requires ClaimsInv(s) && Stepped(s, s', pid) && Spent(s, q)
    ensures Spent(s', q)
  {}

  lemma SentStep(s: System, s': System, pid: Pid)
    requires ClaimsInv(s) && RequestsInv(s) && SentInv(s) && Stepped(s, s', pid)
    ensures SentInv(s')
  {
    forall i | 0 <= i < |s'.log| && s'.log[i].Sent? ensures Spent(s', s'.log[i].pid) {
      if i < |s.log| {
        assert s'.log[i] == s.log[i];
        SpentStays(s, s', pid, s.log[i].pid);
      } else {
        assert Owns(s, pid);
      }
    }
    forall i, j | 0 <= i < j < |s'.log| && s'.log[i].Sent? && s'.log[j].Sent?
      ensures s'.log[i].pid != s'.log[j].pid
    {
      assert s'.log[i] == s.log[i];
      assert Spent(s, s.log[i].pid);
      if j < |s.log| { assert s'.log[j] == s.log[j]; }
    }
  }

  // ----- What a success receipt proves

  /** The target was fetched and equalled the preview. */
  ghost predicate Saw(log: seq<Entry>, pid: Pid, p: WritePlan) {
    exists i :: 0 <= i < |log| && log[i].Looked? && log[i].pid == pid && MatchesPreview(p, log[i].seenBefore)
  }

  /** Then the provider was called and reported an advanced version. */
  ghost predicate Got(log: seq<Entry>, pid: Pid, p: WritePlan, v: Text) {
    exists j :: 0 <= j < |log| - 1 && log[j] == Sent(pid) && log[j + 1] == Answered(pid, v)
             && v != p.beforeVersion && Saw(log[..j], pid, p)
  }

  /** Then the target was fetched again and equalled the planned result at that version. */
  ghost predicate Confirmed(log: seq<Entry>, pid: Pid, p: WritePlan, v: Text) {
    exists k :: 0 <= k < |log| && log[k].LookedAgain? && log[k].pid == pid
             && MatchesResult(p, v, log[k].seenAfter) && Got(log[..k], pid, p, v)
  }

  ghost predicate Proven(s: System, key: Key, v: Text) {
    exists q :: q in s.procs && KeyOf(s.procs[q].request) == key && Confirmed(s.log, q, key.0.plan, v)
  }

  ghost predicate EvidenceInv(s: System) {
    && (forall pid :: pid in s.procs && s.procs[pid].phase.Matched? ==> Saw(s.log, pid, s.procs[pid].request.plan))
    && (forall pid :: pid in s.procs && s.procs[pid].phase.Called? ==>
          Got(s.log, pid, s.procs[pid].request.plan, s.procs[pid].phase.version))
    && (forall pid :: pid in s.procs && s.procs[pid].phase.Committing? ==>
          && s.procs[pid].phase.success.Succeeded?
          && Confirmed(s.log, pid, s.procs[pid].request.plan, s.procs[pid].phase.success.resultingVersion))
    && (forall pid :: pid in s.procs && s.procs[pid].phase.Completing? ==> !s.procs[pid].phase.failure.Succeeded?)
  }

  ghost predicate ReceiptsInv(s: System) {
    && (forall key :: key in s.receipts && s.receipts[key].Succeeded? ==>
        Proven(s, key, s.receipts[key].resultingVersion))
    && (forall pid :: pid in s.procs && s.procs[pid].phase.Finished? && s.procs[pid].phase.result.Returned? ==>
          && KeyOf(s.procs[pid].request) in s.receipts
          && s.receipts[KeyOf(s.procs[pid].request)] == s.procs[pid].phase.result.receipt)
  }

  ghost predicate Inv(s: System) {
    ClaimsInv(s) && RequestsInv(s) && SentInv(s) && EvidenceInv(s) && ReceiptsInv(s)
  }

  lemma SawGrows(log: seq<Entry>, more: seq<Entry>, pid: Pid, p: WritePlan)
    requires log <= more && Saw(log, pid, p)
    ensures Saw(more, pid, p)
  {}

  lemma GotGrows(log: seq<Entry>, more: seq<Entry>, pid: Pid, p: WritePlan, v: Text)
    requires log <= more && Got(log, pid, p, v)
    ensures Got(more, pid, p, v)
  {}

  lemma ConfirmedGrows(log: seq<Entry>, more: seq<Entry>, pid: Pid, p: WritePlan, v: Text)
    requires log <= more && Confirmed(log, pid, p, v)
    ensures Confirmed(more, pid, p, v)
  {
    var k :| 0 <= k < |log| && log[k].LookedAgain? && log[k].pid == pid
             && MatchesResult(p, v, log[k].seenAfter) && Got(log[..k], pid, p, v);
    assert more[k] == log[k] && more[..k] == log[..k];
  }

  lemma EvidenceStep(s: System, s': System, pid: Pid)
    requires EvidenceInv(s) && Stepped(s, s', pid)
    ensures EvidenceInv(s')
  {
    forall q | q in s'.procs && s'.procs[q].phase.Matched? ensures Saw(s'.log, q, s'.procs[q].request.plan) {
      if q != pid {
        SawGrows(s.log, s'.log, q, s.procs[q].request.plan);
      } else {
        assert s'.log[|s.log|].Looked?;
      }
    }
    forall q | q in s'.procs && s'.procs[q].phase.Called?
      ensures Got(s'.log, q, s'.procs[q].request.plan, s'.procs[q].phase.version)
    {
      if q != pid {
        GotGrows(s.log, s'.log, q, s.procs[q].request.plan, s.procs[q].phase.version);
      } else {
        assert s'.log[..|s.log|] == s.log && s'.log[|s.log|] == Sent(q) && s'.log[|s.log| + 1].Answered?;
      }
    }
    forall q | q in s'.procs && s'.procs[q].phase.Committing?
      ensures s'.procs[q].phase.success.Succeeded?
      ensures Confirmed(s'.log, q, s'.procs[q].request.plan, s'.procs[q].phase.success.resultingVersion)
    {
      if q != pid {
        ConfirmedGrows(s.log, s'.log, q, s.procs[q].request.plan, s.procs[q].phase.success.resultingVersion);
      } else {
        assert s'.log[..|s.log|] == s.log && s'.log[|s.log|].LookedAgain?;
      }
    }
  }

  lemma OldReceiptStep(s: System, s': System, pid: Pid, key: Key, v: Text)
    requires Proven(s, key, v) && Stepped(s, s', pid)
    ensures Proven(s', key, v)
  {
    var q :| q in s.procs && KeyOf(s.procs[q].request) == key && Confirmed(s.log, q, key.0.plan, v);
    ConfirmedGrows(s.log, s'.log, q, key.0.plan, v);
    assert q in s'.procs && KeyOf(s'.procs[q].request) == key;
  }

  lemma ReceiptsStep(s: System, s': System, pid: Pid)
    requires EvidenceInv(s) && ReceiptsInv(s) && Stepped(s, s', pid)
    ensures ReceiptsInv(s')
  {
    forall key | key in s'.receipts && s'.receipts[key].Succeeded?
      ensures Proven(s', key, s'.receipts[key].resultingVersion)
    {
      var v := s'.receipts[key].resultingVersion;
      if key in s.receipts {
        OldReceiptStep(s, s', pid, key, v);
      } else {
        ConfirmedGrows(s.log, s'.log, pid, key.0.plan, v);
        assert pid in s'.procs && KeyOf(s'.procs[pid].request) == key;
      }
    }
  }

  lemma NextInv(s: System, e: Event)
    requires Inv(s)
    ensures Inv(Next(s, e))
  {
    var s' := Next(s, e);
    NextStepped(s, e);
    if s' != s {
      if Stepped(s, s', e.pid) {
        ClaimsStep(s, s', e.pid);
        RequestsStep(s, s', e.pid);
        SentStep(s, s', e.pid);
        EvidenceStep(s, s', e.pid);
        ReceiptsStep(s, s', e.pid);
      } else {
        SpawnKeeps(s, e.pid, e.request);
      }
    }
  }

  lemma {:induction false} RunInv(s: System, events: seq<Event>)
    requires Inv(s)
    ensures Inv(RunFrom(s, events))
  {
    if events != [] {
      RunInv(s, events[..|events| - 1]);
      NextInv(RunFrom(s, events[..|events| - 1]), events[|events| - 1]);
    }
  }

  // ----- The theorems, over every interleaving and every crash

  ghost function RequestOf(s: System, pid: Pid): Request requires pid in s.procs { s.procs[pid].request }

  /** The provider is called at most once per (plan, approval), and only with authority. */
  lemma AtMostOneCall(events: seq<Event>, i: nat, j: nat)
    requires var s := RunFrom(INITIAL, events);
             i < j < |s.log| && s.log[i].Sent? && s.log[j].Sent?
    ensures var s := RunFrom(INITIAL, events);
            && s.log[i].pid in s.procs && s.log[j].pid in s.procs
            && KeyOf(RequestOf(s, s.log[i].pid)) != KeyOf(RequestOf(s, s.log[j].pid))
  {
    RunInv(INITIAL, events);
    var s := RunFrom(INITIAL, events);
    assert Spent(s, s.log[i].pid) && Spent(s, s.log[j].pid);
  }

  /** Every provider write happens in the approval window, within fifteen minutes of the
      plan, by the approver, who is independent of its creator and of every conflicting
      author, whatever the alias registry says by then. */
  lemma EveryCallAuthorized(events: seq<Event>, i: nat)
    requires var s := RunFrom(INITIAL, events); i < |s.log| && s.log[i].Sent?
    ensures var s := RunFrom(INITIAL, events);
            s.log[i].pid in s.procs && Authorized(RequestOf(s, s.log[i].pid))
  {
    RunInv(INITIAL, events);
    assert Spent(RunFrom(INITIAL, events), RunFrom(INITIAL, events).log[i].pid);
  }

  /** A success receipt proves, in this order and by one call: the target matched the
      preview, the provider was called and advanced the version, the target matched the
      planned result at that version. */
  lemma SuccessIsProven(events: seq<Event>, key: Key)
    requires var s := RunFrom(INITIAL, events); key in s.receipts && s.receipts[key].Succeeded?
    ensures var s := RunFrom(INITIAL, events); Proven(s, key, s.receipts[key].resultingVersion)
  {
    RunInv(INITIAL, events);
  }

  /** Calls that return a receipt for the same key return the same receipt. */
  lemma ReceiptsAgree(events: seq<Event>, p: Pid, q: Pid)
    requires var s := RunFrom(INITIAL, events);
             && p in s.procs && q in s.procs && KeyOf(RequestOf(s, p)) == KeyOf(RequestOf(s, q))
             && s.procs[p].phase.Finished? && s.procs[p].phase.result.Returned?
             && s.procs[q].phase.Finished? && s.procs[q].phase.result.Returned?
    ensures var s := RunFrom(INITIAL, events); s.procs[p].phase.result == s.procs[q].phase.result
  {
    RunInv(INITIAL, events);
  }

  /** The provider calls made for a key. */
  ghost function CallsFor(s: System, key: Key): set<nat> {
    set i | 0 <= i < |s.log| && s.log[i].Sent? && s.log[i].pid in s.procs && KeyOf(s.procs[s.log[i].pid].request) == key
  }

  ghost predicate Ambiguous(s: System, key: Key) {
    key in s.claims && s.claims[key] in s.procs && s.procs[s.claims[key]].phase.Finished?
  }

  /** While the claiming attempt has ended, a step for its key is not by a process that may call. */
  lemma AmbiguousHolds(s: System, pid: Pid, key: Key)
    requires ClaimsInv(s) && Ambiguous(s, key) && pid in s.procs && Holds(s.procs[pid].phase)
    ensures KeyOf(s.procs[pid].request) != key
  {
    assert Owns(s, pid);
  }

  lemma AmbiguousStays(s: System, s': System, pid: Pid, key: Key)
    requires Ambiguous(s, key) && Stepped(s, s', pid)
    ensures Ambiguous(s', key)
  {}

  lemma AmbiguousStepped(s: System, s': System, pid: Pid, key: Key)
    requires ClaimsInv(s) && SentInv(s) && Ambiguous(s, key) && Stepped(s, s', pid)
    ensures Ambiguous(s', key) && CallsFor(s', key) == CallsFor(s, key)
  {
    AmbiguousStays(s, s', pid, key);
    assert forall i :: 0 <= i < |s.log| ==> s'.log[i] == s.log[i];
    assert forall q :: q in s.procs ==> s'.procs[q].request == s.procs[q].request;
    if Holds(s.procs[pid].phase) { AmbiguousHolds(s, pid, key); }
  }

  lemma AmbiguousSpawned(s: System, pid: Pid, r: Request, key: Key)
    requires SentInv(s) && Ambiguous(s, key) && pid !in s.procs
    ensures Ambiguous(Spawned(s, pid, r), key) && CallsFor(Spawned(s, pid, r), key) == CallsFor(s, key)
  {}

  lemma AmbiguousStep(s: System, e: Event, key: Key)
    requires Inv(s) && Ambiguous(s, key)
    ensures Ambiguous(Next(s, e), key) && CallsFor(Next(s, e), key) == CallsFor(s, key)
  {
    NextStepped(s, e);
    if Next(s, e) != s {
      if Stepped(s, Next(s, e), e.pid) {
        AmbiguousStepped(s, Next(s, e), e.pid, key);
      } else {
        AmbiguousSpawned(s, e.pid, e.request, key);
      }
    }
  }

  /** Once the call that won a claim is over, however it ended, no continuation of the run
      calls the provider for that key again. */
  lemma {:induction false} AmbiguousNeverRetried(s: System, events: seq<Event>, key: Key)
    requires Inv(s) && Ambiguous(s, key)
    ensures Ambiguous(RunFrom(s, events), key) && CallsFor(RunFrom(s, events), key) == CallsFor(s, key)
  {
    if events != [] {
      var front := events[..|events| - 1];
      AmbiguousNeverRetried(s, front, key);
      RunInv(s, front);
      AmbiguousStep(RunFrom(s, front), events[|events| - 1], key);
    }
  }

  // ----- An undisturbed attempt succeeds

  lemma RunSnoc(s: System, events: seq<Event>, e: Event)
    ensures RunFrom(s, events + [e]) == Next(RunFrom(s, events), e)
  {
    assert (events + [e])[..|events|] == events;
  }

  /** The steps of one attempt against a provider that answers as the plan expects. */
  function Attempt(pid: Pid, r: Request, before: RemoteObject, version: Text, after: RemoteObject): seq<Event> {
    [Spawn(pid, r), Advance(pid, Ok), Advance(pid, Ok), Advance(pid, Ok)]
    + [Advance(pid, Fetched(before)), Advance(pid, Wrote(version)), Advance(pid, Fetched(after)), Advance(pid, Ok)]
  }

  lemma SpawnedReads(s: System, pid: Pid, r: Request)
    requires pid !in s.procs && KeyOf(r) !in s.receipts && ValidatedInputs(r)
    ensures Next(Next(Next(s, Spawn(pid, r)), Advance(pid, Ok)), Advance(pid, Ok))
            == s.(procs := s.procs[pid := Process(r, Unclaimed)])
  {
    var s1 := Next(s, Spawn(pid, r));
    assert Next(s1, Advance(pid, Ok)) == s.(procs := s.procs[pid := Process(r, Validated)]);
  }

  lemma SpawnedClaims(s: System, pid: Pid, r: Request)
    requires pid !in s.procs && KeyOf(r) !in s.claims && InWindow(r)
    ensures Next(s.(procs := s.procs[pid := Process(r, Unclaimed)]), Advance(pid, Ok))
            == s.(procs := s.procs[pid := Process(r, Claimed)], claims := s.claims[KeyOf(r) := pid])
  {}

  lemma RunFour(s: System, start: seq<Event>, a: Event, b: Event, c: Event, d: Event)
    ensures RunFrom(s, start + [a] + [b] + [c] + [d]) == Next(Next(Next(Next(RunFrom(s, start), a), b), c), d)
  {
    RunSnoc(s, start, a);
    RunSnoc(s, start + [a], b);
    RunSnoc(s, start + [a] + [b], c);
    RunSnoc(s, start + [a] + [b] + [c], d);
  }

  lemma AttemptClaims(s: System, pid: Pid, r: Request)
    ensures RunFrom(s, [Spawn(pid, r), Advance(pid, Ok), Advance(pid, Ok), Advance(pid, Ok)])
            == Next(Next(Next(Next(s, Spawn(pid, r)), Advance(pid, Ok)), Advance(pid, Ok)), Advance(pid, Ok))
  {
    var spawn, ok := Spawn(pid, r), Advance(pid, Ok);
    RunFour(s, [], spawn, ok, ok, ok);
    assert [] + [spawn] + [ok] + [ok] + [ok] == [spawn, ok, ok, ok];
  }

  lemma ClaimedSucceeds(s: System, pid: Pid, before: RemoteObject, version: Text, after: RemoteObject)
    requires pid in s.procs && s.procs[pid].phase.Claimed? && KeyOf(s.procs[pid].request) !in s.receipts
    requires var p := s.procs[pid].request.plan;
             MatchesPreview(p, before) && version != p.beforeVersion && MatchesResult(p, version, after)
    ensures var r := s.procs[pid].request; var receipt := Succeeded(r.actor, version);
            var s1 := Next(s, Advance(pid, Fetched(before)));
            var s2 := Next(s1, Advance(pid, Wrote(version)));
            var s3 := Next(s2, Advance(pid, Fetched(after)));
            Next(s3, Advance(pid, Ok)) ==
            s.(procs := s.procs[pid := Process(r, Finished(Returned(receipt)))],
                receipts := s.receipts[KeyOf(r) := receipt],
               log := s.log + [Looked(pid, before), Sent(pid), Answered(pid, version), LookedAgain(pid, after)])
  {
    var r := s.procs[pid].request;
    var s1 := Next(s, Advance(pid, Fetched(before)));
    assert s1 == s.(procs := s.procs[pid := Process(r, Matched)], log := s.log + [Looked(pid, before)]);
    var s2 := Next(s1, Advance(pid, Wrote(version)));
    assert s2 == s.(procs := s.procs[pid := Process(r, Called(version))],
                    log := s.log + [Looked(pid, before), Sent(pid), Answered(pid, version)]);
    var s3 := Next(s2, Advance(pid, Fetched(after)));
    assert s3.log == s.log + [Looked(pid, before), Sent(pid), Answered(pid, version), LookedAgain(pid, after)];
    assert s3.procs == s.procs[pid := Process(r, Committing(Succeeded(r.actor, version)))];
  }

  lemma RunClaims(s: System, pid: Pid, r: Request)
    requires pid !in s.procs && KeyOf(r) !in s.claims && KeyOf(r) !in s.receipts && ValidatedInputs(r) && InWindow(r)
    ensures RunFrom(s, [Spawn(pid, r), Advance(pid, Ok), Advance(pid, Ok), Advance(pid, Ok)])
            == s.(procs := s.procs[pid := Process(r, Claimed)], claims := s.claims[KeyOf(r) := pid])
  {
    AttemptClaims(s, pid, r);
    SpawnedReads(s, pid, r);
    SpawnedClaims(s, pid, r);
  }

  lemma RunFinishes(s: System, start: seq<Event>, pid: Pid, before: RemoteObject, version: Text, after: RemoteObject)
    requires var s' := RunFrom(s, start);
             && pid in s'.procs && s'.procs[pid].phase.Claimed? && KeyOf(s'.procs[pid].request) !in s'.receipts
             && var p := s'.procs[pid].request.plan;
             MatchesPreview(p, before) && version != p.beforeVersion && MatchesResult(p, version, after)
    ensures var s' := RunFrom(s, start); var r := s'.procs[pid].request; var receipt := Succeeded(r.actor, version);
            RunFrom(s, start + [Advance(pid, Fetched(before)), Advance(pid, Wrote(version)),
                                Advance(pid, Fetched(after)), Advance(pid, Ok)]) ==
            s'.(procs := s'.procs[pid := Process(r, Finished(Returned(receipt)))],
                receipts := s'.receipts[KeyOf(r) := receipt],
                log := s'.log + [Looked(pid, before), Sent(pid), Answered(pid, version), LookedAgain(pid, after)])
  {
    var a, b := Advance(pid, Fetched(before)), Advance(pid, Wrote(version));
    var c, d := Advance(pid, Fetched(after)), Advance(pid, Ok);
    RunFour(s, start, a, b, c, d);
    assert start + [a, b, c, d] == start + [a] + [b] + [c] + [d];
    ClaimedSucceeds(RunFrom(s, start), pid, before, version, after);
  }

  /** A valid request inside its window, not claimed before and met by the expected answers,
      ends with the success receipt recorded and returned after exactly one call. */
  lemma AttemptSucceeds(s: System, pid: Pid, r: Request, before: RemoteObject, version: Text, after: RemoteObject)
    requires pid !in s.procs && KeyOf(r) !in s.claims && KeyOf(r) !in s.receipts && ValidatedInputs(r) && InWindow(r)
    requires MatchesPreview(r.plan, before) && version != r.plan.beforeVersion && MatchesResult(r.plan, version, after)
    ensures var s' := RunFrom(s, Attempt(pid, r, before, version, after)); var receipt := Succeeded(r.actor, version);
            && s'.procs == s.procs[pid := Process(r, Finished(Returned(receipt)))]
            && s'.claims == s.claims[KeyOf(r) := pid] && s'.receipts == s.receipts[KeyOf(r) := receipt]
            && s'.log == s.log + [Looked(pid, before), Sent(pid), Answered(pid, version), LookedAgain(pid, after)]
  {
    var start := [Spawn(pid, r), Advance(pid, Ok), Advance(pid, Ok), Advance(pid, Ok)];
    RunClaims(s, pid, r);
    RunFinishes(s, start, pid, before, version, after);
  }
}
