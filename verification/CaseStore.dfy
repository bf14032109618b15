/** The lifecycle versions of reconciliation cases (storage/jsonl/case_store.py). */
module CaseStore {
  import opened Common
  import opened Collections
  import opened ContextPack

  /** The latest version of each case, and the case that owns each fingerprint. */
  datatype Latest = Latest(cases: map<nat, Case>, owners: map<nat, nat>)

  /** What no version may change: everything but status and history. */
  function Identity(c: Case): Case { c.(status := OpenCase, history := []) }

  /** A new version follows its predecessor by exactly one recorded status change. */
  predicate Follows(previous: Case, c: Case) {
    && Identity(previous) == Identity(c)
    && previous.status != c.status
    && |c.history| == |previous.history| + 1
    && c.history[..|previous.history|] == previous.history
    && c.history[|previous.history|].prior == previous.status
    && c.history[|previous.history|].next == c.status
  }

  /** `_record_version` on reading: an exact repetition is a no-op. */
  function RecordVersion(latest: Latest, c: Case): Option<Latest> {
    if c.fingerprint in latest.owners && latest.owners[c.fingerprint] != c.id then None
    else if c.id in latest.cases && latest.cases[c.id] != c && !Follows(latest.cases[c.id], c) then None
    else Some(Latest(latest.cases[c.id := c], latest.owners[c.fingerprint := c.id]))
  }

  function Versions(cases: seq<Case>): Option<Latest> {
    if cases == [] then Some(Latest(map[], map[]))
    else match Versions(cases[..|cases| - 1])
      case None => None
      case Some(latest) => RecordVersion(latest, cases[|cases| - 1])
  }

  /** `_parse_versions_with_history`. */
  method ParseVersions(cases: seq<Case>) returns (result: Option<Latest>)
    ensures result == Versions(cases)
  {
    var latest := Latest(map[], map[]);
    var n := 0;
    while n < |cases|
      invariant 0 <= n <= |cases|
      invariant Versions(cases[..n]) == Some(latest)
    {
      assert cases[..n + 1][..n] == cases[..n];
      var next := RecordVersion(latest, cases[n]);
      if next.None? {
        RefusedPrefix(cases, n + 1);
        return None;
      }
      latest := next.value;
      n := n + 1;
    }
    assert cases[..n] == cases;
    return Some(latest);
  }

  lemma {:induction false} RefusedPrefix(cases: seq<Case>, n: nat)
    requires n <= |cases| && Versions(cases[..n]).None?
    ensures Versions(cases).None?
  {
    if n == |cases| {
      assert cases[..n] == cases;
    } else {
      assert cases[..|cases| - 1][..n] == cases[..n];
      RefusedPrefix(cases[..|cases| - 1], n);
    }
  }

  /** The store's latest versions are the provider's dictionary of the same versions. */
  lemma {:induction false} LatestIsDictionary(cases: seq<Case>)
    requires Versions(cases).Some?
    ensures Versions(cases).value.cases == ById(cases, (c: Case) => c.id)
  {
    if cases != [] { LatestIsDictionary(cases[..|cases| - 1]); }
  }

  /** Versions of one case differ at most in status and history. */
  lemma {:induction false} IdentityNeverChanges(cases: seq<Case>, a: Case, b: Case)
    requires Versions(cases).Some? && a in cases && b in cases && a.id == b.id
    ensures Identity(a) == Identity(b)
  {
    LatestHasIdentity(cases, a);
    LatestHasIdentity(cases, b);
  }

  lemma {:induction false} LatestHasIdentity(cases: seq<Case>, a: Case)
    requires Versions(cases).Some? && a in cases
    ensures a.id in Versions(cases).value.cases && Identity(Versions(cases).value.cases[a.id]) == Identity(a)
  {
    var init, last := cases[..|cases| - 1], cases[|cases| - 1];
    assert cases == init + [last];
    if a in init { LatestHasIdentity(init, a); }
  }

  // ----- Which files are readable

  /** Version j is the last one of the case before position n. */
  ghost predicate LatestAt(cases: seq<Case>, id: CaseId, n: int, j: int) {
    && 0 <= j < n <= |cases| && cases[j].id == id
    && forall k :: j < k < n ==> cases[k].id != id
  }

  /** c is b after exactly one recorded status change. */
  ghost predicate NextVersion(b: Case, c: Case) {
    && c.kind == b.kind && c.subject == b.subject && c.affected == b.affected
    && c.evidenceRefs == b.evidenceRefs && c.fingerprint == b.fingerprint
    && b.status != c.status
    && exists change: Change :: change.prior == b.status && change.next == c.status && c.history == b.history + [change]
  }

  /** Version n uses no other case's fingerprint, and repeats or continues its own case. */
  ghost predicate Continues(cases: seq<Case>, n: int)
    requires 0 <= n < |cases|
  {
    && (forall j :: 0 <= j < n && cases[j].fingerprint == cases[n].fingerprint ==> cases[j].id == cases[n].id)
    && (forall j :: LatestAt(cases, cases[n].id, n, j) ==> cases[n] == cases[j] || NextVersion(cases[j], cases[n]))
  }

  lemma FollowsExactly(b: Case, c: Case)
    requires b.id == c.id
    ensures Follows(b, c) <==> NextVersion(b, c)
  {
    if Follows(b, c) {
      assert c.history == b.history + [c.history[|b.history|]];
      assert Identity(b).fingerprint == Identity(c).fingerprint && Identity(b).affected == Identity(c).affected;
      assert Identity(b).kind == Identity(c).kind && Identity(b).evidenceRefs == Identity(c).evidenceRefs;
      assert Identity(b).subject == Identity(c).subject;
    }
  }

  lemma {:induction false} LatestIs(cases: seq<Case>, id: CaseId)
    requires Versions(cases).Some?
    ensures id in Versions(cases).value.cases <==> exists j :: LatestAt(cases, id, |cases|, j)
    ensures forall j :: LatestAt(cases, id, |cases|, j) ==> Versions(cases).value.cases[id] == cases[j]
  {
    if cases != [] {
      var n := |cases| - 1;
      LatestIs(cases[..n], id);
      if cases[n].id == id {
        assert LatestAt(cases, id, |cases|, n);
      } else {
        forall j: int ensures LatestAt(cases, id, |cases|, j) <==> LatestAt(cases[..n], id, n, j) {}
      }
    }
  }

  lemma {:induction false} OwnersAre(cases: seq<Case>, fingerprint: nat)
    requires Versions(cases).Some?
    ensures fingerprint in Versions(cases).value.owners <==>
              exists j :: 0 <= j < |cases| && cases[j].fingerprint == fingerprint
    ensures forall j :: 0 <= j < |cases| && cases[j].fingerprint == fingerprint ==>
              Versions(cases).value.owners[fingerprint] == cases[j].id
  {
    if cases != [] {
      var n := |cases| - 1;
      OwnersAre(cases[..n], fingerprint);
      forall j | 0 <= j < n && cases[j].fingerprint == fingerprint
        ensures fingerprint in Versions(cases[..n]).value.owners
        ensures Versions(cases[..n]).value.owners[fingerprint] == cases[j].id
      {
        assert cases[..n][j] == cases[j];
      }
    }
  }

  lemma VersionExactly(cases: seq<Case>)
    requires cases != [] && Versions(cases[..|cases| - 1]).Some?
    ensures Versions(cases).Some? <==> Continues(cases, |cases| - 1)
  {
    var n := |cases| - 1;
    var init, c := cases[..n], cases[n];
    OwnersAre(init, c.fingerprint);
    LatestIs(init, c.id);
    forall j: int ensures LatestAt(cases, c.id, n, j) <==> LatestAt(init, c.id, n, j) {}
    forall j | LatestAt(cases, c.id, n, j) ensures Follows(cases[j], c) <==> NextVersion(cases[j], c) {
      FollowsExactly(cases[j], c);
    }
    forall j | 0 <= j < n ensures init[j] == cases[j] {}
  }

  lemma ContinuesPrefix(cases: seq<Case>, n: int)
    requires 0 <= n < |cases| - 1
    ensures Continues(cases, n) <==> Continues(cases[..|cases| - 1], n)
  {
    var init := cases[..|cases| - 1];
    assert init[n] == cases[n];
    forall j: int ensures LatestAt(cases, cases[n].id, n, j) <==> LatestAt(init, cases[n].id, n, j) {}
    forall j | 0 <= j < n ensures init[j] == cases[j] {}
  }

  /** A file of versions is readable exactly when every version uses its own fingerprint and
      repeats the last version of its case, or records one status change after it. */
  lemma {:induction false} VersionsExactly(cases: seq<Case>)
    ensures Versions(cases).Some? <==> forall n :: 0 <= n < |cases| ==> Continues(cases, n)
  {
    if cases != [] {
      var init := cases[..|cases| - 1];
      VersionsExactly(init);
      forall n | 0 <= n < |init| ensures Continues(cases, n) <==> Continues(init, n) { ContinuesPrefix(cases, n); }
      if Versions(init).Some? { VersionExactly(cases); }
    }
  }

  /** A case's recorded history only grows: a later version keeps all earlier changes, and as
      many changes mean the same version. */
  lemma {:induction false} HistoryGrows(cases: seq<Case>, i: nat, j: nat)
    requires Versions(cases).Some? && i < j < |cases| && cases[i].id == cases[j].id
    ensures cases[i].history <= cases[j].history
    ensures |cases[i].history| == |cases[j].history| ==> cases[i] == cases[j]
    decreases j
  {
    VersionsExactly(cases);
    var k := LastBefore(cases, cases[j].id, i, j);
    assert Continues(cases, j) && LatestAt(cases, cases[j].id, j, k);
    if k > i { HistoryGrows(cases, i, k); }
  }

  lemma {:induction false} LastBefore(cases: seq<Case>, id: CaseId, i: nat, j: nat) returns (k: nat)
    requires i < j <= |cases| && cases[i].id == id
    ensures i <= k && LatestAt(cases, id, j, k)
    decreases j
  {
    if cases[j - 1].id == id {
      k := j - 1;
    } else {
      k := LastBefore(cases, id, i, j - 1);
    }
  }
}
