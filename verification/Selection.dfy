/** One observation per subject by detector precedence (reconcile/evidence_detection.py
    `select_drift_observations`). */
module Selection {
  import opened Common
  import opened Detectors

  /** `a` sorts strictly before `b` by (precedence, fingerprint). */
  predicate Beats(a: Observation, b: Observation) {
    || Precedence(a.detector) < Precedence(b.detector)
    || (Precedence(a.detector) == Precedence(b.detector) && a.fingerprint < b.fingerprint)
  }

  /** Fingerprints cover the detector and the subject. */
  ghost predicate Identified(xs: seq<Observation>) {
    forall a, b :: a in xs && b in xs && a.fingerprint == b.fingerprint ==>
        a.subject == b.subject && a.detector == b.detector
  }

  // ----- Specification: the first least candidate of each subject

  function Better(a: Option<Observation>, b: Option<Observation>): Option<Observation> {
    if a.Some? && (b.None? || !Beats(b.value, a.value)) then a else b
  }

  function About(x: Observation, s: nat): Option<Observation> { if x.subject == s then Some(x) else None }

  /** Scan left to right, keeping a candidate until a strictly better one comes. */
  function Best(xs: seq<Observation>, s: nat): Option<Observation> {
    if xs == [] then None else Better(Best(xs[..|xs| - 1], s), About(xs[|xs| - 1], s))
  }

  ghost predicate ByFingerprint(xs: seq<Observation>) {
    forall i, j :: 0 <= i < j < |xs| ==> xs[i].fingerprint < xs[j].fingerprint
  }

  ghost predicate OnePerSubject(xs: seq<Observation>) {
    forall i, j :: 0 <= i < j < |xs| ==> xs[i].subject != xs[j].subject
  }

  /** `out` holds exactly the best candidate of each subject, by fingerprint. */
  ghost predicate IsSelection(candidates: seq<Observation>, out: seq<Observation>) {
    && ByFingerprint(out) && OnePerSubject(out)
    && forall s :: Best(out, s) == Best(candidates, s)
  }

  /** The best candidate is about the subject and nothing about the subject beats it. */
  lemma {:induction false} BestIsLeast(xs: seq<Observation>, s: nat)
    ensures Best(xs, s).None? <==> forall x :: x in xs ==> x.subject != s
    ensures Best(xs, s).Some? ==> Best(xs, s).value in xs && Best(xs, s).value.subject == s
    ensures Best(xs, s).Some? ==> forall x :: x in xs && x.subject == s ==> !Beats(x, Best(xs, s).value)
  {
    if xs != [] {
      var init, last := xs[..|xs| - 1], xs[|xs| - 1];
      BestIsLeast(init, s);
      assert xs == init + [last] && last in xs;
      assert forall x :: x in init ==> x in xs;
    }
  }

  lemma BetterAssociative(a: Option<Observation>, b: Option<Observation>, c: Option<Observation>)
    ensures Better(Better(a, b), c) == Better(a, Better(b, c))
  {}

  lemma {:induction false} BestOfBoth(xs: seq<Observation>, ys: seq<Observation>, s: nat)
    ensures Best(xs + ys, s) == Better(Best(xs, s), Best(ys, s))
  {
    if ys == [] {
      assert xs + ys == xs;
    } else {
      var init, last := ys[..|ys| - 1], ys[|ys| - 1];
      assert (xs + ys)[..|xs + ys| - 1] == xs + init;
      BestOfBoth(xs, init, s);
      BetterAssociative(Best(xs, s), Best(init, s), About(last, s));
    }
  }

  lemma {:induction false} BestOfOnePerSubject(xs: seq<Observation>, i: nat)
    requires OnePerSubject(xs) && i < |xs|
    ensures Best(xs, xs[i].subject) == Some(xs[i])
  {
    BestIsLeast(xs, xs[i].subject);
    assert xs[i] in xs;
  }

  // ----- Selections are unique

  lemma SelectedMembers(candidates: seq<Observation>, out: seq<Observation>, x: Observation)
    requires IsSelection(candidates, out)
    ensures x in out <==> Best(candidates, x.subject) == Some(x)
  {
    if x in out {
      var i :| 0 <= i < |out| && out[i] == x;
      BestOfOnePerSubject(out, i);
    }
    BestIsLeast(out, x.subject);
  }

  lemma {:induction false} SortedUnique(a: seq<Observation>, b: seq<Observation>)
    requires ByFingerprint(a) && ByFingerprint(b)
    requires forall x :: x in a <==> x in b
    ensures a == b
  {
    assert a != [] ==> a[0] in a;
    assert b != [] ==> b[0] in b;
    if a != [] && b != [] {
      var m, n := |a| - 1, |b| - 1;
      LastAgrees(a, b);
      forall x ensures x in a[..m] <==> x in b[..n] {
        InitMembers(a, x);
        InitMembers(b, x);
      }
      SortedUnique(a[..m], b[..n]);
      assert a == a[..m] + [a[m]] && b == b[..n] + [b[n]];
    }
  }

  lemma LastAgrees(a: seq<Observation>, b: seq<Observation>)
    requires a != [] && b != [] && ByFingerprint(a) && ByFingerprint(b)
    requires forall x :: x in a <==> x in b
    ensures a[|a| - 1] == b[|b| - 1]
  {
    var x, y := a[|a| - 1], b[|b| - 1];
    assert x in b && y in a;
    var i :| 0 <= i < |b| && b[i] == x;
    var j :| 0 <= j < |a| && a[j] == y;
  }

  lemma InitMembers(a: seq<Observation>, x: Observation)
    requires a != [] && ByFingerprint(a)
    ensures x in a[..|a| - 1] <==> x in a && x != a[|a| - 1]
  {}

  lemma SelectionUnique(candidates: seq<Observation>, out: seq<Observation>, out': seq<Observation>)
    requires IsSelection(candidates, out) && IsSelection(candidates, out')
    ensures out == out'
  {
    forall x ensures x in out <==> x in out' {
      SelectedMembers(candidates, out, x);
      SelectedMembers(candidates, out', x);
    }
    SortedUnique(out, out');
  }

  // ----- Laws

  /** A selection keeps exactly one candidate per subject present, and none beats it. */
  lemma OneLeastPerSubject(candidates: seq<Observation>, out: seq<Observation>, s: nat)
    requires IsSelection(candidates, out)
    ensures (exists x :: x in candidates && x.subject == s) <==> (exists i :: 0 <= i < |out| && out[i].subject == s)
    ensures forall i :: 0 <= i < |out| ==> out[i] in candidates
    ensures forall i, x :: 0 <= i < |out| && x in candidates && x.subject == out[i].subject ==> !Beats(x, out[i])
  {
    BestIsLeast(candidates, s);
    BestIsLeast(out, s);
    forall i | 0 <= i < |out|
      ensures out[i] in candidates && forall x :: x in candidates && x.subject == out[i].subject ==> !Beats(x, out[i])
    {
      BestOfOnePerSubject(out, i);
      BestIsLeast(candidates, out[i].subject);
    }
    if exists x :: x in candidates && x.subject == s {
      var i :| 0 <= i < |out| && out[i] == Best(out, s).value;
      assert out[i].subject == s;
    }
  }

  /** Idempotence: selecting from a selection changes nothing. */
  lemma SelectIdempotent(candidates: seq<Observation>, out: seq<Observation>, again: seq<Observation>)
    requires IsSelection(candidates, out) && IsSelection(out, again)
    ensures again == out
  {
    SelectionUnique(out, out, again);
  }

  /** select(a + b) = select(select(a) + select(b)). */
  lemma SelectDistributes(a: seq<Observation>, b: seq<Observation>, outA: seq<Observation>, outB: seq<Observation>,
                          whole: seq<Observation>, pieces: seq<Observation>)
    requires IsSelection(a, outA) && IsSelection(b, outB)
    requires IsSelection(a + b, whole) && IsSelection(outA + outB, pieces)
    ensures whole == pieces
  {
    forall s ensures Best(pieces, s) == Best(a + b, s) {
      BestOfBoth(a, b, s);
      BestOfBoth(outA, outB, s);
    }
    SelectionUnique(a + b, whole, pieces);
  }

  // ----- The sort-and-setdefault loop

  /** Stable insertion: after everything `x` does not beat. */
  function Insert(xs: seq<Observation>, x: Observation): seq<Observation> {
    if xs == [] || !Beats(x, xs[|xs| - 1]) then xs + [x] else Insert(xs[..|xs| - 1], x) + [xs[|xs| - 1]]
  }

  /** `sorted(candidates, key=(precedence, fingerprint))`, a stable sort. */
  function Sorted(xs: seq<Observation>): seq<Observation> {
    if xs == [] then [] else Insert(Sorted(xs[..|xs| - 1]), xs[|xs| - 1])
  }

  ghost predicate Ascending(xs: seq<Observation>) { forall i, j :: 0 <= i < j < |xs| ==> !Beats(xs[j], xs[i]) }

  lemma {:induction false} InsertMembers(xs: seq<Observation>, x: Observation)
    ensures |Insert(xs, x)| == |xs| + 1
    ensures forall y :: y in Insert(xs, x) <==> y in xs || y == x
  {
    if !(xs == [] || !Beats(x, xs[|xs| - 1])) {
      InsertMembers(xs[..|xs| - 1], x);
      assert xs == xs[..|xs| - 1] + [xs[|xs| - 1]];
    }
  }

  lemma {:induction false} InsertAscending(xs: seq<Observation>, x: Observation)
    requires Ascending(xs)
    ensures Ascending(Insert(xs, x))
  {
    if xs == [] || !Beats(x, xs[|xs| - 1]) {
    } else {
      var init, last := xs[..|xs| - 1], xs[|xs| - 1];
      InsertAscending(init, x);
      InsertMembers(init, x);
      var put := Insert(init, x);
      forall i | 0 <= i < |put| ensures !Beats(last, put[i]) {
        assert put[i] in put;
        if put[i] != x {
          var k :| 0 <= k < |init| && init[k] == put[i];
          assert xs[k] == put[i];
        }
      }
    }
  }

  lemma {:induction false} SortedAscending(xs: seq<Observation>)
    ensures Ascending(Sorted(xs)) && forall y :: y in Sorted(xs) <==> y in xs
  {
    if xs != [] {
      var init := xs[..|xs| - 1];
      SortedAscending(init);
      InsertAscending(Sorted(init), xs[|xs| - 1]);
      InsertMembers(Sorted(init), xs[|xs| - 1]);
      assert xs == init + [xs[|xs| - 1]];
    }
  }

  /** The first element about a subject, which is what `setdefault` keeps. */
  function FirstAbout(xs: seq<Observation>, s: nat): Option<Observation> {
    if xs == [] then None else
      var before := FirstAbout(xs[..|xs| - 1], s);
      if before.Some? then before else About(xs[|xs| - 1], s)
  }

  lemma {:induction false} FirstIn(xs: seq<Observation>, s: nat)
    ensures FirstAbout(xs, s).Some? ==> FirstAbout(xs, s).value in xs && FirstAbout(xs, s).value.subject == s
  {
    if xs != [] { FirstIn(xs[..|xs| - 1], s); }
  }

  lemma FirstSnoc(xs: seq<Observation>, x: Observation, s: nat)
    ensures FirstAbout(xs + [x], s) == if FirstAbout(xs, s).Some? then FirstAbout(xs, s) else About(x, s)
  {}

  lemma {:induction false} FirstAfterInsert(xs: seq<Observation>, x: Observation, s: nat)
    requires Ascending(xs)
    ensures FirstAbout(Insert(xs, x), s) == Better(FirstAbout(xs, s), About(x, s))
  {
    FirstIn(xs, s);
    if xs == [] || !Beats(x, xs[|xs| - 1]) {
      FirstSnoc(xs, x, s);
      if FirstAbout(xs, s).Some? {
        var k :| 0 <= k < |xs| && xs[k] == FirstAbout(xs, s).value;
        assert k < |xs| - 1 ==> !Beats(xs[|xs| - 1], xs[k]);
      }
    } else {
      var init, last := xs[..|xs| - 1], xs[|xs| - 1];
      FirstAfterInsert(init, x, s);
      FirstSnoc(Insert(init, x), last, s);
    }
  }

  /** After a stable sort, the first element about a subject is its best candidate. */
  lemma {:induction false} FirstOfSorted(xs: seq<Observation>, s: nat)
    ensures FirstAbout(Sorted(xs), s) == Best(xs, s)
  {
    if xs != [] {
      FirstOfSorted(xs[..|xs| - 1], s);
      SortedAscending(xs[..|xs| - 1]);
      FirstAfterInsert(Sorted(xs[..|xs| - 1]), xs[|xs| - 1], s);
    }
  }

  /** `sorted(..., key=fingerprint)`. */
  function Place(xs: seq<Observation>, x: Observation): seq<Observation> {
    if xs == [] || xs[|xs| - 1].fingerprint <= x.fingerprint then xs + [x] else
        Place(xs[..|xs| - 1], x) + [xs[|xs| - 1]]
  }

  function InFingerprintOrder(xs: seq<Observation>): seq<Observation> {
    if xs == [] then [] else Place(InFingerprintOrder(xs[..|xs| - 1]), xs[|xs| - 1])
  }

  lemma {:induction false} PlaceMembers(xs: seq<Observation>, x: Observation)
    ensures forall y :: y in Place(xs, x) <==> y in xs || y == x
  {
    if !(xs == [] || xs[|xs| - 1].fingerprint <= x.fingerprint) {
      PlaceMembers(xs[..|xs| - 1], x);
      assert xs == xs[..|xs| - 1] + [xs[|xs| - 1]];
    }
  }

  lemma {:induction false} PlaceOrdered(xs: seq<Observation>, x: Observation)
    requires ByFingerprint(xs) && forall y :: y in xs ==> y.fingerprint != x.fingerprint
    ensures ByFingerprint(Place(xs, x))
  {
    if xs != [] && xs[|xs| - 1].fingerprint > x.fingerprint {
      var init, last := xs[..|xs| - 1], xs[|xs| - 1];
      assert forall y :: y in init ==> y in xs;
      PlaceOrdered(init, x);
      PlaceMembers(init, x);
      var put := Place(init, x);
      forall i | 0 <= i < |put| ensures put[i].fingerprint < last.fingerprint {
        assert put[i] in put;
        if put[i] != x {
          var k :| 0 <= k < |init| && init[k] == put[i];
          assert xs[k] == put[i];
        }
      }
    } else {
      assert xs != [] ==> xs[|xs| - 1] in xs;
    }
  }

  lemma {:induction false} FingerprintOrdered(xs: seq<Observation>)
    requires forall i, j :: 0 <= i < j < |xs| ==> xs[i].fingerprint != xs[j].fingerprint
    ensures ByFingerprint(InFingerprintOrder(xs)) && forall y :: y in InFingerprintOrder(xs) <==> y in xs
  {
    if xs != [] {
      var init, last := xs[..|xs| - 1], xs[|xs| - 1];
      FingerprintOrdered(init);
      forall y | y in init ensures y.fingerprint != last.fingerprint {
        var k :| 0 <= k < |init| && init[k] == y;
        assert xs[k] == y;
      }
      PlaceOrdered(InFingerprintOrder(init), last);
      PlaceMembers(InFingerprintOrder(init), last);
      assert xs == init + [last];
    }
  }

  lemma MembersOnePerSubject(xs: seq<Observation>, ys: seq<Observation>)
    requires OnePerSubject(xs) && ByFingerprint(ys) && forall y :: y in ys <==> y in xs
    ensures OnePerSubject(ys)
  {
    forall i, j | 0 <= i < j < |ys| ensures ys[i].subject != ys[j].subject {
      assert ys[i] in xs && ys[j] in xs;
      var a :| 0 <= a < |xs| && xs[a] == ys[i];
      var b :| 0 <= b < |xs| && xs[b] == ys[j];
      assert a != b;
    }
  }

  lemma SameBest(xs: seq<Observation>, ys: seq<Observation>, s: nat)
    requires OnePerSubject(xs) && OnePerSubject(ys) && forall y :: y in ys <==> y in xs
    ensures Best(ys, s) == Best(xs, s)
  {
    BestIsLeast(xs, s);
    BestIsLeast(ys, s);
    if Best(xs, s).Some? {
      var j :| 0 <= j < |ys| && ys[j] == Best(xs, s).value;
      BestOfOnePerSubject(ys, j);
    }
  }

  /** `setdefault` on the next observation in sorted order. */
  lemma KeepFirst(chosen: seq<Observation>, before: seq<Observation>, x: Observation)
    requires OnePerSubject(chosen) && forall s :: Best(chosen, s) == FirstAbout(before, s)
    ensures FirstAbout(before, x.subject).None? ==>
              OnePerSubject(chosen + [x]) && forall s :: Best(chosen + [x], s) == FirstAbout(before + [x], s)
    ensures FirstAbout(before, x.subject).Some? ==> forall s :: Best(chosen, s) == FirstAbout(before + [x], s)
  {
    BestIsLeast(chosen, x.subject);
    assert (chosen + [x])[..|chosen|] == chosen;
    forall s
      ensures FirstAbout(before, x.subject).None? ==> Best(chosen + [x], s) == FirstAbout(before + [x], s)
      ensures FirstAbout(before, x.subject).Some? ==> Best(chosen, s) == FirstAbout(before + [x], s)
    {
      FirstSnoc(before, x, s);
    }
  }

  lemma ChosenIsSelection(candidates: seq<Observation>, chosen: seq<Observation>)
    requires Identified(candidates) && OnePerSubject(chosen)
    requires forall s :: Best(chosen, s) == Best(candidates, s)
    ensures IsSelection(candidates, InFingerprintOrder(chosen))
  {
    forall i | 0 <= i < |chosen| ensures chosen[i] in candidates {
      BestOfOnePerSubject(chosen, i);
      BestIsLeast(candidates, chosen[i].subject);
    }
    FingerprintOrdered(chosen);
    MembersOnePerSubject(chosen, InFingerprintOrder(chosen));
    forall s ensures Best(InFingerprintOrder(chosen), s) == Best(candidates, s) {
      SameBest(chosen, InFingerprintOrder(chosen), s);
    }
  }

  /** `select_drift_observations`: the dictionary `selected` is kept as its keys and its
      values in insertion order. */
  method SelectDriftObservations(candidates: seq<Observation>) returns (out: seq<Observation>)
    requires Identified(candidates)
    ensures IsSelection(candidates, out)
  {
    var sorted := Sorted(candidates);
    var subjects: set<nat> := {};
    var chosen: seq<Observation> := [];
    var i := 0;
    while i < |sorted|
      invariant 0 <= i <= |sorted| && OnePerSubject(chosen)
      invariant forall s :: s in subjects <==> FirstAbout(sorted[..i], s).Some?
      invariant forall s :: Best(chosen, s) == FirstAbout(sorted[..i], s)
    {
      var x := sorted[i];
      assert sorted[..i + 1] == sorted[..i] + [x];
      KeepFirst(chosen, sorted[..i], x);
      forall s ensures FirstAbout(sorted[..i + 1], s).Some? <==> s in subjects || s == x.subject {
        FirstSnoc(sorted[..i], x, s);
      }
      if x.subject !in subjects {
        subjects := subjects + {x.subject};
        chosen := chosen + [x];
      }
      i := i + 1;
    }
    assert sorted[..i] == sorted;
    forall s ensures Best(chosen, s) == Best(candidates, s) {
      FirstOfSorted(candidates, s);
    }
    ChosenIsSelection(candidates, chosen);
    out := InFingerprintOrder(chosen);
  }

  // ----- Agreement with the first-match loop

  ghost predicate Rising(ds: seq<Detector>) {
    forall j, k :: 0 <= j < k < |ds| ==> Precedence(ds[j]) < Precedence(ds[k])
  }

  ghost predicate RisingAbout(xs: seq<Observation>, subject: nat) {
    && (forall k :: 0 <= k < |xs| ==> xs[k].subject == subject)
    && (forall j, k :: 0 <= j < k < |xs| ==> Precedence(xs[j].detector) < Precedence(xs[k].detector))
  }

  lemma {:induction false} FirstIsBest(xs: seq<Observation>, subject: nat, s: nat)
    requires RisingAbout(xs, subject)
    ensures Best(xs, s) == (if xs == [] || s != subject then None else Some(xs[0]))
  {
    if xs != [] { FirstIsBest(xs[..|xs| - 1], subject, s); }
  }

  lemma {:induction false} FiredRising(hash: Hash, i: Input, ds: seq<Detector>)
    requires Rising(ds)
    ensures var all := Fired(hash, i, ds);
            RisingAbout(all, i.subject)
            && forall k :: 0 <= k < |all| ==> ds != [] && Precedence(all[k].detector) <= Precedence(ds[|ds| - 1])
  {
    if ds != [] {
      var init, d := ds[..|ds| - 1], ds[|ds| - 1];
      FiredRising(hash, i, init);
      assert init != [] ==> Precedence(init[|init| - 1]) < Precedence(d);
    }
  }

  /** Selecting from all firing detectors of one input is what `detect_drift` returns. */
  lemma FirstMatchIsSelection(hash: Hash, i: Input, out: seq<Observation>)
    ensures var all := Fired(hash, i, DETECTORS);
            IsSelection(all, out) <==> out == if all == [] then [] else [all[0]]
  {
    var all := Fired(hash, i, DETECTORS);
    var first := if all == [] then [] else [all[0]];
    assert Rising(DETECTORS);
    FiredRising(hash, i, DETECTORS);
    forall s ensures Best(first, s) == Best(all, s) {
      FirstIsBest(all, i.subject, s);
      FirstIsBest(first, i.subject, s);
    }
    assert IsSelection(all, first);
    if IsSelection(all, out) { SelectionUnique(all, out, first); }
  }
}
