/** Ranking by descending score, then identifier, as `sorted(..., key=(-score, id))` does
    on a collection of distinct identifiers (context/provider.py). */
module Ranking {

  type Score = map<nat, int>

  function At(score: Score, n: nat): int { if n in score then score[n] else 0 }

  predicate Before(score: Score, a: nat, b: nat) {
    At(score, a) > At(score, b) || (At(score, a) == At(score, b) && a < b)
  }

  predicate IsFirst(s: set<nat>, score: Score, m: nat) {
    m in s && forall x :: x in s && x != m ==> Before(score, m, x)
  }

  lemma {:induction false} FirstExists(s: set<nat>, score: Score)
    requires s != {}
    ensures exists m :: IsFirst(s, score, m)
    decreases s
  {
    var a :| a in s;
    var rest := s - {a};
    if rest == {} {
      assert s == {a};
      assert IsFirst(s, score, a);
    } else {
      FirstExists(rest, score);
      var m :| IsFirst(rest, score, m);
      if Before(score, a, m) {
        forall x | x in s && x != a ensures Before(score, a, x) { assert x in rest; }
        assert IsFirst(s, score, a);
      } else {
        forall x | x in s && x != m ensures Before(score, m, x) { assert x == a || x in rest; }
        assert IsFirst(s, score, m);
      }
    }
  }

  function First(s: set<nat>, score: Score): (m: nat)
    requires s != {}
    ensures IsFirst(s, score, m)
  {
    FirstExists(s, score);
    assert forall m, n :: IsFirst(s, score, m) && IsFirst(s, score, n) ==> m == n;
    var m :| IsFirst(s, score, m);
    m
  }

  function Ranked(s: set<nat>, score: Score): (r: seq<nat>)
    ensures |r| == |s|
    ensures forall n :: n in r <==> n in s
    decreases s
  {
    if s == {} then [] else
      var m := First(s, score);
      [m] + Ranked(s - {m}, score)
  }

  /** The ranking is in strictly descending order, so it repeats nothing. */
  lemma {:induction false} RankedInOrder(s: set<nat>, score: Score, i: nat, j: nat)
    requires i < j < |Ranked(s, score)|
    ensures Before(score, Ranked(s, score)[i], Ranked(s, score)[j])
    decreases s
  {
    var m := First(s, score);
    var rest := Ranked(s - {m}, score);
    if i == 0 {
      assert Ranked(s, score)[j] == rest[j - 1] && rest[j - 1] in s - {m};
    } else {
      RankedInOrder(s - {m}, score, i - 1, j - 1);
    }
  }

  predicate AllIn(part: set<nat>, r: seq<nat>) { forall n :: n in part ==> n in r }

  /** When every member of `part` ranks before the others, a cut at k keeps all of
      `part` exactly when k reaches its size. */
  lemma {:induction false} CutKeeps(s: set<nat>, score: Score, part: set<nat>, k: nat)
    requires part <= s && k <= |s|
    requires forall a, b :: a in part && b in s - part ==> Before(score, a, b)
    ensures AllIn(part, Ranked(s, score)[..k]) <==> |part| <= k
    decreases s
  {
    var r := Ranked(s, score);
    if part == {} {
    } else if k == 0 {
      var a :| a in part;
      assert a !in r[..0];
      assert |part| > 0;
    } else {
      var m := First(s, score);
      FirstInPart(s, score, part);
      var rest := Ranked(s - {m}, score);
      CutKeeps(s - {m}, score, part - {m}, k - 1);
      assert r[..k] == [m] + rest[..k - 1];
      assert AllIn(part, r[..k]) <==> AllIn(part - {m}, rest[..k - 1]) by {
        CutTail(part, k, m, rest);
      }
      assert |part - {m}| == |part| - 1;
    }
  }

  lemma FirstInPart(s: set<nat>, score: Score, part: set<nat>)
    requires {} != part <= s && forall a, b :: a in part && b in s - part ==> Before(score, a, b)
    ensures First(s, score) in part
  {
    var m := First(s, score);
    var a :| a in part;
    assert m != a ==> Before(score, m, a);
    assert m !in part ==> Before(score, a, m);
  }

  lemma CutTail(part: set<nat>, k: nat, m: nat, rest: seq<nat>)
    requires m in part && 0 < k <= |rest| + 1 && m !in rest
    ensures AllIn(part, ([m] + rest)[..k]) <==> AllIn(part - {m}, rest[..k - 1])
  {
    var cut := ([m] + rest)[..k];
    assert cut == [m] + rest[..k - 1];
    assert forall n :: n in cut <==> n == m || n in rest[..k - 1];
  }
}
