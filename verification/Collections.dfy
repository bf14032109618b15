/** Filtering comprehensions and dictionaries keyed by identifier. */
module Collections {

  /** `{item.id: item for item in items}`: the last item with an identifier wins. */
  function ById<T>(items: seq<T>, id: T -> nat): map<nat, T>
  {
    if items == [] then map[] else
      var last := items[|items| - 1];
      ById(items[..|items| - 1], id)[id(last) := last]
  }

  function Keep<T>(items: seq<T>, keep: T -> bool): seq<T> {
    if items == [] then [] else
      var last := items[|items| - 1];
      Keep(items[..|items| - 1], keep) + (if keep(last) then [last] else [])
  }

  lemma {:induction false} KeepMembers<T>(items: seq<T>, keep: T -> bool, x: T)
    ensures x in Keep(items, keep) <==> x in items && keep(x)
  {
    if items != [] {
      var init := items[..|items| - 1];
      KeepMembers(init, keep, x);
      assert items == init + [items[|items| - 1]];
    }
  }

  lemma {:induction false} KeepTwice<T>(items: seq<T>, p: T -> bool, q: T -> bool, q': T -> bool)
    requires forall x :: x in items ==> q(x) == q'(x)
    requires forall x :: x in items && q(x) ==> p(x)
    ensures Keep(Keep(items, p), q') == Keep(items, q)
  {
    if items != [] {
      var init, last := items[..|items| - 1], items[|items| - 1];
      KeepTwice(init, p, q, q');
      var kept := Keep(init, p);
      if p(last) {
        assert Keep(items, p) == kept + [last];
        assert (kept + [last])[..|kept|] == kept;
      } else {
        assert Keep(items, p) == kept;
      }
    }
  }

  lemma KeepSame<T>(items: seq<T>, p: T -> bool, q: T -> bool)
    requires forall x :: x in items ==> p(x) == q(x)
    ensures Keep(items, p) == Keep(items, q)
  {
    KeepAll(items);
    KeepTwice(items, x => true, p, q);
  }

  lemma {:induction false} KeepAll<T>(items: seq<T>)
    ensures Keep(items, x => true) == items
  {
    if items != [] { KeepAll(items[..|items| - 1]); }
  }

  lemma {:induction false} DictionaryKey<T>(items: seq<T>, id: T -> nat, k: nat)
    ensures k in ById(items, id) <==> exists x :: x in items && id(x) == k
    ensures k in ById(items, id) ==> ById(items, id)[k] in items && id(ById(items, id)[k]) == k
  {
    if items != [] {
      var init, last := items[..|items| - 1], items[|items| - 1];
      DictionaryKey(init, id, k);
      assert items == init + [last];
      assert last in items;
      if exists x :: x in init && id(x) == k {
        var x :| x in init && id(x) == k;
        assert x in items;
      }
    }
  }

  lemma SubsetSize<T>(a: set<T>, b: set<T>)
    requires a <= b
    ensures |a| <= |b|
  {
    assert b == a + (b - a);
  }

  /** A sequence repeats nothing exactly when it has as many elements as its set. */
  lemma {:induction false} CountDistinct<T>(s: seq<T>)
    ensures |set i | 0 <= i < |s| :: s[i]| <= |s|
    ensures |set i | 0 <= i < |s| :: s[i]| == |s| <==> forall i, j :: 0 <= i < j < |s| ==> s[i] != s[j]
  {
    if s != [] {
      var n := |s| - 1;
      CountDistinct(s[..n]);
      var init, all := set i | 0 <= i < n :: s[..n][i], set i | 0 <= i < |s| :: s[i];
      forall x ensures x in all <==> x in init || x == s[n] {
        if x in all {
          var k :| 0 <= k < |s| && s[k] == x;
          if k < n { assert s[..n][k] == x; }
        }
        if x in init {
          var k :| 0 <= k < n && s[..n][k] == x;
          assert s[k] == x;
        }
      }
      assert all == init + {s[n]};
      if s[n] in init {
        var k :| 0 <= k < n && s[..n][k] == s[n];
        assert s[k] == s[n];
      }
    }
  }
}
