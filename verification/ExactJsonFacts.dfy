/** What acceptance by the exact-JSON check means for every value the graph reaches. */
module ExactJsonFacts {
  import opened Common
  import opened ExactJson
  import Utf8

  // ----- Paths into the graph

  /** The value at a path of child positions; a dictionary's children are its values. */
  function At(h: Heap, v: Value, path: seq<nat>): Option<Value>
    decreases |path|
  {
    if path == [] then Some(v)
    else if !v.Ref? || v.id !in h then None
    else match h[v.id]
      case List(items) => if path[0] < |items| then At(h, items[path[0]], path[1..]) else None
      case Dict(entries) => if path[0] < |entries| then At(h, entries[path[0]].1, path[1..]) else None
  }

  /** A Unicode scalar value. */
  predicate ScalarValue(c: nat) { c < 0xD800 || 0xE000 <= c < 0x110000 }

  predicate ProperText(s: CodePoints) { forall i :: 0 <= i < |s| ==> ScalarValue(s[i]) }

  /** What a reached value may be. */
  predicate Proper(h: Heap, v: Value) {
    match v
    case Null => true
    case Boolean => true
    case Integer => true
    case Float(finite) => finite
    case Str(text) => ProperText(text)
    case Other => false
    case Ref(id) =>
      && id in h
      && (h[id].Dict? ==>
            forall i :: 0 <= i < |h[id].entries| ==> h[id].entries[i].0.TextKey? && ProperText(h[id].entries[i].0.text))
  }

  lemma {:induction false} TreePaths(h: Heap, v: Value, d: nat, t: Tree, path: seq<nat>)
    requires Unfolds(h, v, d, t) && At(h, v, path).Some?
    ensures d + |path| <= 128 && Proper(h, At(h, v, path).value)
    ensures At(h, v, path).value.Ref? ==> At(h, v, path).value.id in Ids(t)
    decreases |path|
  {
    if path != [] {
      var kids := t.kids;
      var i := path[0];
      assert Children(h[v.id])[i] == match h[v.id] case List(items) => items[i] case Dict(entries) => entries[i].1;
      TreePaths(h, Children(h[v.id])[i], d + 1, kids[i], path[1..]);
      IdsOfKid(kids, i);
    } else if v.Ref? {
      assert LegalKeys(Entries(h[v.id]));
    }
  }

  lemma {:induction false} IdsOfKid(kids: seq<Tree>, i: nat)
    requires i < |kids|
    ensures forall x :: x in Ids(kids[i]) ==> x in IdsAll(kids)
  {
    if i < |kids| - 1 { IdsOfKid(kids[..|kids| - 1], i); }
  }

  /** Distinct containers in a forest lie in different trees. */
  lemma {:induction false} KidsApart(kids: seq<Tree>, i: nat, j: nat, x: nat)
    requires i < j < |kids| && Distinct(IdsAll(kids)) && x in Ids(kids[i])
    ensures x !in Ids(kids[j])
  {
    var n := |kids| - 1;
    var front, last := IdsAll(kids[..n]), Ids(kids[n]);
    assert IdsAll(kids) == front + last;
    DistinctParts(front, last);
    if j == n { IdsOfKid(kids[..n], i); } else { KidsApart(kids[..n], i, j, x); }
  }

  lemma DistinctParts(a: seq<nat>, b: seq<nat>)
    requires Distinct(a + b)
    ensures Distinct(a) && Distinct(b) && forall x :: x in a ==> x !in b
  {
    var s := a + b;
    forall i, j | 0 <= i < j < |a| ensures a[i] != a[j] { assert s[i] == a[i] && s[j] == a[j]; }
    forall i, j | 0 <= i < j < |b| ensures b[i] != b[j] { assert s[|a| + i] == b[i] && s[|a| + j] == b[j]; }
    forall x | x in a ensures x !in b {
      var i :| 0 <= i < |a| && a[i] == x;
      forall j | 0 <= j < |b| ensures b[j] != x { assert s[i] == x && s[|a| + j] == b[j]; }
    }
  }

  lemma {:induction false} KidDistinct(kids: seq<Tree>, i: nat)
    requires i < |kids| && Distinct(IdsAll(kids))
    ensures Distinct(Ids(kids[i]))
  {
    var n := |kids| - 1;
    assert IdsAll(kids) == IdsAll(kids[..n]) + Ids(kids[n]);
    DistinctParts(IdsAll(kids[..n]), Ids(kids[n]));
    if i < n { KidDistinct(kids[..n], i); }
  }

  lemma {:induction false} TreeUnshared(h: Heap, v: Value, d: nat, t: Tree, p: seq<nat>, q: seq<nat>)
    requires Unfolds(h, v, d, t) && Distinct(Ids(t)) && At(h, v, p).Some? && At(h, v, p) == At(h, v, q)
    requires At(h, v, p).value.Ref?
    ensures p == q
    decreases |p|
  {
    var x := At(h, v, p).value.id;
    if p == [] && q != [] {
      InKids(h, v, d, t, q);
    } else if p != [] && q == [] {
      InKids(h, v, d, t, p);
    } else if p != [] {
      InKids(h, v, d, t, p);
      InKids(h, v, d, t, q);
      var kids := t.kids;
      DistinctParts([t.id], IdsAll(kids));
      if p[0] < q[0] { KidsApart(kids, p[0], q[0], x); }
      if q[0] < p[0] { KidsApart(kids, q[0], p[0], x); }
      KidDistinct(kids, p[0]);
      TreeUnshared(h, Children(h[v.id])[p[0]], d + 1, kids[p[0]], p[1..], q[1..]);
      assert p == [p[0]] + p[1..] && q == [q[0]] + q[1..];
    }
  }

  /** A container at a proper path is in the branch that the path takes. */
  lemma InKids(h: Heap, v: Value, d: nat, t: Tree, p: seq<nat>)
    requires Unfolds(h, v, d, t) && Distinct(Ids(t)) && p != [] && At(h, v, p).Some? && At(h, v, p).value.Ref?
    ensures t.Branch? && p[0] < |t.kids| && v == Ref(t.id) && t.id in h && p[0] < |Children(h[t.id])|
    ensures At(h, v, p) == At(h, Children(h[t.id])[p[0]], p[1..])
    ensures At(h, v, p).value.id in Ids(t.kids[p[0]]) && At(h, v, p).value.id != t.id
  {
    var i := p[0];
    assert Children(h[v.id])[i] == match h[v.id] case List(items) => items[i] case Dict(entries) => entries[i].1;
    TreePaths(h, Children(h[v.id])[i], d + 1, t.kids[i], p[1..]);
    IdsOfKid(t.kids, i);
    DistinctParts([t.id], IdsAll(t.kids));
    assert t.id in [t.id];
  }

  /** Every value an accepted graph reaches is at most 128 levels deep and an exact JSON built-in
      with string keys, and no container is reached along two paths. */
  lemma AcceptedPaths(h: Heap, root: Value, maximumBytes: int, p: seq<nat>, q: seq<nat>)
    requires IsExactJson(h, root, maximumBytes) && At(h, root, p).Some?
    ensures |p| <= 128 && Proper(h, At(h, root, p).value)
    ensures At(h, root, q) == At(h, root, p) && At(h, root, p).value.Ref? ==> p == q
  {
    var t :| Unfolds(h, root, 0, t) && Distinct(Ids(t)) && Size(h, t) <= MAX_JSON_NODES && Bytes(h, t) <= maximumBytes;
    TreePaths(h, root, 0, t, p);
    if At(h, root, q) == At(h, root, p) && At(h, root, p).value.Ref? { TreeUnshared(h, root, 0, t, p, q); }
  }

  /** A root that is not a container is accepted exactly for these values; a string is charged the
      bytes of its UTF-8 encoding. */
  lemma LeafAccepted(h: Heap, v: Value, maximumBytes: int)
    requires !v.Ref? && 0 <= maximumBytes
    ensures v.Str? && ProperText(v.text) ==> Utf8.Encodable(v.text)
    ensures IsExactJson(h, v, maximumBytes) <==>
              match v
              case Null => true
              case Boolean => true
              case Integer => true
              case Float(finite) => finite
              case Str(text) => ProperText(text) && |Utf8.Encode(text)| <= maximumBytes
              case _ => false
  {
    var t := Leaf(v);
    assert Unfolds(h, v, 0, t) <==> LegalLeaf(v);
    if IsExactJson(h, v, maximumBytes) {
      var u :| Unfolds(h, v, 0, u) && Bytes(h, u) <= maximumBytes;
      assert u == t;
    }
    if LegalLeaf(v) && LeafBytes(v) <= maximumBytes {
      assert Unfolds(h, v, 0, t) && Distinct(Ids(t)) && Size(h, t) <= MAX_JSON_NODES && Bytes(h, t) <= maximumBytes;
    }
  }

  /** The levels a tree may use and the nodes plus keys it may have. */
  lemma Limits(h: Heap, root: Value, d: nat, maximumBytes: int)
    ensures Unfolds(h, Null, d, Leaf(Null)) <==> d <= 128
    ensures IsExactJson(h, root, maximumBytes) <==>
              exists t :: Unfolds(h, root, 0, t) && Distinct(Ids(t)) && Size(h, t) <= 65536 &&
                  Bytes(h, t) <= maximumBytes
  {
    if IsExactJson(h, root, maximumBytes) {
      var t :| Unfolds(h, root, 0, t) && Distinct(Ids(t)) && Size(h, t) <= MAX_JSON_NODES &&
          Bytes(h, t) <= maximumBytes;
      assert Size(h, t) <= 65536;
    }
    if exists t :: Unfolds(h, root, 0, t) && Distinct(Ids(t)) && Size(h, t) <= 65536 && Bytes(h, t) <= maximumBytes {
      var t :| Unfolds(h, root, 0, t) && Distinct(Ids(t)) && Size(h, t) <= 65536 && Bytes(h, t) <= maximumBytes;
      assert Size(h, t) <= MAX_JSON_NODES;
    }
  }

  // ----- The byte and node bounds

  /** The keys of a dictionary, one after the other. */
  function KeyText(entries: seq<(Key, Value)>): CodePoints {
    if entries == [] then [] else
      KeyText(entries[..|entries| - 1])
      + match entries[|entries| - 1].0 { case TextKey(text) => text case OtherKey => [] }
  }

  /** Every key and string of a tree, one after the other. */
  ghost function AllText(h: Heap, t: Tree): CodePoints
    decreases t, 1
  {
    match t
    case Leaf(v) => if v.Str? then v.text else []
    case Branch(id, kids) => (if id in h then KeyText(Entries(h[id])) else []) + AllTexts(h, kids)
  }

  ghost function AllTexts(h: Heap, ts: seq<Tree>): CodePoints
    decreases ts, 0
  {
    if ts == [] then [] else AllTexts(h, ts[..|ts| - 1]) + AllText(h, ts[|ts| - 1])
  }

  lemma {:induction false} EncodeConcat(a: CodePoints, b: CodePoints)
    requires Utf8.Encodable(a) && Utf8.Encodable(b)
    ensures Utf8.Encodable(a + b) && Utf8.Encode(a + b) == Utf8.Encode(a) + Utf8.Encode(b)
  {
    if a == [] {
      assert a + b == b;
    } else {
      EncodeConcat(a[1..], b);
      assert (a + b)[1..] == a[1..] + b && (a + b)[0] == a[0];
    }
  }

  lemma {:induction false} KeysCharged(entries: seq<(Key, Value)>)
    requires LegalKeys(entries)
    ensures Utf8.Encodable(KeyText(entries)) && KeyBytes(entries) == |Utf8.Encode(KeyText(entries))|
  {
    if entries != [] {
      var init, key := entries[..|entries| - 1], entries[|entries| - 1].0;
      assert forall i :: 0 <= i < |init| ==> init[i] == entries[i];
      KeysCharged(init);
      EncodeConcat(KeyText(init), key.text);
    }
  }

  /** The byte bound is on the UTF-8 encoding of all keys and strings of the tree together. */
  lemma {:induction false} TextCharged(h: Heap, v: Value, d: nat, t: Tree)
    requires Unfolds(h, v, d, t)
    ensures Utf8.Encodable(AllText(h, t)) && Bytes(h, t) == |Utf8.Encode(AllText(h, t))|
    decreases t, 1
  {
    match t
    case Leaf(_) =>
    case Branch(id, kids) =>
      KeysCharged(Entries(h[id]));
      TextsCharged(h, Children(h[id]), d + 1, kids);
      EncodeConcat(KeyText(Entries(h[id])), AllTexts(h, kids));
  }

  lemma {:induction false} TextsCharged(h: Heap, values: seq<Value>, d: nat, ts: seq<Tree>)
    requires |values| == |ts| && forall i :: 0 <= i < |ts| ==> Unfolds(h, values[i], d, ts[i])
    ensures Utf8.Encodable(AllTexts(h, ts)) && BytesAll(h, ts) == |Utf8.Encode(AllTexts(h, ts))|
    decreases ts, 0
  {
    if ts != [] {
      var n := |ts| - 1;
      TextsCharged(h, values[..n], d, ts[..n]);
      TextCharged(h, values[n], d, ts[n]);
      EncodeConcat(AllTexts(h, ts[..n]), AllText(h, ts[n]));
    }
  }

  /** The strings among some values, one after the other. */
  function ValueText(values: seq<Value>): CodePoints {
    if values == [] then [] else
      ValueText(values[..|values| - 1])
      + match values[|values| - 1] { case Str(text) => text case _ => [] }
  }

  function Leaves(values: seq<Value>): seq<Tree> {
    seq(|values|, i requires 0 <= i < |values| => Leaf(values[i]))
  }

  lemma {:induction false} LeavesAre(h: Heap, values: seq<Value>)
    ensures SizeAll(h, Leaves(values)) == |values| && IdsAll(Leaves(values)) == []
    ensures AllTexts(h, Leaves(values)) == ValueText(values)
  {
    if values != [] {
      var n := |values| - 1;
      LeavesAre(h, values[..n]);
      assert Leaves(values)[..n] == Leaves(values[..n]) && Leaves(values)[n] == Leaf(values[n]);
    }
  }

  lemma FlatTree(h: Heap, id: nat, t: Tree)
    requires id in h && forall i :: 0 <= i < |Children(h[id])| ==> !Children(h[id])[i].Ref?
    requires Unfolds(h, Ref(id), 0, t)
    ensures t == Branch(id, Leaves(Children(h[id])))
  {
    var values := Children(h[id]);
    assert t.Branch? && t.id == id;
    forall i | 0 <= i < |t.kids| ensures t.kids[i] == Leaf(values[i]) { assert Unfolds(h, values[i], 1, t.kids[i]); }
    assert t.kids == Leaves(values);
  }

  /** A container of scalars is accepted exactly when its keys and values are, it counts one node and
      one for each key and value, and their encoding fits in the byte bound. */
  lemma FlatAccepted(h: Heap, id: nat, maximumBytes: int)
    requires id in h && forall i :: 0 <= i < |Children(h[id])| ==> !Children(h[id])[i].Ref?
    ensures var values, entries := Children(h[id]), Entries(h[id]);
            IsExactJson(h, Ref(id), maximumBytes) <==>
              && (forall i :: 0 <= i < |values| ==> Proper(h, values[i]))
              && (forall i :: 0 <= i < |entries| ==> entries[i].0.TextKey? && ProperText(entries[i].0.text))
              && 1 + |entries| + |values| <= 65536
              && ProperText(KeyText(entries) + ValueText(values))
              && |Utf8.Encode(KeyText(entries) + ValueText(values))| <= maximumBytes
  {
    var values, entries := Children(h[id]), Entries(h[id]);
    var t := Branch(id, Leaves(values));
    LeavesAre(h, values);
    assert Ids(t) == [id] && Size(h, t) == 1 + |entries| + |values|;
    assert AllText(h, t) == KeyText(entries) + ValueText(values);
    FlatUnfolds(h, id);
    if Unfolds(h, Ref(id), 0, t) { TextCharged(h, Ref(id), 0, t); }
    forall u | Unfolds(h, Ref(id), 0, u) ensures u == t { FlatTree(h, id, u); }
  }

  lemma FlatUnfolds(h: Heap, id: nat)
    requires id in h && forall i :: 0 <= i < |Children(h[id])| ==> !Children(h[id])[i].Ref?
    ensures var values, entries := Children(h[id]), Entries(h[id]);
            Unfolds(h, Ref(id), 0, Branch(id, Leaves(values))) <==>
              && (forall i :: 0 <= i < |values| ==> Proper(h, values[i]))
              && (forall i :: 0 <= i < |entries| ==> entries[i].0.TextKey? && ProperText(entries[i].0.text))
  {
    var values, entries := Children(h[id]), Entries(h[id]);
    forall i | 0 <= i < |values| ensures Unfolds(h, values[i], 1, Leaves(values)[i]) <==> Proper(h, values[i]) {}
    assert LegalKeys(entries) <==>
        forall i :: 0 <= i < |entries| ==> entries[i].0.TextKey? && ProperText(entries[i].0.text);
  }
}
