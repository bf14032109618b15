/** The bounded, unaliased JSON check of the browser control plane
    (control_plane/http_models.py): an explicit-stack traversal of an object graph
    that may share containers or contain cycles. */
module ExactJson {
  import opened Common
  import Utf8

  const MAX_JSON_DEPTH := 128
  const MAX_JSON_NODES := 65_536

  // ----- The object graph

  /** Strings are sequences of code points; a lone surrogate cannot be encoded. */
  type CodePoints = seq<nat>

  datatype Key = TextKey(text: CodePoints) | OtherKey

  /** `Other` is any object that is not exactly a JSON built-in. */
  datatype Value = Null | Boolean | Integer | Float(finite: bool) | Str(text: CodePoints) | Ref(id: nat) | Other

  datatype Node = Dict(entries: seq<(Key, Value)>) | List(items: seq<Value>)

  type Heap = map<nat, Node>

  predicate Encodable(s: CodePoints) { Utf8.Encodable(s) }

  /** The bytes of the UTF-8 encoding; a string without one is never charged. */
  function EncodedLength(s: CodePoints): nat { if Encodable(s) then |Utf8.Encode(s)| else 0 }

  function Utf8Width(c: nat): nat { if c < 0x80 then 1 else if c < 0x800 then 2 else if c < 0x10000 then 3 else 4 }

  function Utf8Length(s: CodePoints): nat {
    if s == [] then 0 else Utf8Width(s[0]) + Utf8Length(s[1..])
  }

  /** What the check charges for a string is the length of its encoding. */
  lemma {:induction false} ChargesEncoding(s: CodePoints)
    requires Encodable(s)
    ensures Utf8Length(s) == |Utf8.Encode(s)| == EncodedLength(s)
  {
    if s != [] { ChargesEncoding(s[1..]); }
  }

  function Values(entries: seq<(Key, Value)>): seq<Value> {
    seq(|entries|, i requires 0 <= i < |entries| => entries[i].1)
  }

  function Children(n: Node): seq<Value> {
    match n case Dict(entries) => Values(entries) case List(items) => items
  }

  function Entries(n: Node): seq<(Key, Value)> {
    match n case Dict(entries) => entries case List(_) => []
  }

  /** Memory has no dangling references. */
  ghost predicate Closed(h: Heap, root: Value) {
    && (root.Ref? ==> root.id in h)
    && forall id {:trigger KnownNode(h, id)} :: id in h ==> KnownNode(h, id)
  }

  ghost predicate KnownNode(h: Heap, id: nat) { id in h && AllKnown(h, Children(h[id])) }

  ghost predicate AllKnown(h: Heap, values: seq<Value>) {
    forall i :: 0 <= i < |values| && values[i].Ref? ==> values[i].id in h
  }

  // ----- Reference definition: the graph unfolds into a small enough tree

  datatype Tree = Leaf(value: Value) | Branch(id: nat, kids: seq<Tree>)

  predicate LegalLeaf(v: Value) {
    match v
    case Null => true case Boolean => true case Integer => true
    case Float(finite) => finite
    case Str(text) => Encodable(text)
    case _ => false
  }

  predicate LegalKey(k: Key) { k.TextKey? && Encodable(k.text) }

  predicate LegalKeys(entries: seq<(Key, Value)>) { forall i :: 0 <= i < |entries| ==> LegalKey(entries[i].0) }

  function KeyWidth(k: Key): nat { if k.TextKey? then EncodedLength(k.text) else 0 }

  function KeyBytes(entries: seq<(Key, Value)>): nat {
    if entries == [] then 0 else KeyBytes(entries[..|entries| - 1]) + KeyWidth(entries[|entries| - 1].0)
  }

  function LeafBytes(v: Value): nat { if v.Str? then EncodedLength(v.text) else 0 }

  /** t is the tree that v unfolds into, every node legal, the root at depth d. */
  ghost predicate Unfolds(h: Heap, v: Value, d: nat, t: Tree)
    decreases t
  {
    && d <= MAX_JSON_DEPTH
    && match t
       case Leaf(value) => v == value && LegalLeaf(v)
       case Branch(id, kids) =>
         && v == Ref(id) && id in h
         && LegalKeys(Entries(h[id]))
         && |kids| == |Children(h[id])|
         && forall i :: 0 <= i < |kids| ==> Unfolds(h, Children(h[id])[i], d + 1, kids[i])
  }

  /** Nodes plus dictionary keys. */
  ghost function Size(h: Heap, t: Tree): nat
    decreases t, 1
  {
    match t
    case Leaf(_) => 1
    case Branch(id, kids) => 1 + (if id in h then |Entries(h[id])| else 0) + SizeAll(h, kids)
  }

  ghost function SizeAll(h: Heap, ts: seq<Tree>): nat
    decreases ts, 0
  {
    if ts == [] then 0 else SizeAll(h, ts[..|ts| - 1]) + Size(h, ts[|ts| - 1])
  }

  /** UTF-8 bytes of all strings and keys. */
  ghost function Bytes(h: Heap, t: Tree): nat
    decreases t, 1
  {
    match t
    case Leaf(v) => LeafBytes(v)
    case Branch(id, kids) => (if id in h then KeyBytes(Entries(h[id])) else 0) + BytesAll(h, kids)
  }

  ghost function BytesAll(h: Heap, ts: seq<Tree>): nat
    decreases ts, 0
  {
    if ts == [] then 0 else BytesAll(h, ts[..|ts| - 1]) + Bytes(h, ts[|ts| - 1])
  }

  /** The containers of a tree, with repetitions. */
  ghost function Ids(t: Tree): seq<nat>
    decreases t, 1
  {
    match t case Leaf(_) => [] case Branch(id, kids) => [id] + IdsAll(kids)
  }

  ghost function IdsAll(ts: seq<Tree>): seq<nat>
    decreases ts, 0
  {
    if ts == [] then [] else IdsAll(ts[..|ts| - 1]) + Ids(ts[|ts| - 1])
  }

  /** The value is a tree of exact JSON built-ins: no container is reached twice, keys are
      strings, leaves are legal, and depth, nodes plus keys and UTF-8 bytes are bounded. */
  ghost predicate IsExactJson(h: Heap, root: Value, maximumBytes: int) {
    exists t ::
      && Unfolds(h, root, 0, t)
      && Distinct(Ids(t))
      && Size(h, t) <= MAX_JSON_NODES
      && Bytes(h, t) <= maximumBytes
  }

  // ----- What is left to check, as a forest

  datatype Task = Task(value: Value, depth: nat)

  datatype Budget = Budget(seen: set<nat>, nodes: nat, bytes: nat)

  ghost predicate UnfoldsAll(h: Heap, todo: seq<Task>, ts: seq<Tree>) {
    && |ts| == |todo|
    && forall i :: 0 <= i < |todo| ==> UnfoldsAt(h, todo[i], ts[i])
  }

  ghost predicate UnfoldsAt(h: Heap, x: Task, t: Tree) { Unfolds(h, x.value, x.depth, t) }

  ghost predicate Fits(h: Heap, todo: seq<Task>, b: Budget, maximumBytes: int, ts: seq<Tree>) {
    && UnfoldsAll(h, todo, ts)
    && b.nodes + SizeAll(h, ts) <= MAX_JSON_NODES
    && b.bytes + BytesAll(h, ts) <= maximumBytes
    && Distinct(IdsAll(ts))
    && forall i :: 0 <= i < |IdsAll(ts)| ==> IdsAll(ts)[i] !in b.seen
  }

  ghost predicate Accepts(h: Heap, todo: seq<Task>, b: Budget, maximumBytes: int) {
    exists ts :: Fits(h, todo, b, maximumBytes, ts)
  }

  lemma AllSnoc(h: Heap, ts: seq<Tree>, t: Tree)
    ensures SizeAll(h, ts + [t]) == SizeAll(h, ts) + Size(h, t)
    ensures BytesAll(h, ts + [t]) == BytesAll(h, ts) + Bytes(h, t)
    ensures IdsAll(ts + [t]) == IdsAll(ts) + Ids(t)
  {}

  lemma {:induction false} AllConcat(h: Heap, a: seq<Tree>, b: seq<Tree>)
    ensures SizeAll(h, a + b) == SizeAll(h, a) + SizeAll(h, b)
    ensures BytesAll(h, a + b) == BytesAll(h, a) + BytesAll(h, b)
    ensures IdsAll(a + b) == IdsAll(a) + IdsAll(b)
    decreases |b|
  {
    if b == [] {
      assert a + b == a;
    } else {
      var front, last := b[..|b| - 1], b[|b| - 1];
      assert b == front + [last] && a + b == (a + front) + [last];
      AllConcat(h, a, front);
      AllSnoc(h, front, last);
      AllSnoc(h, a + front, last);
    }
  }

  lemma UnfoldsConcat(h: Heap, a: seq<Task>, c: seq<Task>, s: seq<Tree>, t: seq<Tree>)
    requires |a| == |s| && |c| == |t|
    ensures UnfoldsAll(h, a + c, s + t) <==> UnfoldsAll(h, a, s) && UnfoldsAll(h, c, t)
  {
    var ac, st := a + c, s + t;
    if UnfoldsAll(h, ac, st) {
      forall i | 0 <= i < |a| ensures UnfoldsAt(h, a[i], s[i]) {
        assert UnfoldsAt(h, ac[i], st[i]);
      }
      forall i | 0 <= i < |c| ensures UnfoldsAt(h, c[i], t[i]) {
        assert UnfoldsAt(h, ac[|a| + i], st[|a| + i]);
      }
    }
    if UnfoldsAll(h, a, s) && UnfoldsAll(h, c, t) {
      forall i | 0 <= i < |ac| ensures UnfoldsAt(h, ac[i], st[i]) {
        if i < |a| { assert UnfoldsAt(h, a[i], s[i]); } else { assert UnfoldsAt(h, c[i - |a|], t[i - |a|]); }
      }
    }
  }

  /** A forest for the last task alone. */
  lemma UnfoldsOne(h: Heap, x: Task, t: Tree)
    ensures UnfoldsAll(h, [x], [t]) <==> Unfolds(h, x.value, x.depth, t)
  {
    assert [x][0] == x && [t][0] == t;
  }

  lemma LeafFits(h: Heap, todo: seq<Task>, x: Task, b: Budget, maximumBytes: int, front: seq<Tree>)
    requires !x.value.Ref? && |front| == |todo|
    ensures Fits(h, todo + [x], b, maximumBytes, front + [Leaf(x.value)]) <==>
            && x.depth <= MAX_JSON_DEPTH
            && LegalLeaf(x.value)
            && Fits(h, todo, Budget(b.seen, b.nodes + 1, b.bytes + LeafBytes(x.value)), maximumBytes, front)
  {
    AllSnoc(h, front, Leaf(x.value));
    UnfoldsConcat(h, todo, [x], front, [Leaf(x.value)]);
    UnfoldsOne(h, x, Leaf(x.value));
    assert IdsAll(front) + Ids(Leaf(x.value)) == IdsAll(front);
  }

  /** The last tree of a fitting forest unfolds the last task. */
  lemma LastUnfolds(h: Heap, todo: seq<Task>, x: Task, ts: seq<Tree>)
    requires UnfoldsAll(h, todo + [x], ts)
    ensures |ts| == |todo| + 1 && ts == ts[..|todo|] + [ts[|todo|]]
    ensures Unfolds(h, x.value, x.depth, ts[|todo|])
  {}

  /** Peeling a legal leaf off the todo list. */
  lemma AcceptsLeaf(h: Heap, todo: seq<Task>, x: Task, b: Budget, maximumBytes: int)
    requires !x.value.Ref?
    ensures Accepts(h, todo + [x], b, maximumBytes) <==>
            && x.depth <= MAX_JSON_DEPTH
            && LegalLeaf(x.value)
            && b.nodes + 1 <= MAX_JSON_NODES
            && b.bytes + LeafBytes(x.value) <= maximumBytes
            && Accepts(h, todo, Budget(b.seen, b.nodes + 1, b.bytes + LeafBytes(x.value)), maximumBytes)
  {
    var b' := Budget(b.seen, b.nodes + 1, b.bytes + LeafBytes(x.value));
    if Accepts(h, todo + [x], b, maximumBytes) {
      var ts: seq<Tree> :| Fits(h, todo + [x], b, maximumBytes, ts);
      LastUnfolds(h, todo, x, ts);
      LeafFits(h, todo, x, b, maximumBytes, ts[..|todo|]);
    }
    if x.depth <= MAX_JSON_DEPTH && LegalLeaf(x.value) && Accepts(h, todo, b', maximumBytes) {
      var ts: seq<Tree> :| Fits(h, todo, b', maximumBytes, ts);
      LeafFits(h, todo, x, b, maximumBytes, ts);
    }
  }

  function Tasks(values: seq<Value>, depth: nat): seq<Task> {
    seq(|values|, i requires 0 <= i < |values| => Task(values[i], depth))
  }

  function Opened(h: Heap, b: Budget, id: nat): Budget requires id in h {
    Budget(b.seen + {id}, b.nodes + 1 + |Entries(h[id])|, b.bytes + KeyBytes(Entries(h[id])))
  }

  lemma DistinctMove(a: seq<nat>, x: nat, c: seq<nat>)
    ensures Distinct(a + ([x] + c)) <==> Distinct(a + c) && x !in a + c
  {
    var s, u := a + ([x] + c), a + c;
    if Distinct(s) {
      forall i, j | 0 <= i < j < |u| ensures u[i] != u[j] {
        assert u[i] == s[if i < |a| then i else i + 1] && u[j] == s[if j < |a| then j else j + 1];
      }
      forall i | 0 <= i < |u| ensures u[i] != x {
        assert u[i] == s[if i < |a| then i else i + 1] && s[|a|] == x;
      }
    }
    if Distinct(u) && x !in u {
      forall i, j | 0 <= i < j < |s| ensures s[i] != s[j] {
        assert i != |a| ==> s[i] == u[if i < |a| then i else i - 1];
        assert j != |a| ==> s[j] == u[if j < |a| then j else j - 1];
      }
    }
  }

  /** Replacing an unfolded branch by its children, and back. */
  lemma BranchFits(h: Heap, todo: seq<Task>, x: Task, b: Budget, maximumBytes: int, front: seq<Tree>, kids: seq<Tree>)
    requires x.value.Ref? && x.value.id in h
    requires |front| == |todo| && |kids| == |Children(h[x.value.id])|
    ensures var id := x.value.id;
            Fits(h, todo + [x], b, maximumBytes, front + [Branch(id, kids)]) <==>
            && x.depth <= MAX_JSON_DEPTH
            && id !in b.seen
            && LegalKeys(Entries(h[id]))
            && Fits(h, todo + Tasks(Children(h[id]), x.depth + 1), Opened(h, b, id), maximumBytes, front + kids)
  {
    var id := x.value.id;
    var values := Children(h[id]);
    var t, tasks := Branch(id, kids), Tasks(values, x.depth + 1);
    AllSnoc(h, front, t);
    AllConcat(h, front, kids);
    DistinctMove(IdsAll(front), id, IdsAll(kids));
    UnfoldsConcat(h, todo, [x], front, [t]);
    UnfoldsOne(h, x, t);
    UnfoldsConcat(h, todo, tasks, front, kids);
    BranchUnfolds(h, x, kids);
    IdsAvoid(IdsAll(front), id, IdsAll(kids), b.seen);
  }

  lemma IdsAvoid(a: seq<nat>, x: nat, c: seq<nat>, seen: set<nat>)
    ensures (forall i :: 0 <= i < |a + ([x] + c)| ==> (a + ([x] + c))[i] !in seen) && x !in a + c <==>
            x !in seen && (forall i :: 0 <= i < |a + c| ==> (a + c)[i] !in seen + {x})
  {
    var s, u := a + ([x] + c), a + c;
    assert s[|a|] == x;
    assert forall i :: 0 <= i < |u| ==> u[i] == s[if i < |a| then i else i + 1];
    assert forall i :: 0 <= i < |s| && i != |a| ==> s[i] == u[if i < |a| then i else i - 1];
  }

  lemma BranchUnfolds(h: Heap, x: Task, kids: seq<Tree>)
    requires x.value.Ref? && x.value.id in h && |kids| == |Children(h[x.value.id])|
    ensures Unfolds(h, x.value, x.depth, Branch(x.value.id, kids)) <==>
            && x.depth <= MAX_JSON_DEPTH
            && LegalKeys(Entries(h[x.value.id]))
            && UnfoldsAll(h, Tasks(Children(h[x.value.id]), x.depth + 1), kids)
  {}

  ghost predicate Openable(h: Heap, x: Task, b: Budget, maximumBytes: int)
    requires x.value.Ref? && x.value.id in h
  {
    && x.depth <= MAX_JSON_DEPTH
    && x.value.id !in b.seen
    && LegalKeys(Entries(h[x.value.id]))
    && b.nodes + 1 + |Entries(h[x.value.id])| <= MAX_JSON_NODES
    && b.bytes + KeyBytes(Entries(h[x.value.id])) <= maximumBytes
  }

  lemma RefOpens(h: Heap, todo: seq<Task>, x: Task, b: Budget, maximumBytes: int)
    requires x.value.Ref? && x.value.id in h && Accepts(h, todo + [x], b, maximumBytes)
    ensures Openable(h, x, b, maximumBytes)
    ensures Accepts(h, todo + Tasks(Children(h[x.value.id]), x.depth + 1), Opened(h, b, x.value.id), maximumBytes)
  {
    var id := x.value.id;
    var ts: seq<Tree> :| Fits(h, todo + [x], b, maximumBytes, ts);
    LastUnfolds(h, todo, x, ts);
    var front, t := ts[..|todo|], ts[|todo|];
    assert t == Branch(id, t.kids);
    BranchFits(h, todo, x, b, maximumBytes, front, t.kids);
    assert Fits(h, todo + Tasks(Children(h[id]), x.depth + 1), Opened(h, b, id), maximumBytes, front + t.kids);
  }

  lemma RefCloses(h: Heap, todo: seq<Task>, x: Task, b: Budget, maximumBytes: int)
    requires x.value.Ref? && x.value.id in h && Openable(h, x, b, maximumBytes)
    requires Accepts(h, todo + Tasks(Children(h[x.value.id]), x.depth + 1), Opened(h, b, x.value.id), maximumBytes)
    ensures Accepts(h, todo + [x], b, maximumBytes)
  {
    var id := x.value.id;
    var after := todo + Tasks(Children(h[id]), x.depth + 1);
    var ts: seq<Tree> :| Fits(h, after, Opened(h, b, id), maximumBytes, ts);
    RefFits(h, todo, x, b, maximumBytes, ts);
  }

  lemma RefFits(h: Heap, todo: seq<Task>, x: Task, b: Budget, maximumBytes: int, ts: seq<Tree>)
    requires x.value.Ref? && x.value.id in h && Openable(h, x, b, maximumBytes)
    requires Fits(h, todo + Tasks(Children(h[x.value.id]), x.depth + 1), Opened(h, b, x.value.id), maximumBytes, ts)
    ensures |ts| >= |todo|
    ensures Fits(h, todo + [x], b, maximumBytes, ts[..|todo|] + [Branch(x.value.id, ts[|todo|..])])
  {
    var front, kids := ts[..|todo|], ts[|todo|..];
    assert ts == front + kids;
    BranchFits(h, todo, x, b, maximumBytes, front, kids);
  }

  /** Opening an unseen container in place of the reference to it. */
  lemma AcceptsRef(h: Heap, todo: seq<Task>, x: Task, b: Budget, maximumBytes: int)
    requires x.value.Ref? && x.value.id in h
    ensures Accepts(h, todo + [x], b, maximumBytes) <==>
            && Openable(h, x, b, maximumBytes)
            && Accepts(h, todo + Tasks(Children(h[x.value.id]), x.depth + 1), Opened(h, b, x.value.id), maximumBytes)
  {
    if Accepts(h, todo + [x], b, maximumBytes) {
      RefOpens(h, todo, x, b, maximumBytes);
    } else if Openable(h, x, b, maximumBytes)
              && Accepts(h, todo + Tasks(Children(h[x.value.id]), x.depth + 1), Opened(h, b, x.value.id),
                  maximumBytes) {
      RefCloses(h, todo, x, b, maximumBytes);
    }
  }

  lemma AcceptsNothing(h: Heap, b: Budget, maximumBytes: int)
    requires b.nodes <= MAX_JSON_NODES && b.bytes <= maximumBytes
    ensures Accepts(h, [], b, maximumBytes)
  {
    assert Fits(h, [], b, maximumBytes, []);
  }

  lemma FitsRoot(h: Heap, root: Value, maximumBytes: int, t: Tree)
    ensures Fits(h, [Task(root, 0)], Budget({}, 0, 0), maximumBytes, [t]) <==>
            Unfolds(h, root, 0, t) && Distinct(Ids(t)) && Size(h, t) <= MAX_JSON_NODES && Bytes(h, t) <= maximumBytes
  {
    AllSnoc(h, [], t);
    var none: seq<Tree> := [];
    assert none + [t] == [t];
    assert IdsAll([t]) == Ids(t);
    UnfoldsOne(h, Task(root, 0), t);
  }

  /** The initial task list stands for the definition. */
  lemma AcceptsRoot(h: Heap, root: Value, maximumBytes: int)
    ensures Accepts(h, [Task(root, 0)], Budget({}, 0, 0), maximumBytes) <==> IsExactJson(h, root, maximumBytes)
  {
    if Accepts(h, [Task(root, 0)], Budget({}, 0, 0), maximumBytes) {
      var ts: seq<Tree> :| Fits(h, [Task(root, 0)], Budget({}, 0, 0), maximumBytes, ts);
      assert ts == [ts[0]];
      FitsRoot(h, root, maximumBytes, ts[0]);
    }
    if IsExactJson(h, root, maximumBytes) {
      var t :| Unfolds(h, root, 0, t) && Distinct(Ids(t)) && Size(h, t) <= MAX_JSON_NODES &&
          Bytes(h, t) <= maximumBytes;
      FitsRoot(h, root, maximumBytes, t);
    }
  }

  // ----- The traversal

  datatype Entry = Entry(value: Value, depth: nat, leaving: bool)

  /** The entries still to be visited. */
  function Visits(pending: seq<Entry>): seq<Task> {
    if pending == [] then []
    else var e := pending[|pending| - 1];
      Visits(pending[..|pending| - 1]) + (if e.leaving then [] else [Task(e.value, e.depth)])
  }

  /** The containers that are open on the stack. */
  ghost function Marks(pending: seq<Entry>): seq<nat> {
    if pending == [] then []
    else var e := pending[|pending| - 1];
      Marks(pending[..|pending| - 1]) + (if e.leaving && e.value.Ref? then [e.value.id] else [])
  }

  ghost function SetOf(s: seq<nat>): set<nat> { set x | x in s }

  lemma PushEntry(pending: seq<Entry>, e: Entry)
    ensures Visits(pending + [e]) == Visits(pending) + (if e.leaving then [] else [Task(e.value, e.depth)])
    ensures Marks(pending + [e]) == Marks(pending) + (if e.leaving && e.value.Ref? then [e.value.id] else [])
  {}

  /** Pushing the children of a container in order. */
  function Push(pending: seq<Entry>, values: seq<Value>, depth: nat): seq<Entry> {
    if values == [] then pending
    else Push(pending, values[..|values| - 1], depth) + [Entry(values[|values| - 1], depth, false)]
  }

  lemma {:induction false} PushVisits(pending: seq<Entry>, values: seq<Value>, depth: nat)
    ensures Visits(Push(pending, values, depth)) == Visits(pending) + Tasks(values, depth)
    ensures Marks(Push(pending, values, depth)) == Marks(pending)
  {
    if values != [] {
      var front := values[..|values| - 1];
      PushVisits(pending, front, depth);
      PushEntry(Push(pending, front, depth), Entry(values[|values| - 1], depth, false));
      assert Tasks(values, depth) == Tasks(front, depth) + [Task(values[|values| - 1], depth)];
    }
  }

  ghost predicate StackKnown(h: Heap, pending: seq<Entry>) {
    forall i :: 0 <= i < |pending| ==>
      && (pending[i].value.Ref? ==> pending[i].value.id in h)
      && (pending[i].leaving ==> pending[i].value.Ref?)
  }

  lemma {:induction false} PushKnown(h: Heap, pending: seq<Entry>, values: seq<Value>, depth: nat)
    requires StackKnown(h, pending) && AllKnown(h, values)
    ensures StackKnown(h, Push(pending, values, depth))
  {
    if values != [] {
      assert forall i :: 0 <= i < |values| - 1 ==> values[..|values| - 1][i] == values[i];
      PushKnown(h, pending, values[..|values| - 1], depth);
    }
  }

  lemma KeyBytesSnoc(entries: seq<(Key, Value)>, k: nat)
    requires k < |entries|
    ensures KeyBytes(entries[..k + 1]) == KeyBytes(entries[..k]) + KeyWidth(entries[k].0)
  {
    assert entries[..k + 1][..k] == entries[..k];
  }

  lemma {:induction false} KeyBytesGrow(entries: seq<(Key, Value)>, k: nat)
    requires k <= |entries|
    ensures KeyBytes(entries[..k]) <= KeyBytes(entries)
    decreases |entries|
  {
    if k == |entries| {
      assert entries[..k] == entries;
    } else {
      KeyBytesGrow(entries[..|entries| - 1], k);
      assert entries[..|entries| - 1][..k] == entries[..k];
    }
  }

  /** A key must be a string with an encoding, and adds its UTF-8 length. */
  method VisitKey(key: Key, bytes: nat) returns (legal: bool, bytes': nat)
    ensures legal <==> LegalKey(key)
    ensures legal ==> bytes' == bytes + KeyWidth(key)
  {
    if !key.TextKey? || !Encodable(key.text) {
      return false, bytes;
    }
    ChargesEncoding(key.text);
    return true, bytes + Utf8Length(key.text);
  }

  /** The loop over the items of a dictionary: false is the rejection. */
  method VisitEntries(entries: seq<(Key, Value)>, depth: nat, pending: seq<Entry>, nodes: nat, bytes: nat,
                      maximumBytes: int)
    returns (ok: bool, pending': seq<Entry>, nodes': nat, bytes': nat)
    requires nodes <= MAX_JSON_NODES && bytes <= maximumBytes
    ensures ok <==>
            && LegalKeys(entries)
            && nodes + |entries| <= MAX_JSON_NODES
            && bytes + KeyBytes(entries) <= maximumBytes
    ensures ok ==>
              && pending' == Push(pending, Values(entries), depth)
              && nodes' == nodes + |entries|
              && bytes' == bytes + KeyBytes(entries)
  {
    pending', nodes', bytes' := pending, nodes, bytes;
    var k := 0;
    while k < |entries|
      invariant 0 <= k <= |entries|
      invariant LegalKeys(entries[..k])
      invariant nodes' == nodes + k <= MAX_JSON_NODES
      invariant bytes' == bytes + KeyBytes(entries[..k]) <= maximumBytes
      invariant pending' == Push(pending, Values(entries[..k]), depth)
    {
      var (key, nested) := entries[k];
      KeyBytesSnoc(entries, k);
      KeyBytesGrow(entries, k + 1);
      var legal, charged := VisitKey(key, bytes');
      if !legal {
        return false, pending', nodes', bytes';
      }
      bytes' := charged;
      nodes' := nodes' + 1;
      if nodes' > MAX_JSON_NODES || bytes' > maximumBytes {
        return false, pending', nodes', bytes';
      }
      assert Values(entries[..k + 1])[..k] == Values(entries[..k]);
      pending' := pending' + [Entry(nested, depth, false)];
      k := k + 1;
    }
    assert entries[..k] == entries;
    return true, pending', nodes', bytes';
  }

  /** The open containers are exactly the active ones, each once, and all were seen. */
  ghost predicate StackInv(h: Heap, pending: seq<Entry>, active: set<nat>, seen: set<nat>) {
    StackKnown(h, pending) && Distinct(Marks(pending)) && SetOf(Marks(pending)) == active && active <= seen
  }

  /** Leaving a container: it is active, so removing it cannot fail. */
  lemma PopLeaving(h: Heap, pending: seq<Entry>, e: Entry, active: set<nat>, seen: set<nat>)
    requires StackInv(h, pending + [e], active, seen) && e.leaving
    ensures e.value.Ref? && e.value.id in active
    ensures StackInv(h, pending, active - {e.value.id}, seen)
    ensures Visits(pending + [e]) == Visits(pending)
  {
    var all := pending + [e];
    assert all[|pending|] == e;
    assert forall i :: 0 <= i < |pending| ==> all[i] == pending[i];
    PushEntry(pending, e);
    LeaveMark(Marks(pending), e.value.id);
    assert (Marks(pending) + [e.value.id])[|Marks(pending)|] == e.value.id;
  }

  lemma PopVisiting(h: Heap, pending: seq<Entry>, e: Entry, active: set<nat>, seen: set<nat>)
    requires StackInv(h, pending + [e], active, seen) && !e.leaving
    ensures e.value.Ref? ==> e.value.id in h
    ensures StackInv(h, pending, active, seen)
    ensures Visits(pending + [e]) == Visits(pending) + [Task(e.value, e.depth)]
  {
    var all := pending + [e];
    assert all[|pending|] == e;
    assert forall i :: 0 <= i < |pending| ==> all[i] == pending[i];
    PushEntry(pending, e);
    assert Marks(pending) + [] == Marks(pending);
  }

  lemma PushOpened(h: Heap, pending: seq<Entry>, e: Entry, active: set<nat>, seen: set<nat>)
    requires StackInv(h, pending, active, seen) && e.value.Ref? && e.value.id in h && e.value.id !in seen
    requires AllKnown(h, Children(h[e.value.id]))
    ensures var id := e.value.id;
            var stack := Push(pending + [Entry(e.value, e.depth, true)], Children(h[id]), e.depth + 1);
            && StackInv(h, stack, active + {id}, seen + {id})
            && Visits(stack) == Visits(pending) + Tasks(Children(h[id]), e.depth + 1)
  {
    var marker := Entry(e.value, e.depth, true);
    var values := Children(h[e.value.id]);
    EnterMark(Marks(pending), e.value.id);
    PushEntry(pending, marker);
    PushVisits(pending + [marker], values, e.depth + 1);
    PushKnown(h, pending + [marker], values, e.depth + 1);
    assert Visits(pending) + [] == Visits(pending);
  }

  /** Mark an unseen container as open and schedule its children. */
  method EnterContainer(h: Heap, e: Entry, pending: seq<Entry>, ghost active: set<nat>, ghost seen: set<nat>,
                        nodes: nat, bytes: nat, maximumBytes: int)
    returns (ok: bool, pending': seq<Entry>, nodes': nat, bytes': nat)
    requires e.value.Ref? && e.value.id in h && e.value.id !in seen
    requires AllKnown(h, Children(h[e.value.id])) && StackInv(h, pending, active, seen)
    requires nodes <= MAX_JSON_NODES && bytes <= maximumBytes
    ensures ok <==>
            && LegalKeys(Entries(h[e.value.id]))
            && nodes + |Entries(h[e.value.id])| <= MAX_JSON_NODES
            && bytes + KeyBytes(Entries(h[e.value.id])) <= maximumBytes
    ensures ok ==>
              && nodes' == nodes + |Entries(h[e.value.id])|
              && bytes' == bytes + KeyBytes(Entries(h[e.value.id]))
              && StackInv(h, pending', active + {e.value.id}, seen + {e.value.id})
              && Visits(pending') == Visits(pending) + Tasks(Children(h[e.value.id]), e.depth + 1)
  {
    PushOpened(h, pending, e, active, seen);
    pending' := pending + [Entry(e.value, e.depth, true)];
    match h[e.value.id] {
      case Dict(entries) =>
        ok, pending', nodes', bytes' := VisitEntries(entries, e.depth + 1, pending', nodes, bytes, maximumBytes);
      case List(items) =>
        ok, nodes', bytes' := true, nodes, bytes;
        pending' := Push(pending', items, e.depth + 1);
    }
  }

  lemma Initially(h: Heap, root: Value, maximumBytes: int) returns (answer: bool)
    requires Closed(h, root)
    ensures answer <==> IsExactJson(h, root, maximumBytes)
    ensures StackInv(h, [Entry(root, 0, false)], {}, {})
    ensures answer <==> Accepts(h, Visits([Entry(root, 0, false)]), Budget({}, 0, 0), maximumBytes)
  {
    answer := IsExactJson(h, root, maximumBytes);
    AcceptsRoot(h, root, maximumBytes);
    FirstEntry(h, root);
  }

  lemma FirstEntry(h: Heap, root: Value)
    requires Closed(h, root)
    ensures StackInv(h, [Entry(root, 0, false)], {}, {}) && Visits([Entry(root, 0, false)]) == [Task(root, 0)]
  {
    PushEntry([], Entry(root, 0, false));
    assert [] + [Entry(root, 0, false)] == [Entry(root, 0, false)];
  }

  /** Visit one popped value; false is the ValueError. */
  method Visit(h: Heap, e: Entry, pending: seq<Entry>, active: set<nat>, seen: set<nat>,
               nodes: nat, bytes: nat, maximumBytes: int)
    returns (ok: bool, pending': seq<Entry>, active': set<nat>, seen': set<nat>, nodes': nat, bytes': nat)
    requires e.value.Ref? ==> KnownNode(h, e.value.id)
    requires StackInv(h, pending, active, seen)
    requires nodes <= MAX_JSON_NODES && bytes <= maximumBytes
    ensures !ok ==> !Accepts(h, Visits(pending) + [Task(e.value, e.depth)], Budget(seen, nodes, bytes), maximumBytes)
    ensures ok ==>
              && nodes < nodes' <= MAX_JSON_NODES && bytes' <= maximumBytes
              && StackInv(h, pending', active', seen')
              && (Accepts(h, Visits(pending'), Budget(seen', nodes', bytes'), maximumBytes) <==>
                  Accepts(h, Visits(pending) + [Task(e.value, e.depth)], Budget(seen, nodes, bytes), maximumBytes))
  {
    pending', active', seen', nodes', bytes' := pending, active, seen, nodes + 1, bytes;
    if e.depth > MAX_JSON_DEPTH || nodes' > MAX_JSON_NODES {
      RefusesBeyond(h, Visits(pending), Task(e.value, e.depth), Budget(seen, nodes, bytes), maximumBytes);
      ok := false;
    } else if e.value.Ref? {
      ok, pending', active', seen', nodes', bytes' :=
        VisitContainer(h, e, pending, active, seen, nodes, bytes, maximumBytes);
    } else {
      AcceptsLeaf(h, Visits(pending), Task(e.value, e.depth), Budget(seen, nodes, bytes), maximumBytes);
      ok, bytes' := VisitLeaf(e.value, bytes, maximumBytes);
    }
  }

  lemma RefusesBeyond(h: Heap, todo: seq<Task>, x: Task, b: Budget, maximumBytes: int)
    requires x.value.Ref? ==> KnownNode(h, x.value.id)
    requires x.depth > MAX_JSON_DEPTH || b.nodes + 1 > MAX_JSON_NODES
    ensures !Accepts(h, todo + [x], b, maximumBytes)
  {
    if x.value.Ref? {
      AcceptsRef(h, todo, x, b, maximumBytes);
    } else {
      AcceptsLeaf(h, todo, x, b, maximumBytes);
    }
  }

  /** Visit a container inside the depth and node limits; one seen before is refused. */
  method VisitContainer(h: Heap, e: Entry, pending: seq<Entry>, active: set<nat>, seen: set<nat>,
                        nodes: nat, bytes: nat, maximumBytes: int)
    returns (ok: bool, pending': seq<Entry>, active': set<nat>, seen': set<nat>, nodes': nat, bytes': nat)
    requires e.value.Ref? && KnownNode(h, e.value.id)
    requires StackInv(h, pending, active, seen)
    requires e.depth <= MAX_JSON_DEPTH && nodes + 1 <= MAX_JSON_NODES && bytes <= maximumBytes
    ensures !ok ==> !Accepts(h, Visits(pending) + [Task(e.value, e.depth)], Budget(seen, nodes, bytes), maximumBytes)
    ensures ok ==>
              && nodes < nodes' <= MAX_JSON_NODES && bytes' <= maximumBytes
              && StackInv(h, pending', active', seen')
              && (Accepts(h, Visits(pending'), Budget(seen', nodes', bytes'), maximumBytes) <==>
                  Accepts(h, Visits(pending) + [Task(e.value, e.depth)], Budget(seen, nodes, bytes), maximumBytes))
  {
    pending', active', seen', nodes', bytes' := pending, active, seen, nodes + 1, bytes;
    AcceptsRef(h, Visits(pending), Task(e.value, e.depth), Budget(seen, nodes, bytes), maximumBytes);
    var id := e.value.id;
    if id in active || id in seen {
      ok := false;
    } else {
      ok, pending', nodes', bytes' := EnterContainer(h, e, pending, active, seen, nodes', bytes, maximumBytes);
      active', seen' := active + {id}, seen + {id};
    }
  }

  /** A leaf adds its UTF-8 length and must be a legal JSON scalar. */
  method VisitLeaf(value: Value, bytes: nat, maximumBytes: int) returns (ok: bool, bytes': nat)
    requires bytes <= maximumBytes
    ensures ok <==> LegalLeaf(value) && bytes + LeafBytes(value) <= maximumBytes
    ensures ok ==> bytes' == bytes + LeafBytes(value)
  {
    bytes' := bytes;
    match value {
      case Str(text) =>
        if !Encodable(text) {
          return false, bytes;
        }
        ChargesEncoding(text);
        bytes' := bytes + Utf8Length(text);
        ok := bytes' <= maximumBytes;
      case Float(finite) => ok := finite;
      case Null => ok := true;
      case Boolean => ok := true;
      case Integer => ok := true;
      case _ => ok := false;
    }
  }

  /** `require_exact_json`; false is the ValueError. It terminates on every graph, cyclic
      ones included, and a container being left is always active. */
  method RequireExactJson(h: Heap, root: Value, maximumBytes: int) returns (ok: bool)
    requires Closed(h, root)
    ensures ok <==> IsExactJson(h, root, maximumBytes)
  {
    if maximumBytes < 0 {
      return false;
    }
    var pending := [Entry(root, 0, false)];
    var active: set<nat> := {};
    var seen: set<nat> := {};
    var nodes, bytes: nat := 0, 0;
    ghost var answer := Initially(h, root, maximumBytes);
    while pending != []
      invariant nodes <= MAX_JSON_NODES && bytes <= maximumBytes
      invariant StackInv(h, pending, active, seen)
      invariant answer <==> Accepts(h, Visits(pending), Budget(seen, nodes, bytes), maximumBytes)
      decreases MAX_JSON_NODES - nodes, |pending|
    {
      var e, front := pending[|pending| - 1], pending[..|pending| - 1];
      assert pending == front + [e];
      if e.leaving {
        PopLeaving(h, front, e, active, seen);
        assert e.value.id in active;
        pending, active := front, active - {e.value.id};
      } else {
        PopVisiting(h, front, e, active, seen);
        assert e.value.Ref? ==> KnownNode(h, e.value.id);
        var accepted, pending', active', seen', nodes', bytes' :=
          Visit(h, e, front, active, seen, nodes, bytes, maximumBytes);
        if !accepted {
          return false;
        }
        pending, active, seen, nodes, bytes := pending', active', seen', nodes', bytes';
      }
    }
    AcceptsNothing(h, Budget(seen, nodes, bytes), maximumBytes);
    return true;
  }

  lemma LeaveMark(marks: seq<nat>, id: nat)
    requires Distinct(marks + [id])
    ensures Distinct(marks) && SetOf(marks) == SetOf(marks + [id]) - {id}
  {
    var all := marks + [id];
    assert all[|marks|] == id;
    forall i | 0 <= i < |marks| ensures marks[i] != id {
      assert all[i] == marks[i] && all[i] != all[|marks|];
    }
    forall i, j | 0 <= i < j < |marks| ensures marks[i] != marks[j] {
      assert all[i] == marks[i] && all[j] == marks[j];
    }
    assert forall y :: y in all <==> y in marks || y == id;
  }

  lemma EnterMark(marks: seq<nat>, id: nat)
    requires Distinct(marks) && id !in SetOf(marks)
    ensures Distinct(marks + [id]) && SetOf(marks + [id]) == SetOf(marks) + {id}
  {}
}
