/** Two-hop neighbourhoods in the intent graph (context/provider.py `_expand`,
    intent_workflow/assurance.py `_reaches_implementation`). Node identifiers are
    natural numbers ordered the way the source orders strings. */
module ContextGraph {

  type NodeId = nat

  datatype Edge = Edge(source: NodeId, target: NodeId, active: bool)

  type Adjacency = map<NodeId, set<NodeId>>

  /** An active edge between two of the given nodes, in either direction. */
  predicate Adjacent(edges: seq<Edge>, nodes: set<NodeId>, a: NodeId, b: NodeId) {
    exists e :: e in edges && Joins(e, nodes, a, b)
  }

  predicate Joins(e: Edge, nodes: set<NodeId>, a: NodeId, b: NodeId) {
    && e.active && e.source in nodes && e.target in nodes
    && ((e.source == a && e.target == b) || (e.source == b && e.target == a))
  }

  function Neighbours(edges: seq<Edge>, nodes: set<NodeId>): Adjacency {
    map a | a in nodes :: set b | b in nodes && Adjacent(edges, nodes, a, b)
  }

  ghost predicate Closed(adj: Adjacency) { forall a :: a in adj ==> adj[a] <= adj.Keys }

  /** The first loop of `_expand`. */
  method BuildNeighbours(edges: seq<Edge>, nodes: set<NodeId>) returns (adj: Adjacency)
    ensures adj == Neighbours(edges, nodes) && Closed(adj)
  {
    adj := map a | a in nodes :: {};
    NoEdges(nodes, adj);
    assert edges[..0] == [];
    var i := 0;
    while i < |edges|
      invariant 0 <= i <= |edges|
      invariant adj == Neighbours(edges[..i], nodes)
    {
      var e := edges[i];
      ghost var before := adj;
      if e.active && e.source in nodes && e.target in nodes {
        adj := adj[e.source := adj[e.source] + {e.target}];
        adj := adj[e.target := adj[e.target] + {e.source}];
      }
      assert edges[..i + 1] == edges[..i] + [e];
      AddedEdge(edges[..i], e, nodes, before, adj);
      i := i + 1;
    }
    assert edges[..i] == edges;
  }

  lemma NoEdges(nodes: set<NodeId>, adj: Adjacency)
    requires adj.Keys == nodes && forall a :: a in nodes ==> adj[a] == {}
    ensures adj == Neighbours([], nodes)
  {
    forall a | a in nodes ensures Neighbours([], nodes)[a] == {} {
      assert forall b :: !Adjacent([], nodes, a, b);
    }
  }

  lemma AdjacentSnoc(edges: seq<Edge>, e: Edge, nodes: set<NodeId>, a: NodeId, b: NodeId)
    ensures Adjacent(edges + [e], nodes, a, b) <==> Adjacent(edges, nodes, a, b) || Joins(e, nodes, a, b)
  {}

  lemma AddedEdge(edges: seq<Edge>, e: Edge, nodes: set<NodeId>, before: Adjacency, after: Adjacency)
    requires before == Neighbours(edges, nodes) && after.Keys == nodes
    requires forall a, b :: a in nodes ==> (b in after[a] <==> b in before[a] || Joins(e, nodes, a, b))
    ensures after == Neighbours(edges + [e], nodes)
  {
    var next := Neighbours(edges + [e], nodes);
    forall a | a in nodes ensures after[a] == next[a] {
      forall b ensures b in after[a] <==> b in next[a] {
        AdjacentSnoc(edges, e, nodes, a, b);
      }
    }
  }

  // ----- Distance at most two

  function Hop(adj: Adjacency, s: set<NodeId>): set<NodeId> { set a, b | a in s && a in adj && b in adj[a] :: b }

  function TwoHops(adj: Adjacency, seeds: set<NodeId>): set<NodeId> {
    seeds + Hop(adj, seeds) + Hop(adj, Hop(adj, seeds))
  }

  /** A walk along the adjacency. */
  ghost predicate Walk(adj: Adjacency, p: seq<NodeId>) {
    p != [] && forall i :: 0 <= i < |p| - 1 ==> p[i] in adj && p[i + 1] in adj[p[i]]
  }

  ghost predicate WithinTwo(adj: Adjacency, seeds: set<NodeId>, n: NodeId) {
    exists p :: Walk(adj, p) && |p| <= 3 && p[0] in seeds && p[|p| - 1] == n
  }

  /** Two hops are exactly the nodes at distance at most two. */
  lemma TwoHopsIsDistance(adj: Adjacency, seeds: set<NodeId>, n: NodeId)
    ensures n in TwoHops(adj, seeds) <==> WithinTwo(adj, seeds, n)
  {
    if n in seeds {
      assert Walk(adj, [n]) && [n][0] in seeds;
    } else if n in Hop(adj, seeds) {
      var a :| a in seeds && a in adj && n in adj[a];
      assert Walk(adj, [a, n]) && [a, n][0] in seeds;
    } else if n in Hop(adj, Hop(adj, seeds)) {
      var b :| b in Hop(adj, seeds) && b in adj && n in adj[b];
      var a :| a in seeds && a in adj && b in adj[a];
      assert Walk(adj, [a, b, n]) && [a, b, n][0] in seeds;
    }
    if WithinTwo(adj, seeds, n) {
      var p :| Walk(adj, p) && |p| <= 3 && p[0] in seeds && p[|p| - 1] == n;
      if |p| == 2 {
        assert p[1] in adj[p[0]];
      } else if |p| == 3 {
        assert p[1] in adj[p[0]] && p[2] in adj[p[1]] && p[1] in Hop(adj, seeds);
      }
    }
  }

  // ----- The queue

  /** Nodes within k hops, k at most two. */
  function Ball(adj: Adjacency, seeds: set<NodeId>, k: nat): set<NodeId> {
    if k == 0 then seeds else if k == 1 then seeds + Hop(adj, seeds) else TwoHops(adj, seeds)
  }

  ghost predicate Near(adj: Adjacency, seeds: set<NodeId>, n: NodeId, k: nat) { n in Ball(adj, seeds, k) }

  type Queue = seq<(NodeId, nat)>

  ghost predicate Queued(frontier: Queue, n: NodeId) { exists i :: 0 <= i < |frontier| && frontier[i].0 == n }

  /** Every selected node carries a hop count it really has a walk for. */
  ghost predicate Labelled(adj: Adjacency, seeds: set<NodeId>, hops: map<NodeId, nat>) {
    && hops.Keys <= adj.Keys
    && (forall n :: n in seeds ==> n in hops && hops[n] == 0)
    && (forall n :: n in hops ==> hops[n] <= 2 && Near(adj, seeds, n, hops[n]))
  }

  /** The queue is sorted by hop count and spans at most two levels. */
  ghost predicate Layered(hops: map<NodeId, nat>, frontier: Queue) {
    && (forall i :: 0 <= i < |frontier| ==> frontier[i].0 in hops && hops[frontier[i].0] == frontier[i].1)
    && (forall i, j :: 0 <= i < j < |frontier| ==> frontier[i].1 <= frontier[j].1 <= frontier[i].1 + 1)
  }

  ghost predicate Covered(hops: map<NodeId, nat>, frontier: Queue, finished: set<NodeId>) {
    && (forall n :: n in hops ==> n in finished || Queued(frontier, n))
    && (forall n :: n in finished ==> n in hops)
    && (forall n, i :: n in finished && 0 <= i < |frontier| ==> hops[n] <= frontier[i].1)
  }

  ghost predicate Settled(adj: Adjacency, hops: map<NodeId, nat>, finished: set<NodeId>) {
    forall n :: n in finished ==> Expanded(adj, hops, n)
  }

  ghost predicate Expanded(adj: Adjacency, hops: map<NodeId, nat>, n: NodeId) {
    && n in hops && n in adj
    && (hops[n] < 2 ==> forall m :: m in adj[n] ==> m in hops && hops[m] <= hops[n] + 1)
  }

  lemma QueueDone(adj: Adjacency, seeds: set<NodeId>, hops: map<NodeId, nat>, finished: set<NodeId>)
    requires Labelled(adj, seeds, hops) && Covered(hops, [], finished) && Settled(adj, hops, finished)
    ensures hops.Keys == TwoHops(adj, seeds)
  {}

  lemma QueuedSnoc(frontier: Queue, entry: (NodeId, nat))
    ensures Queued(frontier + [entry], entry.0)
    ensures forall n :: Queued(frontier, n) ==> Queued(frontier + [entry], n)
  {
    var more := frontier + [entry];
    assert more[|frontier|] == entry;
    forall n | Queued(frontier, n) ensures Queued(more, n) {
      var i :| 0 <= i < |frontier| && frontier[i].0 == n;
      assert more[i].0 == n;
    }
  }

  /** `hops'` and `frontier'` select, at h + 1 hops, the nodes that `hops` lacks. */
  ghost predicate Grown(hops: map<NodeId, nat>, rest: Queue, h: nat, hops': map<NodeId, nat>, frontier: Queue) {
    && hops.Keys <= hops'.Keys
    && (forall n :: n in hops ==> hops'[n] == hops[n])
    && (forall n :: n in hops' && n !in hops ==> hops'[n] == h + 1 && Queued(frontier, n))
    && |rest| <= |frontier| && frontier[..|rest|] == rest
    && (forall i :: |rest| <= i < |frontier| ==>
        frontier[i].1 == h + 1 && frontier[i].0 in hops' && hops'[frontier[i].0] == h + 1)
  }

  lemma GrowOne(hops: map<NodeId, nat>, rest: Queue, h: nat, hops': map<NodeId, nat>, frontier: Queue, m: NodeId)
    requires Grown(hops, rest, h, hops', frontier) && m !in hops'
    ensures Grown(hops, rest, h, hops'[m := h + 1], frontier + [(m, h + 1)])
  {
    QueuedSnoc(frontier, (m, h + 1));
  }

  /** Expand the popped node (v, h): every neighbour not selected yet is selected at h + 1. */
  method ExpandNode(adj: Adjacency, v: NodeId, h: nat, selected: set<NodeId>, rest: Queue, ghost hops: map<NodeId, nat>)
    returns (selected': set<NodeId>, frontier: Queue, ghost hops': map<NodeId, nat>)
    requires v in adj && selected == hops.Keys
    ensures selected' == hops'.Keys == selected + adj[v]
    ensures Grown(hops, rest, h, hops', frontier)
    ensures selected' == selected ==> frontier == rest
  {
    selected', frontier, hops' := selected, rest, hops;
    var todo := adj[v];
    while todo != {}
      invariant todo <= adj[v] && selected' == hops'.Keys == selected + (adj[v] - todo)
      invariant Grown(hops, rest, h, hops', frontier)
      invariant selected' == selected ==> frontier == rest
      decreases todo
    {
      var m :| m in todo;
      todo := todo - {m};
      if m !in selected' {
        GrowOne(hops, rest, h, hops', frontier, m);
        selected' := selected' + {m};
        frontier := frontier + [(m, h + 1)];
        hops' := hops'[m := h + 1];
      }
    }
  }

  lemma GrownLabelled(adj: Adjacency, seeds: set<NodeId>, hops: map<NodeId, nat>, v: NodeId, rest: Queue,
                      hops': map<NodeId, nat>, frontier': Queue)
    requires Closed(adj) && Labelled(adj, seeds, hops) && v in hops && hops[v] < 2
    requires Grown(hops, rest, hops[v], hops', frontier') && hops'.Keys == hops.Keys + adj[v]
    ensures Labelled(adj, seeds, hops')
  {}

  lemma GrownLayered(hops: map<NodeId, nat>, frontier: Queue, hops': map<NodeId, nat>, frontier': Queue)
    requires frontier != [] && Layered(hops, frontier)
    requires Grown(hops, frontier[1..], frontier[0].1, hops', frontier')
    ensures Layered(hops', frontier')
  {}

  lemma GrownCovered(hops: map<NodeId, nat>, frontier: Queue, finished: set<NodeId>, hops': map<NodeId, nat>,
                     frontier': Queue)
    requires frontier != [] && Layered(hops, frontier) && Covered(hops, frontier, finished)
    requires Grown(hops, frontier[1..], frontier[0].1, hops', frontier')
    ensures Covered(hops', frontier', finished + {frontier[0].0})
  {}

  lemma GrownSettled(adj: Adjacency, hops: map<NodeId, nat>, frontier: Queue, finished: set<NodeId>,
                     hops': map<NodeId, nat>, frontier': Queue)
    requires frontier != [] && Layered(hops, frontier) && Covered(hops, frontier, finished) &&
              Settled(adj, hops, finished)
    requires Grown(hops, frontier[1..], frontier[0].1, hops', frontier')
    requires frontier[0].0 in adj && hops'.Keys == hops.Keys + (if frontier[0].1 < 2 then adj[frontier[0].0] else {})
    ensures Settled(adj, hops', finished + {frontier[0].0})
  {}

  /** The seeds, queued at hop zero. */
  method QueueSeeds(seeds: set<NodeId>) returns (frontier: Queue, ghost hops: map<NodeId, nat>)
    ensures hops.Keys == seeds && forall n :: n in seeds ==> hops[n] == 0
    ensures Layered(hops, frontier) && Covered(hops, frontier, {})
  {
    frontier, hops := [], map n | n in seeds :: 0;
    var todo := seeds;
    while todo != {}
      invariant todo <= seeds
      invariant forall i :: 0 <= i < |frontier| ==> frontier[i].0 in seeds && frontier[i].1 == 0
      invariant forall n :: n in seeds && n !in todo ==> Queued(frontier, n)
      decreases todo
    {
      var n :| n in todo;
      QueuedSnoc(frontier, (n, 0));
      frontier := frontier + [(n, 0)];
      todo := todo - {n};
    }
  }

  /** The search loop of `_expand`: exactly the nodes at undirected distance at most two. */
  method Expand(adj: Adjacency, seeds: set<NodeId>) returns (selected: set<NodeId>)
    requires Closed(adj) && seeds <= adj.Keys
    ensures selected == TwoHops(adj, seeds)
    ensures forall n :: n in selected <==> WithinTwo(adj, seeds, n)
  {
    selected := Search(adj, seeds);
    forall n ensures n in selected <==> WithinTwo(adj, seeds, n) {
      TwoHopsIsDistance(adj, seeds, n);
    }
  }

  ghost predicate QueueInv(adj: Adjacency, seeds: set<NodeId>, hops: map<NodeId, nat>, frontier: Queue,
                           finished: set<NodeId>) {
    && Labelled(adj, seeds, hops) && Layered(hops, frontier)
    && Covered(hops, frontier, finished) && Settled(adj, hops, finished)
  }

  lemma SeedInv(adj: Adjacency, seeds: set<NodeId>, hops: map<NodeId, nat>, frontier: Queue)
    requires hops.Keys == seeds <= adj.Keys && forall n :: n in seeds ==> hops[n] == 0
    requires Layered(hops, frontier) && Covered(hops, frontier, {})
    ensures QueueInv(adj, seeds, hops, frontier, {})
  {}

  /** The head of the queue is a node of the adjacency within two hops. */
  lemma HeadOf(adj: Adjacency, seeds: set<NodeId>, hops: map<NodeId, nat>, frontier: Queue, finished: set<NodeId>)
    requires QueueInv(adj, seeds, hops, frontier, finished) && frontier != []
    ensures frontier[0].0 in hops && frontier[0].0 in adj && hops[frontier[0].0] == frontier[0].1 <= 2
  {}

  lemma GrownInv(adj: Adjacency, seeds: set<NodeId>, hops: map<NodeId, nat>, frontier: Queue, finished: set<NodeId>,
                 hops': map<NodeId, nat>, frontier': Queue)
    requires Closed(adj) && QueueInv(adj, seeds, hops, frontier, finished) && frontier != [] && frontier[0].0 in adj
    requires Grown(hops, frontier[1..], frontier[0].1, hops', frontier')
    requires hops'.Keys == hops.Keys + (if frontier[0].1 < 2 then adj[frontier[0].0] else {})
    ensures QueueInv(adj, seeds, hops', frontier', finished + {frontier[0].0})
    ensures hops'.Keys <= adj.Keys
  {
    HeadOf(adj, seeds, hops, frontier, finished);
    assert Labelled(adj, seeds, hops') by { HeadLabels(adj, seeds, hops, frontier, hops', frontier'); }
    assert Layered(hops', frontier') by { GrownLayered(hops, frontier, hops', frontier'); }
    assert Covered(hops', frontier', finished + {frontier[0].0}) by {
      GrownCovered(hops, frontier, finished, hops', frontier');
    }
    assert Settled(adj, hops', finished + {frontier[0].0}) by {
      GrownSettled(adj, hops, frontier, finished, hops', frontier');
    }
  }

  lemma HeadLabels(adj: Adjacency, seeds: set<NodeId>, hops: map<NodeId, nat>, frontier: Queue,
                   hops': map<NodeId, nat>, frontier': Queue)
    requires Closed(adj) && Labelled(adj, seeds, hops)
    requires frontier != [] && frontier[0].0 in hops && frontier[0].0 in adj
    requires hops[frontier[0].0] == frontier[0].1 && Grown(hops, frontier[1..], frontier[0].1, hops', frontier')
    requires hops'.Keys == hops.Keys + (if frontier[0].1 < 2 then adj[frontier[0].0] else {})
    ensures Labelled(adj, seeds, hops')
  {
    if frontier[0].1 < 2 {
      GrownLabelled(adj, seeds, hops, frontier[0].0, frontier[1..], hops', frontier');
    } else {
      assert hops' == hops;
    }
  }

  /** One turn of the search loop. */
  method Turn(adj: Adjacency, ghost seeds: set<NodeId>, selected: set<NodeId>, frontier: Queue,
              ghost hops: map<NodeId, nat>, ghost finished: set<NodeId>)
    returns (selected': set<NodeId>, frontier': Queue, ghost hops': map<NodeId, nat>)
    requires Closed(adj) && frontier != [] && selected == hops.Keys
    requires QueueInv(adj, seeds, hops, frontier, finished)
    ensures selected' == hops'.Keys && selected <= selected' <= adj.Keys
    ensures QueueInv(adj, seeds, hops', frontier', finished + {frontier[0].0})
    ensures selected' == selected ==> |frontier'| < |frontier|
  {
    HeadOf(adj, seeds, hops, frontier, finished);
    var (v, h) := frontier[0];
    selected', frontier', hops' := selected, frontier[1..], hops;
    if h != 2 {
      selected', frontier', hops' := ExpandNode(adj, v, h, selected, frontier[1..], hops);
    }
    GrownInv(adj, seeds, hops, frontier, finished, hops', frontier');
  }

  method Search(adj: Adjacency, seeds: set<NodeId>) returns (selected: set<NodeId>)
    requires Closed(adj) && seeds <= adj.Keys
    ensures selected == TwoHops(adj, seeds)
  {
    selected := seeds;
    var frontier, hops := QueueSeeds(seeds);
    ghost var finished: set<NodeId> := {};
    SeedInv(adj, seeds, hops, frontier);
    while frontier != []
      invariant selected == hops.Keys <= adj.Keys
      invariant QueueInv(adj, seeds, hops, frontier, finished)
      decreases adj.Keys - selected, |frontier|
    {
      ghost var v := frontier[0].0;
      selected, frontier, hops := Turn(adj, seeds, selected, frontier, hops, finished);
      finished := finished + {v};
    }
    QueueDone(adj, seeds, hops, finished);
  }

  /** `_reaches_implementation` over the same adjacency: some implementation node, other
      than the start, lies within two hops. */
  method ReachesImplementation(start: NodeId, adj: Adjacency, implementations: set<NodeId>) returns (reached: bool)
    requires Closed(adj) && start in adj
    ensures reached <==> (TwoHops(adj, {start}) - {start}) * implementations != {}
  {
    var frontier, seen := {start}, {start};
    var depth := 0;
    while depth < 2
      invariant 0 <= depth <= 2
      invariant frontier <= seen <= adj.Keys
      invariant seen == Ball(adj, {start}, depth)
      invariant forall n :: n in Hop(adj, seen) ==> n in Hop(adj, frontier) || n in seen
      invariant (seen - {start}) * implementations == {}
    {
      var next := Hop(adj, frontier) - seen;
      BallGrows(adj, start, depth, seen, frontier);
      if next * implementations != {} {
        var target :| target in next * implementations;
        assert target in TwoHops(adj, {start});
        return true;
      }
      seen := seen + next;
      frontier := next;
      depth := depth + 1;
    }
    return false;
  }

  lemma BallGrows(adj: Adjacency, start: NodeId, depth: nat, seen: set<NodeId>, frontier: set<NodeId>)
    requires Closed(adj) && depth < 2 && frontier <= seen == Ball(adj, {start}, depth) <= adj.Keys
    requires forall n :: n in Hop(adj, seen) ==> n in Hop(adj, frontier) || n in seen
    ensures seen + (Hop(adj, frontier) - seen) == Ball(adj, {start}, depth + 1) <= TwoHops(adj, {start})
    ensures Hop(adj, frontier) - seen <= adj.Keys
    ensures forall n :: n in Hop(adj, seen + (Hop(adj, frontier) - seen)) ==>
              n in Hop(adj, Hop(adj, frontier) - seen) || n in seen + (Hop(adj, frontier) - seen)
  {}

}
