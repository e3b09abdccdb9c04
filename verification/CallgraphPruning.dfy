/** The pruning pass: edge maps, the choice of nodes, the walk to a staying parent, the patched edges. */
module CallgraphPruning {
  import opened Callgraphs
  import opened CallgraphShape

  /** A sort by descending cumulative value as the library promises it. */
  ghost predicate SortsByCumulative(sort: seq<Node> -> seq<Node>) {
    forall nodes :: SortedFrom(sort(nodes), nodes)
  }

  ghost predicate SortedFrom(sorted: seq<Node>, nodes: seq<Node>) {
    && multiset(sorted) == multiset(nodes)
    && forall i, j :: 0 <= i < j < |sorted| ==> sorted[i].cumulative >= sorted[j].cumulative
  }

  function Get(m: map<Id, seq<Edge>>, id: Id): seq<Edge> {
    if id in m then m[id] else []
  }

  ghost predicate IsIndex(incoming: map<Id, seq<Edge>>, outgoing: map<Id, seq<Edge>>, edges: seq<Edge>) {
    forall id :: Get(incoming, id) == Incoming(edges, id) && Get(outgoing, id) == Outgoing(edges, id)
  }

  lemma {:induction false} IndexStep(incoming: map<Id, seq<Edge>>, outgoing: map<Id, seq<Edge>>, edges: seq<Edge>,
      e: Edge)
    requires IsIndex(incoming, outgoing, edges)
    ensures IsIndex(incoming[e.target := Get(incoming, e.target) + [e]],
                    outgoing[e.source := Get(outgoing, e.source) + [e]], edges + [e])
  {
    hide Incoming, Outgoing, CallsIncoming, CallsOutgoing;
    var incoming', outgoing' := incoming[e.target := Get(incoming, e.target) + [e]],
      outgoing[e.source := Get(outgoing, e.source) + [e]];
    forall id ensures Get(incoming', id) == Incoming(edges + [e], id)
      && Get(outgoing', id) == Outgoing(edges + [e], id) {
      CallsSnoc(edges, e, id);
      assert Get(incoming, id) == Incoming(edges, id) && Get(outgoing, id) == Outgoing(edges, id);
    }
  }

  method IndexEdges(edges: seq<Edge>) returns (incoming: map<Id, seq<Edge>>, outgoing: map<Id, seq<Edge>>)
    ensures IsIndex(incoming, outgoing, edges)
  {
    incoming, outgoing := map[], map[];
    assert IsIndex(incoming, outgoing, []);
    hide IsIndex;
    for i := 0 to |edges|
      invariant IsIndex(incoming, outgoing, edges[..i])
    {
      var edge := edges[i];
      assert edges[..i + 1] == edges[..i] + [edge];
      IndexStep(incoming, outgoing, edges[..i], edge);
      incoming := incoming[edge.target := Get(incoming, edge.target) + [edge]];
      outgoing := outgoing[edge.source := Get(outgoing, edge.source) + [edge]];
    }
    assert edges[..|edges|] == edges;
  }

  /** Sorts the nodes and cuts the list before the first one below the cut-off. */
  method PrunableNodes(sort: seq<Node> -> seq<Node>, nodes: seq<Node>, cutoff: int)
    returns (sorted: seq<Node>, prunable: seq<Node>)
    requires SortsByCumulative(sort)
    ensures sorted == sort(nodes) && |prunable| <= |sorted| && prunable == sorted[|sorted| - |prunable|..]
    ensures forall n :: n in prunable <==> n in nodes && n.cumulative < cutoff
  {
    sorted := sort(nodes);
    assert SortedFrom(sorted, nodes);
    var i := 0;
    while i < |sorted| && sorted[i].cumulative >= cutoff
      invariant 0 <= i <= |sorted| && forall j :: 0 <= j < i ==> sorted[j].cumulative >= cutoff
    {
      i := i + 1;
    }
    prunable := sorted[i..];
    forall n ensures n in prunable <==> n in nodes && n.cumulative < cutoff {
      assert n in nodes <==> n in multiset(sorted);
      if n in nodes && n.cumulative < cutoff {
        var k :| 0 <= k < |sorted| && sorted[k] == n;
        assert prunable[k - i] == n;
      }
    }
  }

  ghost function RemovableAmong(edges: seq<Edge>, cutoff: int, nodes: seq<Node>): set<Id> {
    set n | n in nodes && Removable(edges, cutoff, n) :: n.id
  }

  lemma RemovableNone(edges: seq<Edge>, cutoff: int)
    ensures RemovableAmong(edges, cutoff, []) == {}
  {
  }

  lemma {:induction false} RemovableStep(edges: seq<Edge>, cutoff: int, nodes: seq<Node>, n: Node)
    ensures RemovableAmong(edges, cutoff, nodes + [n]) ==
            RemovableAmong(edges, cutoff, nodes) + (if Removable(edges, cutoff, n) then {n.id} else {})
  {
    hide Removable;
    assert forall m :: m in nodes + [n] <==> m in nodes || m == n;
  }

  method NodesToRemove(edges: seq<Edge>, cutoff: int, prunable: seq<Node>,
      incoming: map<Id, seq<Edge>>, outgoing: map<Id, seq<Edge>>) returns (removed: set<Id>)
    requires IsIndex(incoming, outgoing, edges) && forall n :: n in prunable ==> n.cumulative < cutoff
    ensures removed == RemovableAmong(edges, cutoff, prunable)
  {
    hide IsIndex, RemovableAmong, Incoming, Outgoing;
    removed := {};
    RemovableNone(edges, cutoff);
    for i := 0 to |prunable|
      invariant removed == RemovableAmong(edges, cutoff, prunable[..i])
    {
      var node := prunable[i];
      assert prunable[..i + 1] == prunable[..i] + [node];
      assert node in prunable;
      IndexedIncoming(incoming, outgoing, edges, node.id);
      IndexedOutgoing(incoming, outgoing, edges, node.id);
      RemovableStep(edges, cutoff, prunable[..i], node);
      if |Get(incoming, node.id)| > 1 {
      } else if |Get(incoming, node.id)| == 0 || |Get(outgoing, node.id)| == 0 {
      } else {
        removed := removed + {node.id};
      }
    }
    assert prunable[..|prunable|] == prunable;
  }

  lemma {:induction false} ClimbedOnce(edges: seq<Edge>, removed: set<Id>, r: Id, steps: nat)
    requires SingleCaller(edges, removed) && Climb(edges, removed, r, steps) in removed
    ensures Climbed(edges, removed, r, steps + 1) ==
            Climbed(edges, removed, r, steps) + [Incoming(edges, Climb(edges, removed, r, steps))[0]]
    decreases steps
  {
    if steps > 0 {
      ClimbedOnce(edges, removed, Incoming(edges, r)[0].source, steps - 1);
    }
  }

  lemma {:induction false} SumAppend(edges: seq<Edge>, e: Edge)
    ensures Sum(edges + [e]) == Sum(edges) + e.cumulative
  {
    if edges != [] {
      SumAppend(edges[1..], e);
      assert (edges + [e])[1..] == edges[1..] + [e];
    }
  }

  /** After `k` steps up from a removed node: where the walk is, what it passed and the sum of that. */
  ghost predicate Walked(edges: seq<Edge>, removed: set<Id>, node: Id, k: nat, parent: Id, c: int, up: seq<Edge>)
    requires SingleCaller(edges, removed)
  {
    parent == Climb(edges, removed, node, k) && up == Climbed(edges, removed, node, k) && c == Sum(up)
  }

  lemma {:induction false} WalkStart(edges: seq<Edge>, removed: set<Id>, node: Id)
    requires SingleCaller(edges, removed) && node in removed
    ensures |Incoming(edges, node)| == 1
    ensures
      var e := Incoming(edges, node)[0];
      Walked(edges, removed, node, 1, e.source, e.cumulative, [e])
  {
    var e := Incoming(edges, node)[0];
    assert Climb(edges, removed, node, 1) == Climb(edges, removed, e.source, 0);
    assert Climbed(edges, removed, node, 1) == [e] + Climbed(edges, removed, e.source, 0);
    assert Sum([e][1..]) == 0;
  }

  lemma {:induction false} WalkStep(edges: seq<Edge>, removed: set<Id>, node: Id, k: nat, parent: Id, c: int,
      up: seq<Edge>)
    requires SingleCaller(edges, removed) && Walked(edges, removed, node, k, parent, c, up) && parent in removed
    ensures |Incoming(edges, parent)| == 1
    ensures
      var e := Incoming(edges, parent)[0];
      Walked(edges, removed, node, k + 1, e.source, c + e.cumulative, up + [e])
  {
    ClimbOnce(edges, removed, node, k);
    ClimbedOnce(edges, removed, node, k);
    SumAppend(up, Incoming(edges, parent)[0]);
  }

  /** On a way that is not stuck there are fewer steps than removed nodes. */
  lemma {:induction false} WalkBound(edges: seq<Edge>, removed: set<Id>, node: Id, k: nat, parent: Id, c: int,
      up: seq<Edge>)
    requires SingleCaller(edges, removed) && !RemovedCycle(edges, removed)
    requires Walked(edges, removed, node, k, parent, c, up) && k <= |removed|
    ensures parent in removed ==> k < |removed|
    ensures parent !in removed ==> parent == Parent(edges, removed, node) && up == Chain(edges, removed, node)
  {
    hide RemovedCycle;
    if parent !in removed {
      ClimbStays(edges, removed, node, k, |removed|);
    } else if k == |removed| {
      StuckMeansCycle(edges, removed, node);
    }
  }

  /** Walks up single incoming edges to a node that stays, adding up and collecting the edges passed. */
  method FindAValidParent(edges: seq<Edge>, node: Id, incoming: map<Id, seq<Edge>>, outgoing: map<Id, seq<Edge>>,
      removed: set<Id>) returns (parent: Id, c: int, up: seq<Edge>)
    requires IsIndex(incoming, outgoing, edges) && SingleCaller(edges, removed) && !RemovedCycle(edges, removed)
    requires node in removed
    ensures parent == Parent(edges, removed, node) && parent !in removed
    ensures up == Chain(edges, removed, node) && c == Sum(up)
  {
    hide IsIndex, SingleCaller, RemovedCycle, Incoming, Parent, Chain;
    ghost var k := 1;
    IndexedIncoming(incoming, outgoing, edges, node);
    WalkStart(edges, removed, node);
    parent, c, up := incoming[node][0].source, incoming[node][0].cumulative, [incoming[node][0]];
    WalkBound(edges, removed, node, 0, node, 0, []);
    while parent in removed
      invariant 1 <= k <= |removed| && Walked(edges, removed, node, k, parent, c, up)
      decreases |removed| - k
    {
      IndexedIncoming(incoming, outgoing, edges, parent);
      WalkBound(edges, removed, node, k, parent, c, up);
      WalkStep(edges, removed, node, k, parent, c, up);
      c := c + incoming[parent][0].cumulative;
      up := up + [incoming[parent][0]];
      parent := incoming[parent][0].source;
      k := k + 1;
    }
    WalkBound(edges, removed, node, k, parent, c, up);
  }

  /** Connects the parent of one removed node to the callees that stay. */
  method PatchNode(edges: seq<Edge>, removed: set<Id>, uuid: nat -> Id, created: seq<Edge>, node: Id, parent: Id,
      c: int,
      out: seq<Edge>) returns (r: seq<Edge>)
    requires SingleCaller(edges, removed)
    requires parent == Parent(edges, removed, node) && c == Sum(Chain(edges, removed, node))
    ensures r == Patched(edges, removed, uuid, created, node, out)
  {
    r := created;
    for i := 0 to |out|
      invariant r == Patched(edges, removed, uuid, created, node, out[..i])
    {
      assert out[..i + 1][..i] == out[..i];
      if out[i].target !in removed {
        r := r + [Edge(uuid(|r|), parent, out[i].target, c, true)];
      }
    }
    assert out[..|out|] == out;
  }

  // Which edges are dropped.

  ghost predicate OnlyTouching(edges: seq<Edge>, removed: set<Id>, dropped: set<Id>) {
    forall id :: id in dropped ==> IsTouching(edges, removed, id)
  }

  ghost predicate IsTouching(edges: seq<Edge>, removed: set<Id>, id: Id) {
    exists e :: e in edges && e.id == id && Touches(e, removed)
  }

  ghost predicate AllAround(edges: seq<Edge>, dropped: set<Id>, r: Id) {
    forall e :: e in edges && (e.source == r || e.target == r) ==> e.id in dropped
  }

  ghost predicate AllDropped(edges: seq<Edge>, removed: set<Id>, dropped: set<Id>, nodes: seq<Node>) {
    forall n :: n in nodes && n.id in removed ==> AllAround(edges, dropped, n.id)
  }

  ghost function Ids(edges: seq<Edge>): set<Id> {
    set e | e in edges :: e.id
  }

  lemma {:induction false} ClimbedTouches(edges: seq<Edge>, removed: set<Id>, r: Id, steps: nat)
    requires SingleCaller(edges, removed)
    ensures forall e :: e in Climbed(edges, removed, r, steps) ==> e in edges && e.target in removed
    decreases steps
  {
    if steps > 0 && r in removed {
      ClimbedTouches(edges, removed, Incoming(edges, r)[0].source, steps - 1);
    }
  }

  lemma {:induction false} DropNode(edges: seq<Edge>, removed: set<Id>, dropped: set<Id>, r: Id)
    requires SingleCaller(edges, removed) && OnlyTouching(edges, removed, dropped) && r in removed
    ensures
      var dropped' := dropped + Ids(Outgoing(edges, r) + Chain(edges, removed, r));
      OnlyTouching(edges, removed, dropped') && AllAround(edges, dropped', r)
  {
    var up := Chain(edges, removed, r);
    var around := Outgoing(edges, r) + up;
    ClimbedTouches(edges, removed, r, |removed|);
    forall id | id in Ids(around) ensures IsTouching(edges, removed, id) {
      var e :| e in around && e.id == id;
      assert e in edges && Touches(e, removed);
    }
    assert up != [] && up[0] == Incoming(edges, r)[0];
    forall e | e in edges && (e.source == r || e.target == r) ensures e in around {
      if e.target == r {
        assert e in Incoming(edges, r);
        assert e == up[0];
      }
    }
  }

  /** With unique edge identifiers, the dropped identifiers are those of the edges touching removed nodes. */
  lemma {:induction false} DroppedIsTouching(g: Graph, removed: set<Id>, dropped: set<Id>, nodes: seq<Node>, e: Edge)
    requires UniqueIds(g) && e in g.edges
    requires OnlyTouching(g.edges, removed, dropped) && AllDropped(g.edges, removed, dropped, nodes)
    requires forall r :: r in removed ==> exists n :: n in nodes && n.id == r
    ensures e.id in dropped <==> Touches(e, removed)
  {
    if e.id in dropped {
      assert IsTouching(g.edges, removed, e.id);
      var f :| f in g.edges && f.id == e.id && Touches(f, removed);
      assert e == f;
    }
    if Touches(e, removed) {
      var r := if e.source in removed then e.source else e.target;
      var n :| n in nodes && n.id == r;
      assert AllAround(g.edges, dropped, n.id);
    }
  }

  method KeepEdges(g: Graph, removed: set<Id>, dropped: set<Id>, ghost nodes: seq<Node>) returns (r: seq<Edge>)
    requires UniqueIds(g)
    requires OnlyTouching(g.edges, removed, dropped) && AllDropped(g.edges, removed, dropped, nodes)
    requires forall r :: r in removed ==> exists n :: n in nodes && n.id == r
    ensures r == KeptEdges(g.edges, removed)
  {
    r := [];
    for i := 0 to |g.edges|
      invariant r == KeptEdges(g.edges[..i], removed)
    {
      var edge := g.edges[i];
      assert g.edges[..i + 1][..i] == g.edges[..i];
      DroppedIsTouching(g, removed, dropped, nodes, edge);
      if edge.id !in dropped {
        r := r + [edge];
      }
    }
    assert g.edges[..|g.edges|] == g.edges;
  }

  lemma {:induction false} RemovedFacts(g: Graph, cutoff: int, nodes: seq<Node>)
    requires multiset(nodes) == multiset(g.nodes)
    ensures SingleCaller(g.edges, Removed(g, cutoff))
    ensures forall r :: r in Removed(g, cutoff) ==> exists n :: n in nodes && n.id == r
  {
    forall r | r in Removed(g, cutoff) ensures exists n :: n in nodes && n.id == r {
      var n :| n in g.nodes && Removable(g.edges, cutoff, n) && n.id == r;
      assert n in multiset(nodes);
    }
  }

  /**
   The pruned graph keeps the sorted nodes that stay and the edges between them, followed by the edges
   that stand for chains through removed nodes. It is only reached when no cycle consists of removed nodes.
   */
  method PruneGraph(g: Graph, cutoff: int, sort: seq<Node> -> seq<Node>, uuid: nat -> Id) returns (r: Graph)
    requires UniqueIds(g) && SortsByCumulative(sort)
    requires !RemovedCycle(g.edges, Removed(g, cutoff))
    ensures SingleCaller(g.edges, Removed(g, cutoff))
    ensures r.nodes == KeptNodes(sort(g.nodes), Removed(g, cutoff))
    ensures r.edges == PrunedEdges(g.edges, Removed(g, cutoff), uuid, sort(g.nodes))
    ensures forall n: Node :: multiset(r.nodes)[n] == if n.id in Removed(g, cutoff) then 0 else multiset(g.nodes)[n]
    ensures forall i, j :: 0 <= i < j < |r.nodes| ==> r.nodes[i].cumulative >= r.nodes[j].cumulative
    ensures Closed(g) ==> Closed(r)
  {
    hide Incoming, Outgoing, Removable, SingleCaller, RemovedCycle, Parent, Chain, Touches, UniqueIds, IsIndex, Closed;
    var edges := g.edges;
    var nodes, prunable := PrunableNodes(sort, g.nodes, cutoff);
    assert SortedFrom(nodes, g.nodes);
    var incoming, outgoing := IndexEdges(edges);
    var removed := NodesToRemove(edges, cutoff, prunable, incoming, outgoing);
    assert removed == Removed(g, cutoff) by { RemovedIsRemovable(g, cutoff, prunable); }
    RemovedFacts(g, cutoff, nodes);
    var finalNodes: seq<Node>, created: seq<Edge>, dropped: set<Id> := [], [], {};
    for i := 0 to |nodes|
      invariant finalNodes == KeptNodes(nodes[..i], removed) && created == Created(edges, removed, uuid, nodes[..i])
      invariant OnlyTouching(edges, removed, dropped) && AllDropped(edges, removed, dropped, nodes[..i])
    {
      var node := nodes[i];
      assert nodes[..i + 1] == nodes[..i] + [node] && nodes[..i + 1][..i] == nodes[..i];
      if node.id in removed {
        var parent, c, up := FindAValidParent(edges, node.id, incoming, outgoing, removed);
        var out := Get(outgoing, node.id);
        assert out == Outgoing(edges, node.id) by { IndexedOutgoing(incoming, outgoing, edges, node.id); }
        created := PatchNode(edges, removed, uuid, created, node.id, parent, c, out);
        DropNode(edges, removed, dropped, node.id);
        dropped := dropped + (set e: Edge | e in out + up :: e.id);
      } else {
        finalNodes := finalNodes + [node];
      }
    }
    assert nodes[..|nodes|] == nodes;
    var kept := KeepEdges(g, removed, dropped, nodes);
    r := Graph(finalNodes, kept + created);
    PrunedShape(g, removed, uuid, nodes);
  }

  lemma IndexedIncoming(incoming: map<Id, seq<Edge>>, outgoing: map<Id, seq<Edge>>,
      edges: seq<Edge>, id: Id)
    requires IsIndex(incoming, outgoing, edges)
    ensures Get(incoming, id) == Incoming(edges, id)
  {
  }

  lemma IndexedOutgoing(incoming: map<Id, seq<Edge>>, outgoing: map<Id, seq<Edge>>,
      edges: seq<Edge>, id: Id)
    requires IsIndex(incoming, outgoing, edges)
    ensures Get(outgoing, id) == Outgoing(edges, id)
  {
  }

  lemma RemovedIsRemovable(g: Graph, cutoff: int, prunable: seq<Node>)
    requires forall n :: n in prunable <==> n in g.nodes && n.cumulative < cutoff
    ensures RemovableAmong(g.edges, cutoff, prunable) == Removed(g, cutoff)
  {
  }

  /** What pruning promises: no edge dangles, and staying nodes reach each other exactly as before. */
  lemma {:induction false} PrunedGraphIsSound(g: Graph, cutoff: int, sort: seq<Node> -> seq<Node>, uuid: nat -> Id,
      a: Id, b: Id)
    requires SortsByCumulative(sort) && SingleCaller(g.edges, Removed(g, cutoff))
    requires !RemovedCycle(g.edges, Removed(g, cutoff))
    requires a !in Removed(g, cutoff) && b !in Removed(g, cutoff)
    ensures
      var removed := Removed(g, cutoff);
      var pruned := PrunedEdges(g.edges, removed, uuid, sort(g.nodes));
      && (forall e :: e in pruned ==> !Touches(e, removed))
      && (Reaches(pruned, a, b) <==> Reaches(g.edges, a, b))
  {
    var removed := Removed(g, cutoff);
    assert SortedFrom(sort(g.nodes), g.nodes);
    RemovedFacts(g, cutoff, sort(g.nodes));
    NoEdgeTouchesRemoved(g.edges, removed, uuid, sort(g.nodes));
    PruningKeepsReachability(g.edges, removed, uuid, sort(g.nodes), a, b);
  }
}
