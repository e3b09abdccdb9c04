/**
 The pruned graph told by its nodes and edges alone: which stay, and what every edge that was put in the
 place of a chain of removed nodes stands for.
 */
module CallgraphShape {
  import opened Callgraphs

  /** Exactly the i-th edge calls the node. */
  ghost predicate OnlyCallTo(edges: seq<Edge>, id: Id, i: int) {
    0 <= i < |edges| && forall j :: 0 <= j < |edges| ==> (edges[j].target == id <==> j == i)
  }

  ghost predicate NoCallTo(edges: seq<Edge>, id: Id) {
    forall j :: 0 <= j < |edges| ==> edges[j].target != id
  }

  lemma {:induction false} CallsCounted(edges: seq<Edge>, id: Id)
    ensures |Incoming(edges, id)| == 0 <==> NoCallTo(edges, id)
    ensures |Incoming(edges, id)| == 1 <==> exists i :: OnlyCallTo(edges, id, i)
    decreases |edges|
  {
    hide CallsIncoming;
    if edges == [] {
      NoCalls(id);
    } else {
      var k := |edges| - 1;
      var init := edges[..k];
      CallsCounted(init, id);
      assert edges == init + [edges[k]];
      CallsSnoc(init, edges[k], id);
      hide Incoming;
      if |Incoming(edges, id)| == 1 {
        if edges[k].target == id {
          assert NoCallTo(init, id);
          assert OnlyCallTo(edges, id, k);
        } else {
          var i :| OnlyCallTo(init, id, i);
          assert OnlyCallTo(edges, id, i);
        }
      }
      if i :| OnlyCallTo(edges, id, i) {
        assert if i == k then NoCallTo(init, id) else OnlyCallTo(init, id, i);
      }
    }
  }

  /** Removed are the nodes below the cut-off with exactly one call to them and some call by them. */
  lemma {:induction false} RemovedExactly(g: Graph, cutoff: int, id: Id)
    ensures id in Removed(g, cutoff) <==>
      && (exists n :: n in g.nodes && n.id == id && n.cumulative < cutoff)
      && (exists i :: OnlyCallTo(g.edges, id, i))
      && (exists e :: e in g.edges && e.source == id)
  {
    CallsCounted(g.edges, id);
    assert |Outgoing(g.edges, id)| > 0 <==> exists e :: e in g.edges && e.source == id by {
      assert CallsOutgoing(g.edges, id, Outgoing(g.edges, id));
      if |Outgoing(g.edges, id)| > 0 {
        assert Outgoing(g.edges, id)[0] in Outgoing(g.edges, id);
      }
    }
    if n :| n in g.nodes && n.id == id && n.cumulative < cutoff {
      assert Removable(g.edges, cutoff, n) <==> |Incoming(g.edges, id)| == 1 && |Outgoing(g.edges, id)| > 0;
    }
  }

  // What stays.

  /** The selected elements stand at ascending positions. */
  ghost predicate SelectedAt<T>(selected: seq<T>, all: seq<T>, at: seq<nat>) {
    && |at| == |selected|
    && (forall i :: 0 <= i < |at| ==> at[i] < |all| && selected[i] == all[at[i]])
    && forall i, j :: 0 <= i < j < |at| ==> at[i] < at[j]
  }

  lemma {:induction false} SelectedMore<T>(selected: seq<T>, init: seq<T>, last: T, at: seq<nat>, take: bool)
    requires SelectedAt(selected, init, at)
    ensures SelectedAt(if take then selected + [last] else selected, init + [last], if take then at + [|init|] else at)
  {
  }

  /** The positions are exactly those that stay. */
  ghost predicate Exactly(at: seq<nat>, n: nat, stays: nat -> bool) {
    forall i: nat :: i in at <==> i < n && stays(i)
  }

  lemma {:induction false} ExactlyMore(at: seq<nat>, n: nat, stays: nat -> bool)
    requires Exactly(at, n, stays)
    ensures Exactly(if stays(n) then at + [n] else at, n + 1, stays)
  {
    forall i: nat ensures i in (if stays(n) then at + [n] else at) <==> i < n + 1 && stays(i) {
      assert i in at <==> i < n && stays(i);
    }
  }

  lemma {:induction false} ExactlySame(at: seq<nat>, n: nat, stays: nat -> bool, stays': nat -> bool)
    requires Exactly(at, n, stays) && forall i :: 0 <= i < n ==> stays(i) == stays'(i)
    ensures Exactly(at, n, stays')
  {
    forall i: nat ensures i in at <==> i < n && stays'(i) {
      assert i in at <==> i < n && stays(i);
    }
  }

  ghost function StaysNode(nodes: seq<Node>, removed: set<Id>): nat -> bool {
    (i: nat) => i < |nodes| && nodes[i].id !in removed
  }

  ghost function StaysEdge(edges: seq<Edge>, removed: set<Id>): nat -> bool {
    (i: nat) => i < |edges| && edges[i].source !in removed && edges[i].target !in removed
  }

  /** The nodes that stay, in their order. */
  lemma {:induction false} NodesStay(nodes: seq<Node>, removed: set<Id>) returns (at: seq<nat>)
    ensures SelectedAt(KeptNodes(nodes, removed), nodes, at) && Exactly(at, |nodes|, StaysNode(nodes, removed))
    decreases |nodes|
  {
    if nodes == [] {
      at := [];
    } else {
      var k := |nodes| - 1;
      var init, stays := nodes[..k], StaysNode(nodes, removed);
      var before := NodesStay(init, removed);
      assert nodes == init + [nodes[k]];
      SelectedMore(KeptNodes(init, removed), init, nodes[k], before, stays(k));
      ExactlySame(before, k, StaysNode(init, removed), stays);
      ExactlyMore(before, k, stays);
      hide SelectedAt, Exactly;
      at := if stays(k) then before + [k] else before;
    }
  }

  /** The nodes that stay, each with its multiplicity. */
  lemma {:induction false} KeptCount(nodes: seq<Node>, removed: set<Id>, n: Node)
    ensures multiset(KeptNodes(nodes, removed))[n] == if n.id in removed then 0 else multiset(nodes)[n]
    decreases |nodes|
  {
    if nodes != [] {
      KeptCount(nodes[..|nodes| - 1], removed, n);
      assert nodes == nodes[..|nodes| - 1] + [nodes[|nodes| - 1]];
    }
  }

  /** The edges that stay, in their order. */
  lemma {:induction false} EdgesStay(edges: seq<Edge>, removed: set<Id>) returns (at: seq<nat>)
    ensures SelectedAt(KeptEdges(edges, removed), edges, at) && Exactly(at, |edges|, StaysEdge(edges, removed))
    decreases |edges|
  {
    if edges == [] {
      at := [];
    } else {
      var k := |edges| - 1;
      var init, stays := edges[..k], StaysEdge(edges, removed);
      var before := EdgesStay(init, removed);
      assert edges == init + [edges[k]];
      SelectedMore(KeptEdges(init, removed), init, edges[k], before, stays(k));
      ExactlySame(before, k, StaysEdge(init, removed), stays);
      ExactlyMore(before, k, stays);
      hide SelectedAt, Exactly;
      at := if stays(k) then before + [k] else before;
    }
  }

  // What the edges put in stand for.

  function Total(edges: seq<Edge>): int {
    if edges == [] then 0 else Total(edges[..|edges| - 1]) + edges[|edges| - 1].cumulative
  }

  lemma {:induction false} TotalCons(e: Edge, edges: seq<Edge>)
    ensures Total([e] + edges) == e.cumulative + Total(edges)
  {
    var all := [e] + edges;
    if edges == [] {
      assert all[..0] == [];
    } else {
      var k := |edges| - 1;
      assert all[..|all| - 1] == [e] + edges[..k];
      TotalCons(e, edges[..k]);
    }
  }

  lemma {:induction false} TotalIsSum(edges: seq<Edge>)
    ensures Total(edges) == Sum(edges)
  {
    if edges != [] {
      TotalIsSum(edges[1..]);
      TotalCons(edges[0], edges[1..]);
      assert edges == [edges[0]] + edges[1..];
    }
  }

  /** The chain of calls upwards from a removed node through removed nodes to one that stays. */
  ghost predicate ChainUp(edges: seq<Edge>, removed: set<Id>, r: Id, chain: seq<Edge>, top: Id) {
    && |chain| >= 1 && chain[0].target == r && chain[|chain| - 1].source == top && top !in removed
    && (forall i :: 0 <= i < |chain| ==> chain[i] in edges && chain[i].target in removed)
    && forall i :: 0 <= i < |chain| - 1 ==> chain[i].source == chain[i + 1].target
  }

  lemma {:induction false} ClimbedIsChain(edges: seq<Edge>, removed: set<Id>, r: Id, steps: nat)
    requires SingleCaller(edges, removed) && r in removed && Climb(edges, removed, r, steps) !in removed
    ensures ChainUp(edges, removed, r, Climbed(edges, removed, r, steps), Climb(edges, removed, r, steps))
    decreases steps
  {
    var e := Incoming(edges, r)[0];
    assert e in edges && e.target == r;
    hide Incoming, CallsIncoming, SingleCaller;
    if e.source in removed {
      ClimbedIsChain(edges, removed, e.source, steps - 1);
    } else {
      ClimbOutside(edges, removed, e.source, steps - 1);
    }
  }

  lemma ClimbOutside(edges: seq<Edge>, removed: set<Id>, r: Id, steps: nat)
    requires SingleCaller(edges, removed) && r !in removed
    ensures Climb(edges, removed, r, steps) == r && Climbed(edges, removed, r, steps) == []
  {
  }

  /**
   The edge stands for the call of a removed node to a node that stays: it comes from the nearest caller
   that stays, is collapsed, and its value is the sum over the chain up to that caller.
   */
  ghost predicate StandsIn(edges: seq<Edge>, removed: set<Id>, e: Edge, call: Edge) {
    && call in edges && call.source in removed && call.target !in removed
    && e.target == call.target && e.collapsed
    && exists chain :: ChainUp(edges, removed, call.source, chain, e.source) && e.cumulative == Total(chain)
  }

  /** The edges put in stand for the given calls one by one, with new ids in turn. */
  ghost predicate StandInFor(edges: seq<Edge>, removed: set<Id>, uuid: nat -> Id, created: seq<Edge>,
      calls: seq<Edge>)
  {
    && |calls| == |created|
    && forall i :: 0 <= i < |created| ==> created[i].id == uuid(i) && StandsIn(edges, removed, created[i], calls[i])
  }

  /** The calls among `out` to nodes that stay. */
  ghost function CallsOutside(out: seq<Edge>, removed: set<Id>): seq<Edge> {
    if out == [] then []
    else
      CallsOutside(out[..|out| - 1], removed)
      + (if out[|out| - 1].target in removed then [] else [out[|out| - 1]])
  }

  lemma {:induction false} CallsOutsideCount(out: seq<Edge>, removed: set<Id>, o: Edge)
    ensures multiset(CallsOutside(out, removed))[o] == if o.target in removed then 0 else multiset(out)[o]
    decreases |out|
  {
    if out != [] {
      CallsOutsideCount(out[..|out| - 1], removed, o);
      assert out == out[..|out| - 1] + [out[|out| - 1]];
    }
  }

  lemma {:induction false} NewEdgeStandsIn(edges: seq<Edge>, removed: set<Id>, r: Id, o: Edge, id: Id)
    requires SingleCaller(edges, removed) && !RemovedCycle(edges, removed)
    requires r in removed && o in edges && o.source == r && o.target !in removed
    ensures
      StandsIn(edges, removed, Edge(id, Parent(edges, removed, r), o.target, Sum(Chain(edges, removed, r)), true), o)
  {
    ParentStays(edges, removed, r);
    ClimbedIsChain(edges, removed, r, |removed|);
    TotalIsSum(Chain(edges, removed, r));
  }

  lemma {:induction false} PatchedStandIn(edges: seq<Edge>, removed: set<Id>, uuid: nat -> Id, created: seq<Edge>,
      r: Id, out: seq<Edge>, calls: seq<Edge>)
    requires SingleCaller(edges, removed) && !RemovedCycle(edges, removed) && r in removed && CallsOf(edges, r, out)
    requires StandInFor(edges, removed, uuid, created, calls)
    ensures StandInFor(edges, removed, uuid, Patched(edges, removed, uuid, created, r, out),
                       calls + CallsOutside(out, removed))
    decreases |out|
  {
    hide SingleCaller, RemovedCycle, StandsIn, Parent, Chain, Sum;
    if out == [] {
      assert calls + [] == calls;
    } else {
      var init, o := out[..|out| - 1], out[|out| - 1];
      PatchedStandIn(edges, removed, uuid, created, r, init, calls);
      assert o in out;
      if o.target !in removed {
        var before := Patched(edges, removed, uuid, created, r, init);
        NewEdgeStandsIn(edges, removed, r, o, uuid(|before|));
        var more := calls + CallsOutside(init, removed);
        assert calls + CallsOutside(out, removed) == more + [o];
      }
    }
  }

  /** The calls that edges are put in for: those by the removed nodes, node by node. */
  ghost function CallsOutOf(edges: seq<Edge>, removed: set<Id>, nodes: seq<Node>): seq<Edge> {
    if nodes == [] then []
    else
      var before, n := CallsOutOf(edges, removed, nodes[..|nodes| - 1]), nodes[|nodes| - 1];
      if n.id in removed then before + CallsOutside(Outgoing(edges, n.id), removed) else before
  }

  lemma {:induction false} CreatedStandIn(edges: seq<Edge>, removed: set<Id>, uuid: nat -> Id, nodes: seq<Node>)
    requires SingleCaller(edges, removed) && !RemovedCycle(edges, removed)
    ensures StandInFor(edges, removed, uuid, Created(edges, removed, uuid, nodes), CallsOutOf(edges, removed, nodes))
    decreases |nodes|
  {
    hide SingleCaller, RemovedCycle, StandsIn, Patched, CallsOutside;
    if nodes != [] {
      var init, id := nodes[..|nodes| - 1], nodes[|nodes| - 1].id;
      CreatedStandIn(edges, removed, uuid, init);
      if id in removed {
        PatchedStandIn(edges, removed, uuid, Created(edges, removed, uuid, init), id, Outgoing(edges, id),
          CallsOutOf(edges, removed, init));
      }
    }
  }

  ghost predicate HasNode(nodes: seq<Node>, id: Id) {
    exists n :: n in nodes && n.id == id
  }

  ghost predicate UniqueNodes(nodes: seq<Node>) {
    && (forall n: Node :: multiset(nodes)[n] <= 1)
    && forall m, n :: m in nodes && n in nodes && m.id == n.id ==> m == n
  }

  lemma {:induction false} OutgoingCount(edges: seq<Edge>, id: Id, o: Edge)
    ensures multiset(Outgoing(edges, id))[o] == if o.source == id then multiset(edges)[o] else 0
    decreases |edges|
  {
    if edges != [] {
      var init, e := edges[..|edges| - 1], edges[|edges| - 1];
      OutgoingCount(init, id, o);
      assert edges == init + [e];
      CallsSnoc(init, e, id);
    }
  }

  /** The calls of one more node. */
  lemma {:induction false} CallsOutOfMore(edges: seq<Edge>, removed: set<Id>, nodes: seq<Node>, o: Edge)
    requires nodes != []
    ensures
      var k := |nodes| - 1;
      multiset(CallsOutOf(edges, removed, nodes))[o] == multiset(CallsOutOf(edges, removed, nodes[..k]))[o]
        + (if nodes[k].id in removed && o.source == nodes[k].id && o.target !in removed then multiset(edges)[o] else 0)
  {
    hide Outgoing, CallsOutside;
    var id := nodes[|nodes| - 1].id;
    OutgoingCount(edges, id, o);
    CallsOutsideCount(Outgoing(edges, id), removed, o);
  }

  lemma {:induction false} UniquePermuted(nodes: seq<Node>, sorted: seq<Node>)
    requires UniqueNodes(nodes) && multiset(sorted) == multiset(nodes)
    ensures UniqueNodes(sorted)
  {
    forall n ensures n in sorted <==> n in nodes {
      assert n in sorted <==> n in multiset(sorted);
    }
  }

  lemma {:induction false} UniqueLast(nodes: seq<Node>, id: Id)
    requires UniqueNodes(nodes) && nodes != []
    ensures
      var k := |nodes| - 1;
      && UniqueNodes(nodes[..k])
      && (HasNode(nodes, id) <==> HasNode(nodes[..k], id) || nodes[k].id == id)
      && (nodes[k].id == id ==> !HasNode(nodes[..k], id))
  {
    var k := |nodes| - 1;
    assert nodes == nodes[..k] + [nodes[k]];
    forall n: Node ensures multiset(nodes[..k])[n] <= 1 {
      assert multiset(nodes)[n] <= 1;
    }
    if n :| n in nodes[..k] && n.id == id {
      assert n in multiset(nodes[..k]);
      assert multiset(nodes)[nodes[k]] <= 1;
    }
  }

  /** Every call of a removed node to a staying one is told as often as the graph has it. */
  lemma {:induction false} CallsOutOfCount(edges: seq<Edge>, removed: set<Id>, nodes: seq<Node>, o: Edge)
    requires UniqueNodes(nodes)
    ensures multiset(CallsOutOf(edges, removed, nodes))[o] ==
      if o.source in removed && o.target !in removed && HasNode(nodes, o.source) then multiset(edges)[o] else 0
    decreases |nodes|
  {
    if nodes != [] {
      UniqueLast(nodes, o.source);
      CallsOutOfCount(edges, removed, nodes[..|nodes| - 1], o);
      CallsOutOfMore(edges, removed, nodes, o);
      hide CallsOutOf, HasNode, UniqueNodes;
    }
  }

  // The ends of the edges.

  /** Both ends of every edge are nodes. */
  ghost predicate Closed(g: Graph) {
    forall e :: e in g.edges ==> HasNode(g.nodes, e.source) && HasNode(g.nodes, e.target)
  }

  lemma {:induction false} StaysInGraph(nodes: seq<Node>, sorted: seq<Node>, kept: seq<Node>, removed: set<Id>, id: Id)
    requires HasNode(nodes, id) && id !in removed && multiset(sorted) == multiset(nodes)
    requires forall n :: multiset(kept)[n] == if n.id in removed then 0 else multiset(sorted)[n]
    ensures HasNode(kept, id)
  {
    var n :| n in nodes && n.id == id;
    assert n in multiset(nodes);
    assert n in multiset(kept);
  }

  lemma {:induction false} StandInEnds(g: Graph, removed: set<Id>, e: Edge, call: Edge)
    requires StandsIn(g.edges, removed, e, call) && Closed(g)
    ensures HasNode(g.nodes, e.source) && HasNode(g.nodes, e.target)
    ensures e.source !in removed && e.target !in removed
  {
    var chain :| ChainUp(g.edges, removed, call.source, chain, e.source) && e.cumulative == Total(chain);
    assert chain[|chain| - 1] in g.edges;
  }

  /**
   The edges of the pruned graph: first those that touch no removed node, in their order; then one edge for
   every call of a removed node to a node that stays. If both ends of every edge were nodes, they still are.
   */
  lemma {:induction false} PrunedEdgesExactly(g: Graph, removed: set<Id>, uuid: nat -> Id, nodes: seq<Node>)
    returns (at: seq<nat>, calls: seq<Edge>)
    requires SingleCaller(g.edges, removed) && !RemovedCycle(g.edges, removed)
    requires multiset(nodes) == multiset(g.nodes) && forall r :: r in removed ==> HasNode(g.nodes, r)
    ensures
      var r := PrunedEdges(g.edges, removed, uuid, nodes);
      && |r| == |at| + |calls|
      && SelectedAt(r[..|at|], g.edges, at)
      && (forall i :: 0 <= i < |g.edges| ==>
            (i in at <==> g.edges[i].source !in removed && g.edges[i].target !in removed))
      && StandInFor(g.edges, removed, uuid, r[|at|..], calls)
    ensures UniqueNodes(g.nodes) ==>
      forall o :: multiset(calls)[o] ==
        if o.source in removed && o.target !in removed then multiset(g.edges)[o] else 0
    ensures Closed(g) ==> Closed(Graph(KeptNodes(nodes, removed), PrunedEdges(g.edges, removed, uuid, nodes)))
  {
    hide SingleCaller, RemovedCycle, StandInFor, UniqueNodes;
    var kept, created := KeptEdges(g.edges, removed), Created(g.edges, removed, uuid, nodes);
    at := EdgesStay(g.edges, removed);
    calls := CallsOutOf(g.edges, removed, nodes);
    CreatedStandIn(g.edges, removed, uuid, nodes);
    CreatedAsMany(g.edges, removed, uuid, created, calls);
    assert (kept + created)[..|at|] == kept && (kept + created)[|at|..] == created;
    if UniqueNodes(g.nodes) {
      UniquePermuted(g.nodes, nodes);
      forall o ensures multiset(calls)[o] ==
        if o.source in removed && o.target !in removed then multiset(g.edges)[o] else 0
      {
        CallsOutOfCount(g.edges, removed, nodes, o);
        if o.source in removed {
          HasNodePermuted(g.nodes, nodes, o.source);
        }
      }
    }
    if Closed(g) {
      PrunedIsClosed(g, removed, uuid, nodes, calls);
    }
  }

  lemma CreatedAsMany(edges: seq<Edge>, removed: set<Id>, uuid: nat -> Id, created: seq<Edge>, calls: seq<Edge>)
    requires StandInFor(edges, removed, uuid, created, calls)
    ensures |calls| == |created|
  {
  }

  lemma {:induction false} HasNodePermuted(nodes: seq<Node>, sorted: seq<Node>, id: Id)
    requires HasNode(nodes, id) && multiset(sorted) == multiset(nodes)
    ensures HasNode(sorted, id)
  {
    var n :| n in nodes && n.id == id;
    assert n in multiset(sorted);
  }

  lemma {:induction false} PrunedIsClosed(g: Graph, removed: set<Id>, uuid: nat -> Id, nodes: seq<Node>,
      calls: seq<Edge>)
    requires SingleCaller(g.edges, removed) && Closed(g) && multiset(nodes) == multiset(g.nodes)
    requires StandInFor(g.edges, removed, uuid, Created(g.edges, removed, uuid, nodes), calls)
    ensures Closed(Graph(KeptNodes(nodes, removed), PrunedEdges(g.edges, removed, uuid, nodes)))
  {
    hide SingleCaller, StandsIn, HasNode;
    var kept, created := KeptNodes(nodes, removed), Created(g.edges, removed, uuid, nodes);
    KeptEdgesMembers(g.edges, removed);
    forall n: Node ensures multiset(kept)[n] == if n.id in removed then 0 else multiset(nodes)[n] {
      KeptCount(nodes, removed, n);
    }
    forall e | e in PrunedEdges(g.edges, removed, uuid, nodes)
      ensures HasNode(kept, e.source) && HasNode(kept, e.target)
    {
      if e !in KeptEdges(g.edges, removed) {
        var i :| 0 <= i < |created| && created[i] == e;
        StandInEnds(g, removed, e, calls[i]);
      }
      StaysInGraph(g.nodes, nodes, kept, removed, e.source);
      StaysInGraph(g.nodes, nodes, kept, removed, e.target);
    }
  }

  /** Dropping nodes leaves the others in descending order. */
  lemma {:induction false} KeptDescend(nodes: seq<Node>, removed: set<Id>)
    requires forall i, j :: 0 <= i < j < |nodes| ==> nodes[i].cumulative >= nodes[j].cumulative
    ensures
      var kept := KeptNodes(nodes, removed);
      forall i, j :: 0 <= i < j < |kept| ==> kept[i].cumulative >= kept[j].cumulative
  {
    var at := NodesStay(nodes, removed);
  }

  /** Nodes and edges together, for the sorted nodes. */
  lemma {:induction false} PrunedShape(g: Graph, removed: set<Id>, uuid: nat -> Id, nodes: seq<Node>)
    requires SingleCaller(g.edges, removed) && !RemovedCycle(g.edges, removed)
    requires multiset(nodes) == multiset(g.nodes) && forall r :: r in removed ==> HasNode(g.nodes, r)
    requires forall i, j :: 0 <= i < j < |nodes| ==> nodes[i].cumulative >= nodes[j].cumulative
    ensures
      var kept := KeptNodes(nodes, removed);
      && (forall n: Node :: multiset(kept)[n] == if n.id in removed then 0 else multiset(g.nodes)[n])
      && (forall i, j :: 0 <= i < j < |kept| ==> kept[i].cumulative >= kept[j].cumulative)
      && (Closed(g) ==> Closed(Graph(kept, PrunedEdges(g.edges, removed, uuid, nodes))))
  {
    hide SingleCaller, RemovedCycle, HasNode, Closed, PrunedEdges;
    var kept := KeptNodes(nodes, removed);
    forall n: Node ensures multiset(kept)[n] == if n.id in removed then 0 else multiset(g.nodes)[n] {
      KeptCount(nodes, removed, n);
    }
    KeptDescend(nodes, removed);
    var at, calls := PrunedEdgesExactly(g, removed, uuid, nodes);
  }
}
