/**
 Pruning of a call graph: nodes below a cut-off that have one caller and some callee are removed, and
 their callees are connected to the nearest caller that stays.
 */
module Callgraphs {
  type Id = int

  datatype Node = Node(id: Id, cumulative: int)
  datatype Edge = Edge(id: Id, source: Id, target: Id, cumulative: int, collapsed: bool)
  datatype Graph = Graph(nodes: seq<Node>, edges: seq<Edge>)

  /** What the code takes for granted of the identifiers of edges. */
  ghost predicate UniqueIds(g: Graph) {
    forall i, j :: 0 <= i < j < |g.edges| ==> g.edges[i].id != g.edges[j].id
  }

  /** Exactly the calls to a node. */
  ghost predicate CallsIncoming(edges: seq<Edge>, id: Id, r: seq<Edge>) {
    forall e :: e in r <==> e in edges && e.target == id
  }

  ghost predicate CallsOutgoing(edges: seq<Edge>, id: Id, r: seq<Edge>) {
    forall e :: e in r <==> e in edges && e.source == id
  }

  function Incoming(edges: seq<Edge>, id: Id): (r: seq<Edge>)
    ensures CallsIncoming(edges, id, r)
  {
    if edges == [] then []
    else
      var (init, e) := (edges[..|edges| - 1], edges[|edges| - 1]);
      assert edges == init + [e];
      Incoming(init, id) + (if e.target == id then [e] else [])
  }

  function Outgoing(edges: seq<Edge>, id: Id): (r: seq<Edge>)
    ensures CallsOutgoing(edges, id, r)
  {
    if edges == [] then []
    else
      var (init, e) := (edges[..|edges| - 1], edges[|edges| - 1]);
      assert edges == init + [e];
      Outgoing(init, id) + (if e.source == id then [e] else [])
  }

  lemma {:induction false} CallsSnoc(edges: seq<Edge>, e: Edge, id: Id)
    ensures Incoming(edges + [e], id) == if e.target == id then Incoming(edges, id) + [e] else Incoming(edges, id)
    ensures Outgoing(edges + [e], id) == if e.source == id then Outgoing(edges, id) + [e] else Outgoing(edges, id)
  {
    assert (edges + [e])[..|edges|] == edges;
  }

  lemma NoCalls(id: Id)
    ensures Incoming([], id) == [] && Outgoing([], id) == []
  {
  }

  predicate Removable(edges: seq<Edge>, cutoff: int, n: Node) {
    n.cumulative < cutoff && |Incoming(edges, n.id)| == 1 && |Outgoing(edges, n.id)| > 0
  }

  /** The nodes pruning removes. */
  ghost function Removed(g: Graph, cutoff: int): set<Id> {
    set n | n in g.nodes && Removable(g.edges, cutoff, n) :: n.id
  }

  ghost predicate SingleCaller(edges: seq<Edge>, removed: set<Id>) {
    forall r :: r in removed ==> |Incoming(edges, r)| == 1
  }

  // Climbing from a removed node.

  /** Following single incoming edges for up to `steps` steps, while the node is removed. */
  ghost function Climb(edges: seq<Edge>, removed: set<Id>, r: Id, steps: nat): Id
    requires SingleCaller(edges, removed)
    decreases steps
  {
    if steps == 0 || r !in removed then r
    else Climb(edges, removed, Incoming(edges, r)[0].source, steps - 1)
  }

  /** The edges passed on the way. */
  ghost function Climbed(edges: seq<Edge>, removed: set<Id>, r: Id, steps: nat): seq<Edge>
    requires SingleCaller(edges, removed)
    decreases steps
  {
    if steps == 0 || r !in removed then []
    else [Incoming(edges, r)[0]] + Climbed(edges, removed, Incoming(edges, r)[0].source, steps - 1)
  }

  function Sum(edges: seq<Edge>): int {
    if edges == [] then 0 else edges[0].cumulative + Sum(edges[1..])
  }

  ghost predicate Escapes(edges: seq<Edge>, removed: set<Id>, r: Id)
    requires SingleCaller(edges, removed)
  {
    exists steps: nat :: Climb(edges, removed, r, steps) !in removed
  }

  ghost predicate Connected(edges: seq<Edge>, a: Id, b: Id) {
    exists e :: e in edges && e.source == a && e.target == b
  }

  ghost predicate Walk(edges: seq<Edge>, p: seq<Id>) {
    forall i :: 0 <= i < |p| - 1 ==> Connected(edges, p[i], p[i + 1])
  }

  ghost predicate CycleOf(edges: seq<Edge>, removed: set<Id>, c: seq<Id>) {
    |c| >= 2 && c[0] == c[|c| - 1] && Walk(edges, c) && forall i :: 0 <= i < |c| ==> c[i] in removed
  }

  ghost predicate RemovedCycle(edges: seq<Edge>, removed: set<Id>) {
    exists c :: CycleOf(edges, removed, c)
  }

  lemma {:induction false} ClimbOnce(edges: seq<Edge>, removed: set<Id>, r: Id, steps: nat)
    requires SingleCaller(edges, removed)
    ensures
      var c := Climb(edges, removed, r, steps);
      Climb(edges, removed, r, steps + 1) == if c in removed then Incoming(edges, c)[0].source else c
    decreases steps
  {
    if steps > 0 && r in removed {
      ClimbOnce(edges, removed, Incoming(edges, r)[0].source, steps - 1);
    }
  }

  /** Once outside, more steps change nothing. */
  lemma {:induction false} ClimbStays(edges: seq<Edge>, removed: set<Id>, r: Id, i: nat, j: nat)
    requires SingleCaller(edges, removed) && i <= j && Climb(edges, removed, r, i) !in removed
    ensures Climb(edges, removed, r, j) == Climb(edges, removed, r, i)
    ensures Climbed(edges, removed, r, j) == Climbed(edges, removed, r, i)
    decreases i
  {
    if i > 0 && r in removed {
      ClimbStays(edges, removed, Incoming(edges, r)[0].source, i - 1, j - 1);
    }
  }

  /** More entries than there are holes: two of them are the same. */
  lemma {:induction false} RepeatedAmong(s: seq<Id>, holes: set<Id>) returns (i: nat, j: nat)
    requires |s| > |holes| && forall k :: 0 <= k < |s| ==> s[k] in holes
    ensures i < j < |s| && s[i] == s[j]
    decreases |s|
  {
    var n := |s| - 1;
    if k :| 0 <= k < n && s[k] == s[n] {
      i, j := k, n;
    } else {
      i, j := RepeatedAmong(s[..n], holes - {s[n]});
    }
  }

  lemma {:induction false} ClimbBack(edges: seq<Edge>, removed: set<Id>, r: Id, steps: nat)
    requires SingleCaller(edges, removed) && Climb(edges, removed, r, steps) in removed
    ensures Connected(edges, Climb(edges, removed, r, steps + 1), Climb(edges, removed, r, steps))
  {
    ClimbOnce(edges, removed, r, steps);
    var e := Incoming(edges, Climb(edges, removed, r, steps))[0];
    assert e in edges;
  }

  lemma {:induction false} RepeatMeansCycle(edges: seq<Edge>, removed: set<Id>, r: Id, i: nat, j: nat)
    requires SingleCaller(edges, removed) && i < j && Climb(edges, removed, r, i) == Climb(edges, removed, r, j)
    requires forall k :: 0 <= k <= j ==> Climb(edges, removed, r, k) in removed
    ensures RemovedCycle(edges, removed)
  {
    hide SingleCaller, Climb, Connected;
    var c := seq(j - i + 1, k requires 0 <= k <= j - i => Climb(edges, removed, r, j - k));
    forall k | 0 <= k < |c| - 1 ensures Connected(edges, c[k], c[k + 1]) {
      ClimbBack(edges, removed, r, j - k - 1);
    }
    assert CycleOf(edges, removed, c);
  }

  /** A climb that has not escaped after as many steps as there are removed nodes passed a cycle. */
  lemma {:induction false} StuckMeansCycle(edges: seq<Edge>, removed: set<Id>, r: Id)
    requires SingleCaller(edges, removed) && Climb(edges, removed, r, |removed|) in removed
    ensures RemovedCycle(edges, removed)
  {
    hide SingleCaller, RemovedCycle, Climb;
    forall k: nat | k <= |removed| ensures Climb(edges, removed, r, k) in removed {
      if Climb(edges, removed, r, k) !in removed {
        ClimbStays(edges, removed, r, k, |removed|);
      }
    }
    var s := seq(|removed| + 1, k requires 0 <= k => Climb(edges, removed, r, k));
    var i, j := RepeatedAmong(s, removed);
    RepeatMeansCycle(edges, removed, r, i, j);
  }

  lemma {:induction false} CallerOnCycle(edges: seq<Edge>, removed: set<Id>, c: seq<Id>, i: nat) returns (k: nat)
    requires SingleCaller(edges, removed) && CycleOf(edges, removed, c) && i < |c|
    ensures k < |c| && c[i] in removed && Incoming(edges, c[i]) != [] && Incoming(edges, c[i])[0].source == c[k]
  {
    var j := if i == 0 then |c| - 1 else i;
    k := j - 1;
    assert Connected(edges, c[k], c[k + 1]);
    CallerIs(edges, c[k], c[j]);
  }

  /** On a cycle of removed nodes the single caller is the predecessor, so a climb never leaves it. */
  lemma {:induction false} CycleTraps(edges: seq<Edge>, removed: set<Id>, c: seq<Id>, i: nat, steps: nat)
    requires SingleCaller(edges, removed) && CycleOf(edges, removed, c) && i < |c|
    ensures Climb(edges, removed, c[i], steps) in removed
    decreases steps
  {
    hide SingleCaller, CycleOf, Incoming, CallsIncoming;
    var k := CallerOnCycle(edges, removed, c, i);
    if steps > 0 {
      CycleTraps(edges, removed, c, k, steps - 1);
    }
  }

  lemma {:induction false} CallerIs(edges: seq<Edge>, a: Id, b: Id)
    requires Connected(edges, a, b) && |Incoming(edges, b)| == 1
    ensures Incoming(edges, b)[0].source == a
  {
    var e :| e in edges && e.source == a && e.target == b;
    assert e in Incoming(edges, b);
  }

  /** The search for a parent ends for every removed node exactly when no cycle consists of removed nodes. */
  lemma {:induction false} ClimbsEndIffNoCycle(edges: seq<Edge>, removed: set<Id>)
    requires SingleCaller(edges, removed)
    ensures (forall r :: r in removed ==> Escapes(edges, removed, r)) <==> !RemovedCycle(edges, removed)
  {
    if c :| CycleOf(edges, removed, c) {
      forall steps: nat ensures Climb(edges, removed, c[0], steps) in removed {
        CycleTraps(edges, removed, c, 0, steps);
      }
      assert c[0] in removed && !Escapes(edges, removed, c[0]);
    } else {
      forall r | r in removed ensures Escapes(edges, removed, r) {
        if Climb(edges, removed, r, |removed|) in removed {
          StuckMeansCycle(edges, removed, r);
        }
      }
    }
  }

  /**
   What the leaf-first stacks [2, 1, 1] of value 1 and [3] of value 1000 lead to. Of their total of
   1001 the cut-off takes 5.005, so the nodes with a value below 6 may be pruned.
   */
  const SELF_CALLER :=
    Graph([Node(2, 1), Node(1, 2), Node(3, 1000)], [Edge(1, 1, 2, 1, false), Edge(2, 1, 1, 1, false)])

  lemma {:induction false} PairEdges(a: Edge, b: Edge)
    requires b.target == b.source == a.source != a.target
    ensures Incoming([a, b], b.target) == [b] && Outgoing([a, b], b.source) == [a, b]
    ensures Outgoing([a, b], a.target) == []
  {
    assert [a] == [] + [a] && [a, b] == [a] + [b];
    CallsSnoc([], a, b.source);
    CallsSnoc([a], b, b.source);
    CallsSnoc([], a, a.target);
    CallsSnoc([a], b, a.target);
    hide Incoming, Outgoing;
    NoCalls(a.target);
    NoCalls(b.source);
  }

  lemma {:induction false} SelfCallerRemoved()
    ensures Removed(SELF_CALLER, 6) == {1} && SingleCaller(SELF_CALLER.edges, {1})
  {
    var edges, nodes := SELF_CALLER.edges, SELF_CALLER.nodes;
    PairEdges(edges[0], edges[1]);
    assert edges == [edges[0], edges[1]];
    hide Incoming, Outgoing, CallsIncoming, CallsOutgoing;
    assert Removable(edges, 6, nodes[1]) && !Removable(edges, 6, nodes[0]) && !Removable(edges, 6, nodes[2]);
    RemovedOfThree(nodes[0], nodes[1], nodes[2], edges, 6);
  }

  lemma {:induction false} RemovedOfThree(a: Node, b: Node, c: Node, edges: seq<Edge>, cutoff: int)
    requires !Removable(edges, cutoff, a) && Removable(edges, cutoff, b) && !Removable(edges, cutoff, c)
    ensures Removed(Graph([a, b, c], edges), cutoff) == {b.id}
  {
    hide Removable;
    assert b in [a, b, c];
  }

  /** A cheap function whose only caller is itself: the search for its parent never ends. */
  lemma {:induction false} SelfCallerNeverEscapes()
    ensures UniqueIds(SELF_CALLER) && 1 in Removed(SELF_CALLER, 6)
    ensures SingleCaller(SELF_CALLER.edges, Removed(SELF_CALLER, 6))
    ensures !Escapes(SELF_CALLER.edges, Removed(SELF_CALLER, 6), 1)
  {
    hide Removed, SingleCaller, Climb;
    SelfCallerRemoved();
    var edges, c := SELF_CALLER.edges, [1, 1];
    assert edges[1] in edges && Connected(edges, 1, 1);
    assert CycleOf(edges, {1}, c);
    forall steps: nat ensures Climb(edges, {1}, c[0], steps) in {1} {
      CycleTraps(edges, {1}, c, 0, steps);
    }
  }

  // The pruned graph.

  /** The nearest caller that stays. */
  ghost function Parent(edges: seq<Edge>, removed: set<Id>, r: Id): Id
    requires SingleCaller(edges, removed)
  {
    Climb(edges, removed, r, |removed|)
  }

  ghost function Chain(edges: seq<Edge>, removed: set<Id>, r: Id): seq<Edge>
    requires SingleCaller(edges, removed)
  {
    Climbed(edges, removed, r, |removed|)
  }

  predicate Touches(e: Edge, removed: set<Id>) {
    e.source in removed || e.target in removed
  }

  ghost function KeptNodes(nodes: seq<Node>, removed: set<Id>): seq<Node> {
    if nodes == [] then []
    else
      var last := nodes[|nodes| - 1];
      KeptNodes(nodes[..|nodes| - 1], removed) + (if last.id in removed then [] else [last])
  }

  ghost function KeptEdges(edges: seq<Edge>, removed: set<Id>): seq<Edge> {
    if edges == [] then []
    else
      var last := edges[|edges| - 1];
      KeptEdges(edges[..|edges| - 1], removed) + (if Touches(last, removed) then [] else [last])
  }

  /** The edges that connect the staying callees among `out` of a removed node, after those created so far. */
  ghost function Patched(edges: seq<Edge>, removed: set<Id>, uuid: nat -> Id, created: seq<Edge>, r: Id,
      out: seq<Edge>): seq<Edge>
    requires SingleCaller(edges, removed)
    decreases |out|
  {
    if out == [] then created
    else
      var before := Patched(edges, removed, uuid, created, r, out[..|out| - 1]);
      var target := out[|out| - 1].target;
      if target in removed then before
      else before + [Edge(uuid(|before|), Parent(edges, removed, r), target, Sum(Chain(edges, removed, r)), true)]
  }

  ghost function Created(edges: seq<Edge>, removed: set<Id>, uuid: nat -> Id, nodes: seq<Node>): seq<Edge>
    requires SingleCaller(edges, removed)
  {
    if nodes == [] then []
    else
      var before, n := Created(edges, removed, uuid, nodes[..|nodes| - 1]), nodes[|nodes| - 1];
      if n.id in removed then Patched(edges, removed, uuid, before, n.id, Outgoing(edges, n.id)) else before
  }

  ghost function PrunedEdges(edges: seq<Edge>, removed: set<Id>, uuid: nat -> Id, nodes: seq<Node>): seq<Edge>
    requires SingleCaller(edges, removed)
  {
    KeptEdges(edges, removed) + Created(edges, removed, uuid, nodes)
  }

  lemma {:induction false} KeptEdgesMembers(edges: seq<Edge>, removed: set<Id>)
    ensures forall e :: e in KeptEdges(edges, removed) <==> e in edges && !Touches(e, removed)
  {
    if edges != [] {
      KeptEdgesMembers(edges[..|edges| - 1], removed);
      assert edges == edges[..|edges| - 1] + [edges[|edges| - 1]];
    }
  }

  /** An edge connects the parent of a removed node to a staying callee of that node. */
  ghost predicate Bridges(edges: seq<Edge>, removed: set<Id>, r: Id, e: Edge)
    requires SingleCaller(edges, removed)
  {
    r in removed && e.source == Parent(edges, removed, r) && e.target !in removed && Connected(edges, r, e.target)
  }

  ghost predicate Bridge(edges: seq<Edge>, removed: set<Id>, e: Edge)
    requires SingleCaller(edges, removed)
  {
    exists r :: Bridges(edges, removed, r, e)
  }

  ghost predicate CallsOf(edges: seq<Edge>, r: Id, out: seq<Edge>) {
    forall o :: o in out ==> o in edges && o.source == r
  }

  lemma {:induction false} PatchedBridges(edges: seq<Edge>, removed: set<Id>, uuid: nat -> Id, created: seq<Edge>,
      r: Id, out: seq<Edge>)
    requires SingleCaller(edges, removed) && r in removed && CallsOf(edges, r, out)
    ensures
      var all := Patched(edges, removed, uuid, created, r, out);
      forall e :: e in all ==> e in created || Bridge(edges, removed, e)
    decreases |out|
  {
    if out != [] {
      var init, o := out[..|out| - 1], out[|out| - 1];
      PatchedBridges(edges, removed, uuid, created, r, init);
      assert o in out && Connected(edges, r, o.target);
      var all := Patched(edges, removed, uuid, created, r, out);
      assert o.target !in removed ==> Bridges(edges, removed, r, all[|all| - 1]);
    }
  }

  lemma {:induction false} PatchedConnects(edges: seq<Edge>, removed: set<Id>, uuid: nat -> Id, created: seq<Edge>,
      r: Id, out: seq<Edge>)
    requires SingleCaller(edges, removed)
    ensures
      var all := Patched(edges, removed, uuid, created, r, out);
      && created <= all
      && (forall o :: o in out && o.target !in removed ==> Connected(all, Parent(edges, removed, r), o.target))
    decreases |out|
  {
    if out != [] {
      var init, last := out[..|out| - 1], out[|out| - 1];
      PatchedConnects(edges, removed, uuid, created, r, init);
      assert out == init + [last];
      var before, all := Patched(edges, removed, uuid, created, r, init),
        Patched(edges, removed, uuid, created, r, out);
      if last.target !in removed {
        assert all[|before|] in all;
      }
      forall o | o in out && o.target !in removed ensures Connected(all, Parent(edges, removed, r), o.target) {
        if o in init {
          ConnectedPrefix(before, all, Parent(edges, removed, r), o.target);
        }
      }
    }
  }

  lemma {:induction false} ConnectedPrefix(some: seq<Edge>, more: seq<Edge>, a: Id, b: Id)
    requires some <= more && Connected(some, a, b)
    ensures Connected(more, a, b)
  {
    var e :| e in some && e.source == a && e.target == b;
    assert e in more;
  }

  lemma {:induction false} CreatedBridges(edges: seq<Edge>, removed: set<Id>, uuid: nat -> Id, nodes: seq<Node>)
    requires SingleCaller(edges, removed)
    ensures forall e :: e in Created(edges, removed, uuid, nodes) ==> Bridge(edges, removed, e)
  {
    if nodes != [] {
      var init, id := nodes[..|nodes| - 1], nodes[|nodes| - 1].id;
      CreatedBridges(edges, removed, uuid, init);
      if id in removed {
        PatchedBridges(edges, removed, uuid, Created(edges, removed, uuid, init), id, Outgoing(edges, id));
      }
    }
  }

  lemma {:induction false} CreatedConnects(edges: seq<Edge>, removed: set<Id>, uuid: nat -> Id, nodes: seq<Node>,
      n: Node, o: Edge)
    requires SingleCaller(edges, removed) && n in nodes && n.id in removed
    requires o in edges && o.source == n.id && o.target !in removed
    ensures Connected(Created(edges, removed, uuid, nodes), Parent(edges, removed, n.id), o.target)
  {
    hide Parent, SingleCaller;
    var init, last := nodes[..|nodes| - 1], nodes[|nodes| - 1];
    var before := Created(edges, removed, uuid, init);
    if last.id in removed {
      PatchedConnects(edges, removed, uuid, before, last.id, Outgoing(edges, last.id));
    }
    if n != last {
      assert nodes == init + [last];
      CreatedConnects(edges, removed, uuid, init, n, o);
      ConnectedPrefix(before, Created(edges, removed, uuid, nodes), Parent(edges, removed, n.id), o.target);
    }
  }

  lemma {:induction false} ParentStays(edges: seq<Edge>, removed: set<Id>, r: Id)
    requires SingleCaller(edges, removed) && !RemovedCycle(edges, removed)
    ensures Parent(edges, removed, r) !in removed
  {
    if Parent(edges, removed, r) in removed {
      StuckMeansCycle(edges, removed, r);
    }
  }

  /** No edge of the pruned graph touches a removed node. */
  lemma {:induction false} NoEdgeTouchesRemoved(edges: seq<Edge>, removed: set<Id>, uuid: nat -> Id, nodes: seq<Node>)
    requires SingleCaller(edges, removed) && !RemovedCycle(edges, removed)
    ensures forall e :: e in PrunedEdges(edges, removed, uuid, nodes) ==> !Touches(e, removed)
  {
    KeptEdgesMembers(edges, removed);
    CreatedBridges(edges, removed, uuid, nodes);
    forall e | e in Created(edges, removed, uuid, nodes) ensures !Touches(e, removed) {
      var r :| Bridges(edges, removed, r, e);
      ParentStays(edges, removed, r);
    }
  }

  // Reachability.

  ghost predicate WalkFrom(edges: seq<Edge>, p: seq<Id>, a: Id, b: Id) {
    |p| >= 2 && p[0] == a && p[|p| - 1] == b && Walk(edges, p)
  }

  /** Some chain of at least one call leads from `a` to `b`. */
  ghost predicate Reaches(edges: seq<Edge>, a: Id, b: Id) {
    exists p :: WalkFrom(edges, p, a, b)
  }

  lemma {:induction false} ConnectedReaches(edges: seq<Edge>, a: Id, b: Id)
    requires Connected(edges, a, b)
    ensures Reaches(edges, a, b)
  {
    assert WalkFrom(edges, [a, b], a, b);
  }

  lemma {:induction false} ReachesTransitive(edges: seq<Edge>, a: Id, b: Id, c: Id)
    requires Reaches(edges, a, b) && Reaches(edges, b, c)
    ensures Reaches(edges, a, c)
  {
    var p :| WalkFrom(edges, p, a, b);
    var q :| WalkFrom(edges, q, b, c);
    var r := p + q[1..];
    forall i | 0 <= i < |r| - 1 ensures Connected(edges, r[i], r[i + 1]) {
      if i < |p| - 1 {
        assert Connected(edges, p[i], p[i + 1]);
      } else {
        var k := i - (|p| - 1);
        assert r[i] == q[k] && Connected(edges, q[k], q[k + 1]);
      }
    }
    assert WalkFrom(edges, r, a, c);
  }

  /** What is climbed to reaches the start. */
  lemma {:induction false} ClimbReaches(edges: seq<Edge>, removed: set<Id>, r: Id, steps: nat, b: Id)
    requires SingleCaller(edges, removed) && Reaches(edges, r, b)
    ensures Reaches(edges, Climb(edges, removed, r, steps), b)
    decreases steps
  {
    if steps > 0 && r in removed {
      var e := Incoming(edges, r)[0];
      assert e in edges && Connected(edges, e.source, r);
      ConnectedReaches(edges, e.source, r);
      ReachesTransitive(edges, e.source, r, b);
      ClimbReaches(edges, removed, e.source, steps - 1, b);
    }
  }

  /** Every edge of the pruned graph is a chain of calls of the original one. */
  lemma {:induction false} PrunedEdgeReaches(edges: seq<Edge>, removed: set<Id>, uuid: nat -> Id, nodes: seq<Node>,
      a: Id, b: Id)
    requires SingleCaller(edges, removed) && Connected(PrunedEdges(edges, removed, uuid, nodes), a, b)
    ensures Reaches(edges, a, b)
  {
    var e :| e in PrunedEdges(edges, removed, uuid, nodes) && e.source == a && e.target == b;
    KeptEdgesMembers(edges, removed);
    CreatedBridges(edges, removed, uuid, nodes);
    if e in KeptEdges(edges, removed) {
      assert Connected(edges, a, b);
      ConnectedReaches(edges, a, b);
    } else {
      var r :| Bridges(edges, removed, r, e);
      ConnectedReaches(edges, r, b);
      ClimbReaches(edges, removed, r, |removed|, b);
    }
  }

  lemma {:induction false} PrunedWalkReaches(edges: seq<Edge>, removed: set<Id>, uuid: nat -> Id, nodes: seq<Node>,
      p: seq<Id>, a: Id, b: Id)
    requires SingleCaller(edges, removed) && WalkFrom(PrunedEdges(edges, removed, uuid, nodes), p, a, b)
    ensures Reaches(edges, a, b)
    decreases |p|
  {
    assert Connected(PrunedEdges(edges, removed, uuid, nodes), p[0], p[0 + 1]);
    PrunedEdgeReaches(edges, removed, uuid, nodes, a, p[1]);
    if |p| > 2 {
      var q := p[1..];
      forall i | 0 <= i < |q| - 1 ensures Connected(PrunedEdges(edges, removed, uuid, nodes), q[i], q[i + 1]) {
        assert Connected(PrunedEdges(edges, removed, uuid, nodes), p[i + 1], p[i + 1 + 1]);
      }
      PrunedWalkReaches(edges, removed, uuid, nodes, q, p[1], b);
      ReachesTransitive(edges, a, p[1], b);
    }
  }

  /** Climbing from the last node of a run of removed nodes leads back to where the run was entered. */
  lemma {:induction false} ClimbRun(edges: seq<Edge>, removed: set<Id>, p: seq<Id>, i: nat)
    requires SingleCaller(edges, removed) && Walk(edges, p) && i < |p|
    requires forall k :: 1 <= k <= i ==> p[k] in removed
    ensures Climb(edges, removed, p[i], i) == p[0]
    decreases i
  {
    if i > 0 {
      assert Connected(edges, p[i - 1], p[i - 1 + 1]);
      CallerIs(edges, p[i - 1], p[i]);
      ClimbRun(edges, removed, p, i - 1);
    }
  }

  lemma {:induction false} RunIsBridged(edges: seq<Edge>, removed: set<Id>, uuid: nat -> Id, nodes: seq<Node>,
      p: seq<Id>, m: nat)
    requires SingleCaller(edges, removed) && !RemovedCycle(edges, removed) && Walk(edges, p) && 1 <= m < |p|
    requires p[0] !in removed && p[m] !in removed && forall k :: 1 <= k < m ==> p[k] in removed
    requires forall r :: r in removed ==> exists n :: n in nodes && n.id == r
    ensures Connected(PrunedEdges(edges, removed, uuid, nodes), p[0], p[m])
  {
    assert Connected(edges, p[m - 1], p[m - 1 + 1]);
    var e :| e in edges && e.source == p[m - 1] && e.target == p[m];
    if m == 1 {
      KeptEdgesMembers(edges, removed);
      assert e in PrunedEdges(edges, removed, uuid, nodes);
    } else {
      var r := p[m - 1];
      ClimbRun(edges, removed, p, m - 1);
      ParentStays(edges, removed, r);
      ClimbStays(edges, removed, r, if m - 1 <= |removed| then m - 1 else |removed|,
        if m - 1 <= |removed| then |removed| else m - 1);
      assert Parent(edges, removed, r) == p[0];
      var n :| n in nodes && n.id == r;
      CreatedConnects(edges, removed, uuid, nodes, n, e);
      assert Connected(Created(edges, removed, uuid, nodes), p[0], p[m]);
    }
  }

  lemma {:induction false} FirstStaying(removed: set<Id>, p: seq<Id>) returns (m: nat)
    requires |p| >= 2 && p[|p| - 1] !in removed
    ensures 1 <= m < |p| && p[m] !in removed && forall k :: 1 <= k < m ==> p[k] in removed
  {
    m := 1;
    while p[m] in removed
      invariant 1 <= m < |p| && forall k :: 1 <= k < m ==> p[k] in removed
      decreases |p| - m
    {
      m := m + 1;
    }
  }

  lemma {:induction false} WalkIsBridged(edges: seq<Edge>, removed: set<Id>, uuid: nat -> Id, nodes: seq<Node>,
      p: seq<Id>, a: Id, b: Id)
    requires SingleCaller(edges, removed) && !RemovedCycle(edges, removed) && WalkFrom(edges, p, a, b)
    requires a !in removed && b !in removed
    requires forall r :: r in removed ==> exists n :: n in nodes && n.id == r
    ensures Reaches(PrunedEdges(edges, removed, uuid, nodes), a, b)
    decreases |p|
  {
    var pruned := PrunedEdges(edges, removed, uuid, nodes);
    var m := FirstStaying(removed, p);
    RunIsBridged(edges, removed, uuid, nodes, p, m);
    ConnectedReaches(pruned, a, p[m]);
    if m < |p| - 1 {
      var q := p[m..];
      forall i | 0 <= i < |q| - 1 ensures Connected(edges, q[i], q[i + 1]) {
        assert Connected(edges, p[m + i], p[m + i + 1]);
      }
      WalkIsBridged(edges, removed, uuid, nodes, q, p[m], b);
      ReachesTransitive(pruned, a, p[m], b);
    }
  }

  /** Pruning keeps who calls whom, directly or not, between every two nodes that stay. */
  lemma {:induction false} PruningKeepsReachability(edges: seq<Edge>, removed: set<Id>, uuid: nat -> Id,
      nodes: seq<Node>, a: Id, b: Id)
    requires SingleCaller(edges, removed) && !RemovedCycle(edges, removed)
    requires forall r :: r in removed ==> exists n :: n in nodes && n.id == r
    requires a !in removed && b !in removed
    ensures Reaches(PrunedEdges(edges, removed, uuid, nodes), a, b) <==> Reaches(edges, a, b)
  {
    if p :| WalkFrom(edges, p, a, b) {
      WalkIsBridged(edges, removed, uuid, nodes, p, a, b);
    }
    if p :| WalkFrom(PrunedEdges(edges, removed, uuid, nodes), p, a, b) {
      PrunedWalkReaches(edges, removed, uuid, nodes, p, a, b);
    }
  }
}
