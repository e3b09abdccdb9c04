/** The merging loop, the traversal with its two explicit stacks, and the aggregation of a graph. */
module FlamegraphAggregation {
  import opened Options
  import opened FlamegraphTables
  import opened AggregationSpec

  /** A node being visited, and the child the iterator stands at; -1 before the first. */
  datatype TreeStackEntry = TreeStackEntry(node: Node, currentChild: int)

  ghost predicate ValidEntry(e: TreeStackEntry) {
    -1 <= e.currentChild < |e.node.children|
  }

  ghost predicate ValidStack(s: seq<TreeStackEntry>) {
    forall i :: 0 <= i < |s| ==> ValidEntry(s[i])
  }

  class FlamegraphIterator {
    var stack: seq<TreeStackEntry>

    constructor (root: Node)
      ensures stack == [TreeStackEntry(root, -1)]
    {
      stack := [TreeStackEntry(root, -1)];
    }

    predicate HasMore()
      reads this
    {
      |stack| > 0
    }

    /** Moves to the next child of the node on top, if it has one. */
    method NextChild() returns (has: bool)
      requires HasMore() && ValidStack(stack)
      modifies this
      ensures |stack| == |old(stack)| && stack[..|stack| - 1] == old(stack)[..|stack| - 1]
      ensures Top(stack).node == Top(old(stack)).node
      ensures Top(stack).currentChild == Top(old(stack)).currentChild + 1
      ensures has <==> Top(stack).currentChild < |Top(stack).node.children|
    {
      var peek := stack[|stack| - 1];
      stack := stack[|stack| - 1 := peek.(currentChild := peek.currentChild + 1)];
      has := |peek.node.children| > peek.currentChild + 1;
    }

    function At(): Node
      reads this
      requires HasMore() && 0 <= Top(stack).currentChild < |Top(stack).node.children|
    {
      var peek := stack[|stack| - 1];
      peek.node.children[peek.currentChild]
    }

    /** Puts the merged node in the place of the current child. */
    method Update(merged: Node)
      requires HasMore() && 0 <= Top(stack).currentChild < |Top(stack).node.children|
      modifies this
      ensures stack == Updated(old(stack), merged)
    {
      var peek := stack[|stack| - 1];
      var node := peek.node.(children := peek.node.children[peek.currentChild := merged]);
      stack := stack[|stack| - 1 := peek.(node := node)];
    }

    method StepInto() returns (stepped: bool)
      requires HasMore() && 0 <= Top(stack).currentChild
      modifies this
      ensures stepped <==> old(Top(stack).currentChild < |Top(stack).node.children|)
      ensures stepped ==> stack == old(stack) + [TreeStackEntry(old(At()), -1)]
      ensures !stepped ==> stack == old(stack)
    {
      var peek := stack[|stack| - 1];
      if |peek.node.children| <= peek.currentChild {
        return false;
      }
      stack := stack + [TreeStackEntry(peek.node.children[peek.currentChild], -1)];
      stepped := true;
    }

    method StepUp()
      modifies this
      ensures stack == if |old(stack)| == 0 then [] else old(stack)[..|old(stack)| - 1]
    {
      if |stack| > 0 {
        stack := stack[..|stack| - 1];
      }
    }
  }

  function Top<T>(s: seq<T>): T
    requires |s| > 0
  {
    s[|s| - 1]
  }

  ghost function Updated(s: seq<TreeStackEntry>, merged: Node): seq<TreeStackEntry>
    requires |s| > 0 && 0 <= Top(s).currentChild < |Top(s).node.children|
  {
    var e := Top(s);
    s[..|s| - 1] + [e.(node := e.node.(children := e.node.children[e.currentChild := merged]))]
  }

  // Merging the children of one node.

  /** The first `i` children are merged; merging the others completes the result. */
  ghost predicate MergingAt(t: Tables, sorted: seq<Node>, children: seq<Node>, i: nat, cumulative: int,
      before: seq<nat>, now: seq<nat>)
    requires NamesInRange(t) && |before| == |now| == |t.locations|
  {
    && i < |children|
    && children[..i] + MergeAdjacent(t, children[i..]) == MergeAdjacent(t, sorted)
    && cumulative + MergedAway(t, children[i..]) == MergedAway(t, sorted)
    && MergedMappings(t, children[i..], now) == MergedMappings(t, sorted, before)
  }

  lemma {:induction false} MergeStart(t: Tables, sort: seq<Node> -> seq<Node>, nodes: seq<Node>, before: seq<nat>)
    requires NamesInRange(t) && SortsByName(t, sort) && nodes != [] && |before| == |t.locations|
    ensures MergingAt(t, sort(nodes), sort(nodes), 0, 0, before, before) && |sort(nodes)| == |nodes|
  {
    var sorted := sort(nodes);
    assert SortedFrom(t, sorted, nodes);
    SortKeepsSums(sorted, nodes);
    assert sorted[0..] == sorted;
  }

  lemma {:induction false} MergeEqual(t: Tables, sorted: seq<Node>, children: seq<Node>, i: nat, cumulative: int,
      before: seq<nat>, now: seq<nat>)
    requires NamesInRange(t) && |before| == |now| == |t.locations|
    requires MergingAt(t, sorted, children, i, cumulative, before, now) && i + 1 < |children|
    requires EqualsByName(t, children[i].meta, children[i + 1].meta)
    ensures MergingAt(t, sorted, children[..i] + [Combine(children[i], children[i + 1])] + children[i + 2..], i,
                      cumulative + children[i + 1].cumulative, before,
                        ResetMapping(t, children[i].meta, children[i + 1].meta, now))
  {
    var rest, c := children[i..], Combine(children[i], children[i + 1]);
    var next := children[..i] + [c] + children[i + 2..];
    assert next[i..] == [c] + rest[2..];
    assert next[..i] == children[..i];
  }

  lemma {:induction false} MergeUnequal(t: Tables, sorted: seq<Node>, children: seq<Node>, i: nat, cumulative: int,
      before: seq<nat>, now: seq<nat>)
    requires NamesInRange(t) && |before| == |now| == |t.locations|
    requires MergingAt(t, sorted, children, i, cumulative, before, now) && i + 1 < |children|
    requires !EqualsByName(t, children[i].meta, children[i + 1].meta)
    ensures MergingAt(t, sorted, children, i + 1, cumulative, before, now)
  {
    var rest := children[i..];
    assert rest[1..] == children[i + 1..];
    assert children[..i + 1] == children[..i] + [children[i]];
  }

  lemma {:induction false} MergeDone(t: Tables, sorted: seq<Node>, children: seq<Node>, i: nat, cumulative: int,
      before: seq<nat>, now: seq<nat>)
    requires NamesInRange(t) && |before| == |now| == |t.locations|
    requires MergingAt(t, sorted, children, i, cumulative, before, now) && i + 1 == |children|
    ensures children == MergeAdjacent(t, sorted) && cumulative == MergedAway(t, sorted)
      && now == MergedMappings(t, sorted, before)
  {
    assert children[..i] + children[i..] == children;
  }

  /**
   Sorts the children by name and merges equal neighbours. Locations whose frames are merged across
   mappings lose their mapping; a node with less than what was merged away is raised to that.
   */
  method MergeChildren(t: Tables, sort: seq<Node> -> seq<Node>, node: Node, mappingOf: array<nat>)
    returns (r: Node)
    requires NamesInRange(t) && SortsByName(t, sort) && mappingOf.Length == |t.locations|
    modifies mappingOf
    ensures r.meta == node.meta && r.diff == node.diff && r.children == Merged(t, sort, node.children)
    ensures r.cumulative ==
      if |node.children| >= 2 && node.cumulative < MergedAway(t, sort(node.children))
      then MergedAway(t, sort(node.children)) else node.cumulative
    ensures mappingOf[..] == AfterMerge(t, sort, node.children, old(mappingOf[..]))
  {
    hide MergingAt, MergeAdjacent, MergedAway, EqualsByName, SortsByName, Combine, Size, Sum, MergedMappings;
    if |node.children| < 2 {
      return node;
    }
    var children := sort(node.children);
    ghost var sorted, before := children, mappingOf[..];
    MergeStart(t, sort, node.children, before);
    var cumulative, i, j := 0, 0, 1;
    while i < |children| - 1
      invariant 0 <= i < |children| && j == i + 1
      invariant MergingAt(t, sorted, children, i, cumulative, before, mappingOf[..])
      decreases |children| - i
    {
      var current, next := children[i], children[j];
      ghost var now := mappingOf[..];
      if EqualsByName(t, current.meta, next.meta) {
        MergeEqual(t, sorted, children, i, cumulative, before, now);
        var curr, other := current.meta.locationIndex, next.meta.locationIndex;
        if GetLocation(t, curr).Some? && GetLocation(t, other).Some? && mappingOf[curr - 1] != mappingOf[other - 1] {
          mappingOf[curr - 1] := 0;
        }
        assert mappingOf[..] == ResetMapping(t, current.meta, next.meta, now);
        cumulative := cumulative + next.cumulative;
        children := children[..i] + [Combine(current, next)] + children[j + 1..];
      } else {
        MergeUnequal(t, sorted, children, i, cumulative, before, now);
        i, j := i + 1, j + 1;
      }
    }
    MergeDone(t, sorted, children, i, cumulative, before, mappingOf[..]);
    r := node.(children := children);
    if node.cumulative < cumulative {
      r := r.(cumulative := cumulative);
    }
  }

  // The traversal.

  /** The children of the entry's node not visited yet. */
  ghost function Rest(e: TreeStackEntry): seq<Node>
    requires ValidEntry(e)
  {
    e.node.children[e.currentChild + 1..]
  }

  ghost function WithChildren(n: Node, more: seq<Node>): Node {
    n.(children := n.children + more)
  }

  lemma WithChildrenIs(n: Node, more: seq<Node>)
    ensures WithChildren(n, more) == n.(children := n.children + more)
  {
  }

  /** What the two stacks still lead to: every open node gets its remaining children, innermost first. */
  ghost function Resumed(t: Tables, sort: seq<Node> -> seq<Node>, open: seq<TreeStackEntry>, built: seq<Node>): Node
    requires NamesInRange(t) && SortsByName(t, sort) && ValidStack(open) && |open| == |built| > 0
    decreases |open|
  {
    var n := |open| - 1;
    var finished := WithChildren(built[n], AggregateAll(t, sort, Rest(open[n])));
    if n == 0 then finished
    else Resumed(t, sort, open[..n], built[..n - 1] + [WithChildren(built[n - 1], [finished])])
  }

  ghost function Work(open: seq<TreeStackEntry>): nat
    requires ValidStack(open)
  {
    if open == [] then 0 else Work(open[..|open| - 1]) + 1 + 2 * Size(Rest(Top(open)))
  }

  ghost function Visited(s: seq<TreeStackEntry>, merged: Node): seq<TreeStackEntry>
    requires |s| > 0 && ValidEntry(Top(s)) && Rest(Top(s)) != []
  {
    var e := Top(s);
    Updated(s[..|s| - 1] + [e.(currentChild := e.currentChild + 1)], merged) + [TreeStackEntry(merged, -1)]
  }

  /** The node on top once all its remaining children have been added. */
  ghost function Finished(t: Tables, sort: seq<Node> -> seq<Node>, e: TreeStackEntry, n: Node): Node
    requires NamesInRange(t) && SortsByName(t, sort) && ValidEntry(e)
  {
    WithChildren(n, AggregateAll(t, sort, Rest(e)))
  }

  lemma {:induction false} SameFinished(t: Tables, sort: seq<Node> -> seq<Node>,
      open: seq<TreeStackEntry>, built: seq<Node>, e: TreeStackEntry, n: Node)
    requires NamesInRange(t) && SortsByName(t, sort) && ValidStack(open) && |open| == |built| > 0 && ValidEntry(e)
    requires Finished(t, sort, e, n) == Finished(t, sort, Top(open), Top(built))
    ensures ValidStack(open[..|open| - 1] + [e])
    ensures Resumed(t, sort, open[..|open| - 1] + [e], built[..|built| - 1] + [n]) == Resumed(t, sort, open, built)
  {
    hide AggregateAll, SortsByName, NamesInRange, Rest, WithChildren;
    var k := |open| - 1;
    assert (open[..k] + [e])[..k] == open[..k];
    assert k > 0 ==> (built[..k] + [n])[..k - 1] == built[..k - 1];
  }

  /** Adding the first remaining child leaves a node to finish as before. */
  lemma {:induction false} FinishedStep(t: Tables, sort: seq<Node> -> seq<Node>, e: TreeStackEntry,
      e': TreeStackEntry, n: Node)
    requires NamesInRange(t) && SortsByName(t, sort) && ValidEntry(e) && ValidEntry(e')
    requires Rest(e) != [] && Rest(e') == Rest(e)[1..]
    ensures Finished(t, sort, e', WithChildren(n, [Aggregate(t, sort, Rest(e)[0])])) == Finished(t, sort, e, n)
  {
    var rest := Rest(e);
    var first := [Aggregate(t, sort, rest[0])];
    assert (n.children + first) + AggregateAll(t, sort, rest[1..]) == n.children + AggregateAll(t, sort, rest);
  }

  lemma {:induction false} FinishedFresh(t: Tables, sort: seq<Node> -> seq<Node>, node: Node, merged: Node)
    requires NamesInRange(t) && SortsByName(t, sort)
    requires merged.children == Merged(t, sort, node.children)
    ensures Finished(t, sort, TreeStackEntry(merged, -1), node.(children := [])) == Aggregate(t, sort, node)
  {
    assert Rest(TreeStackEntry(merged, -1)) == merged.children;
  }

  lemma {:induction false} VisitedShape(open: seq<TreeStackEntry>, merged: Node) returns (e': TreeStackEntry)
    requires ValidStack(open) && |open| > 0 && Rest(Top(open)) != []
    ensures ValidEntry(e') && Rest(e') == Rest(Top(open))[1..]
    ensures Visited(open, merged) == open[..|open| - 1] + [e'] + [TreeStackEntry(merged, -1)]
    ensures ValidStack(Visited(open, merged))
  {
    var e := Top(open);
    e' := e.(currentChild := e.currentChild + 1,
             node := e.node.(children := e.node.children[e.currentChild + 1 := merged]));
    var moved := open[..|open| - 1] + [e.(currentChild := e.currentChild + 1)];
    assert moved[..|open| - 1] == open[..|open| - 1];
  }

  lemma {:induction false} VisitKeepsResult(t: Tables, sort: seq<Node> -> seq<Node>, open: seq<TreeStackEntry>,
      built: seq<Node>, merged: Node)
    requires NamesInRange(t) && SortsByName(t, sort) && ValidStack(open) && |open| == |built| > 0
    requires Rest(Top(open)) != [] && merged.children == Merged(t, sort, Rest(Top(open))[0].children)
    ensures
      var node, open' := Rest(Top(open))[0], Visited(open, merged);
      && ValidStack(open') && |open'| == |built| + 1
      && Resumed(t, sort, open', built + [node.(children := [])]) == Resumed(t, sort, open, built)
  {
    hide Visited, Rest, WithChildren;
    var n, node := |open| - 1, Rest(Top(open))[0];
    var open' := Visited(open, merged);
    var e' := VisitedShape(open, merged);
    var cur, more := node.(children := []), WithChildren(Top(built), [Aggregate(t, sort, node)]);
    FinishedFresh(t, sort, node, merged);
    FinishedStep(t, sort, Top(open), e', Top(built));
    SameFinished(t, sort, open, built, e', more);
    assert open'[..n + 1] == open[..n] + [e'];
    assert (built + [cur])[..n] + [more] == built[..n] + [more];
  }

  lemma {:induction false} VisitWorks(t: Tables, sort: seq<Node> -> seq<Node>, open: seq<TreeStackEntry>, merged: Node)
    requires NamesInRange(t) && SortsByName(t, sort) && ValidStack(open) && |open| > 0
    requires Rest(Top(open)) != [] && merged.children == Merged(t, sort, Rest(Top(open))[0].children)
    ensures ValidStack(Visited(open, merged)) && Work(Visited(open, merged)) < Work(open)
  {
    hide Visited;
    var n := |open| - 1;
    var open' := Visited(open, merged);
    var e' := VisitedShape(open, merged);
    assert open'[..n + 1] == open[..n] + [e'];
    assert (open[..n] + [e'])[..n] == open[..n];
    assert Rest(TreeStackEntry(merged, -1)) == merged.children;
    MergedShrinks(t, sort, Rest(Top(open))[0].children);
  }

  lemma {:induction false} LeaveKeepsResult(t: Tables, sort: seq<Node> -> seq<Node>, open: seq<TreeStackEntry>,
      built: seq<Node>)
    requires NamesInRange(t) && SortsByName(t, sort) && ValidStack(open) && |open| == |built| > 0
    requires Rest(Top(open)) == []
    ensures
      var n := |open| - 1;
      && ValidStack(open[..n])
      && Work(open[..n]) < Work(open)
      && Resumed(t, sort, open, built) ==
         if n == 0 then built[0]
         else Resumed(t, sort, open[..n], built[..n - 1] + [WithChildren(built[n - 1], [built[n]])])
  {
    var n := |open| - 1;
    assert built[n].children + [] == built[n].children;
  }

  /** What the iterator's stack still does to the mappings: the remaining children, innermost first. */
  ghost function Left(t: Tables, sort: seq<Node> -> seq<Node>, open: seq<TreeStackEntry>, now: seq<nat>): seq<nat>
    requires NamesInRange(t) && SortsByName(t, sort) && ValidStack(open) && |now| == |t.locations|
    decreases |open|
  {
    if open == [] then now else Left(t, sort, open[..|open| - 1], AfterAll(t, sort, Rest(Top(open)), now))
  }

  lemma NothingLeft(t: Tables, sort: seq<Node> -> seq<Node>, now: seq<nat>)
    requires NamesInRange(t) && SortsByName(t, sort) && |now| == |t.locations|
    ensures Left(t, sort, [], now) == now
  {
  }

  lemma {:induction false} LeftTop(t: Tables, sort: seq<Node> -> seq<Node>, open: seq<TreeStackEntry>,
      e: TreeStackEntry, now: seq<nat>)
    requires NamesInRange(t) && SortsByName(t, sort) && ValidStack(open) && ValidEntry(e) && |now| == |t.locations|
    ensures ValidStack(open + [e])
    ensures Left(t, sort, open + [e], now) == Left(t, sort, open, AfterAll(t, sort, Rest(e), now))
  {
    hide AfterAll, Rest;
    assert (open + [e])[..|open|] == open;
  }

  lemma {:induction false} VisitKeepsMappings(t: Tables, sort: seq<Node> -> seq<Node>, open: seq<TreeStackEntry>,
      merged: Node, now: seq<nat>)
    requires NamesInRange(t) && SortsByName(t, sort) && ValidStack(open) && |open| > 0 && |now| == |t.locations|
    requires Rest(Top(open)) != [] && merged.children == Merged(t, sort, Rest(Top(open))[0].children)
    ensures ValidStack(Visited(open, merged))
    ensures Left(t, sort, Visited(open, merged), AfterMerge(t, sort, Rest(Top(open))[0].children, now))
         == Left(t, sort, open, now)
  {
    hide Visited, Left, AfterMerge, Merged, SortsByName, NamesInRange;
    var n := |open| - 1;
    var e, node := Top(open), Rest(Top(open))[0];
    var e' := VisitedShape(open, merged);
    var fresh' := TreeStackEntry(merged, -1);
    assert Rest(fresh') == merged.children;
    assert ValidStack(open[..n]) && open == open[..n] + [e];
    LeftTop(t, sort, open[..n], e, now);
    LeftTop(t, sort, open[..n], e', AfterNode(t, sort, node, now));
    LeftTop(t, sort, open[..n] + [e'], fresh', AfterMerge(t, sort, node.children, now));
  }

  lemma {:induction false} LeaveKeepsMappings(t: Tables, sort: seq<Node> -> seq<Node>, open: seq<TreeStackEntry>,
      now: seq<nat>)
    requires NamesInRange(t) && SortsByName(t, sort) && ValidStack(open) && |open| > 0 && |now| == |t.locations|
    requires Rest(Top(open)) == []
    ensures ValidStack(open[..|open| - 1]) && Left(t, sort, open[..|open| - 1], now) == Left(t, sort, open, now)
  {
  }

  lemma {:induction false} StartKeepsMappings(t: Tables, sort: seq<Node> -> seq<Node>, root: Node, merged: Node,
      before: seq<nat>)
    requires NamesInRange(t) && SortsByName(t, sort) && |before| == |t.locations|
    requires merged.children == Merged(t, sort, root.children)
    ensures ValidStack([TreeStackEntry(merged, -1)])
    ensures Left(t, sort, [TreeStackEntry(merged, -1)], AfterMerge(t, sort, root.children, before))
         == AfterNode(t, sort, root, before)
  {
    hide AfterMerge, Merged, SortsByName, NamesInRange;
    var e := TreeStackEntry(merged, -1);
    assert Rest(e) == merged.children;
    assert [] + [e] == [e];
    LeftTop(t, sort, [], e, AfterMerge(t, sort, root.children, before));
  }

  lemma {:induction false} StartKeepsResult(t: Tables, sort: seq<Node> -> seq<Node>, root: Node, merged: Node)
    requires NamesInRange(t) && SortsByName(t, sort) && merged.children == Merged(t, sort, root.children)
    ensures ValidStack([TreeStackEntry(merged, -1)])
    ensures Resumed(t, sort, [TreeStackEntry(merged, -1)], [root.(children := [])]) == Aggregate(t, sort, root)
  {
    FinishedFresh(t, sort, root, merged);
  }

  /** The top of the stack moved on to its next child. */
  ghost function Moved(s: seq<TreeStackEntry>): seq<TreeStackEntry>
    requires |s| > 0
  {
    s[..|s| - 1] + [Top(s).(currentChild := Top(s).currentChild + 1)]
  }

  lemma VisitedIsUpdated(open: seq<TreeStackEntry>, merged: Node)
    requires |open| > 0 && ValidEntry(Top(open)) && Rest(Top(open)) != []
    ensures
      var moved := Moved(open);
      && 0 <= Top(moved).currentChild < |Top(moved).node.children|
      && Top(moved).node.children[Top(moved).currentChild] == Rest(Top(open))[0]
      && Visited(open, merged) == Updated(moved, merged) + [TreeStackEntry(merged, -1)]
  {
  }

  /** Merges the children of the current child and steps into it; answers the new node without children. */
  method Descend(t: Tables, sort: seq<Node> -> seq<Node>, it: FlamegraphIterator, mappingOf: array<nat>,
      ghost open: seq<TreeStackEntry>)
    returns (cur: Node, ghost merged: Node)
    requires NamesInRange(t) && SortsByName(t, sort) && mappingOf.Length == |t.locations|
    requires |open| > 0 && ValidEntry(Top(open)) && Rest(Top(open)) != [] && it.stack == Moved(open)
    modifies it, mappingOf
    ensures cur == Rest(Top(open))[0].(children := [])
    ensures merged.children == Merged(t, sort, Rest(Top(open))[0].children)
    ensures it.stack == Visited(open, merged)
    ensures mappingOf[..] == AfterMerge(t, sort, Rest(Top(open))[0].children, old(mappingOf[..]))
  {
    VisitedIsUpdated(open, open[0].node);
    var node := it.At();
    cur := node.(children := []);
    var mergedNode := MergeChildren(t, sort, node, mappingOf);
    it.Update(mergedNode);
    VisitedIsUpdated(open, mergedNode);
    var stepped := it.StepInto();
    merged := mergedNode;
  }

  lemma NextIsMoved(open: seq<TreeStackEntry>, stack: seq<TreeStackEntry>)
    requires |stack| == |open| > 0 && stack[..|stack| - 1] == open[..|open| - 1]
    requires Top(stack) == Top(open).(currentChild := Top(open).currentChild + 1)
    ensures stack == Moved(open)
  {
  }

  /**
   Visits every node once with an iterator, merging its children before stepping into it, and builds
   the new tree on a second stack; a finished node joins its parent when it is left.
   */
  method AggregateByFunction(t: Tables, sort: seq<Node> -> seq<Node>, root: Node, mappingOf: array<nat>)
    returns (r: Node)
    requires NamesInRange(t) && SortsByName(t, sort) && mappingOf.Length == |t.locations|
    modifies mappingOf
    ensures r == Aggregate(t, sort, root)
    ensures mappingOf[..] == AfterNode(t, sort, root, old(mappingOf[..]))
  {
    hide Resumed, Aggregate, Merged, MergedAway, AfterMerge, AfterNode, Left, Work, SortsByName, NamesInRange,
      Visited, Moved, WithChildren;
    var oldRoot := MergeChildren(t, sort, root, mappingOf);
    StartKeepsResult(t, sort, root, oldRoot);
    StartKeepsMappings(t, sort, root, oldRoot, old(mappingOf[..]));
    var it := new FlamegraphIterator(oldRoot);
    r := root.(children := []);
    var stack := [r];
    while it.HasMore()
      invariant ValidStack(it.stack) && |it.stack| == |stack|
      invariant it.HasMore() ==> Resumed(t, sort, it.stack, stack) == Aggregate(t, sort, root)
      invariant !it.HasMore() ==> r == Aggregate(t, sort, root)
      invariant fresh(it)
      invariant Left(t, sort, it.stack, mappingOf[..]) == AfterNode(t, sort, root, old(mappingOf[..]))
      decreases Work(it.stack)
    {
      ghost var open, now := it.stack, mappingOf[..];
      var more := it.NextChild();
      NextIsMoved(open, it.stack);
      if more {
        var cur, merged := Descend(t, sort, it, mappingOf, open);
        VisitKeepsResult(t, sort, open, stack, merged);
        VisitWorks(t, sort, open, merged);
        VisitKeepsMappings(t, sort, open, merged, now);
        stack := stack + [cur];
      } else {
        LeaveKeepsResult(t, sort, open, stack);
        LeaveKeepsMappings(t, sort, open, now);
        it.StepUp();
        var n := |stack| - 1;
        assert it.stack == open[..n];
        r := stack[n];
        if n > 0 {
          WithChildrenIs(stack[n - 1], [r]);
        }
        stack := if n == 0 then [] else stack[..n - 1] + [stack[n - 1].(children := stack[n - 1].children + [r])];
      }
    }
    NothingLeft(t, sort, mappingOf[..]);
  }
}
