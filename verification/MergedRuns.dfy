/**
 What merging neighbours does, run by run: which nodes a merged node stands for, and which locations
 lose their mapping.
 */
module MergedRuns {
  import opened FlamegraphTables
  import opened AggregationSpec

  function SumOfDiffs(nodes: seq<Node>): int {
    if nodes == [] then 0 else nodes[0].diff + SumOfDiffs(nodes[1..])
  }

  function ChildrenInOrder(nodes: seq<Node>): seq<Node> {
    if nodes == [] then [] else nodes[0].children + ChildrenInOrder(nodes[1..])
  }

  function Flatten(runs: seq<seq<Node>>): seq<Node> {
    if runs == [] then [] else runs[0] + Flatten(runs[1..])
  }

  /** The nodes cut into maximal runs of equal neighbours. */
  ghost predicate RunsOf(t: Tables, nodes: seq<Node>, runs: seq<seq<Node>>)
    requires NamesInRange(t)
  {
    && Flatten(runs) == nodes
    && (forall i :: 0 <= i < |runs| ==> runs[i] != [])
    && (forall i, k :: 0 <= i < |runs| && 1 <= k < |runs[i]| ==>
          EqualsByName(t, runs[i][0].meta, runs[i][k].meta))
    && (forall i :: 0 <= i < |runs| - 1 ==> !EqualsByName(t, runs[i][0].meta, runs[i + 1][0].meta))
  }

  /** A node stands for a run: the frame of the first, the totals of all, and all their children in order. */
  ghost predicate StandsFor(n: Node, run: seq<Node>) {
    && run != [] && n.meta == run[0].meta && n.children == ChildrenInOrder(run)
    && n.cumulative == Sum(run) && n.diff == SumOfDiffs(run)
  }

  lemma {:induction false} StandsForCombined(n: Node, a: Node, b: Node, rest: seq<Node>)
    requires StandsFor(n, [Combine(a, b)] + rest)
    ensures StandsFor(n, [a, b] + rest)
  {
    var c := [Combine(a, b)] + rest;
    var run := [a, b] + rest;
    assert c[1..] == rest && run[1..] == [b] + rest && ([b] + rest)[1..] == rest;
    assert a.children + b.children + ChildrenInOrder(rest) == a.children + (b.children + ChildrenInOrder(rest));
  }

  lemma {:induction false} StandsForItself(n: Node)
    ensures StandsFor(n, [n])
  {
    assert [n][1..] == [];
  }

  /** The cumulative value of every node but the first of each run. */
  function TakenOver(runs: seq<seq<Node>>): int {
    if runs == [] then 0 else (if runs[0] == [] then 0 else Sum(runs[0][1..])) + TakenOver(runs[1..])
  }

  /** Merging leaves one node for each maximal run, in their order, and takes over all others. */
  lemma {:induction false} MergedStandForRuns(t: Tables, nodes: seq<Node>) returns (runs: seq<seq<Node>>)
    requires NamesInRange(t)
    ensures RunsOf(t, nodes, runs) && |MergeAdjacent(t, nodes)| == |runs|
    ensures forall i :: 0 <= i < |runs| ==> StandsFor(MergeAdjacent(t, nodes)[i], runs[i])
    ensures MergedAway(t, nodes) == TakenOver(runs)
    decreases |nodes|
  {
    hide EqualsByName, StandsFor;
    if nodes == [] {
      runs := [];
    } else if |nodes| == 1 {
      runs := [nodes];
      StandsForItself(nodes[0]);
      OneRun(nodes);
    } else if EqualsByName(t, nodes[0].meta, nodes[1].meta) {
      var fewer := MergedStandForRuns(t, [Combine(nodes[0], nodes[1])] + nodes[2..]);
      runs := GrownRun(t, nodes, fewer);
      StandsForCombined(MergeAdjacent(t, nodes)[0], nodes[0], nodes[1], fewer[0][1..]);
      hide RunsOf, TakenOver;
    } else {
      var fewer := MergedStandForRuns(t, nodes[1..]);
      runs := [[nodes[0]]] + fewer;
      StandsForItself(nodes[0]);
      MoreRuns(t, nodes, fewer);
      hide RunsOf, TakenOver;
    }
  }

  lemma OneRun(nodes: seq<Node>)
    requires |nodes| == 1
    ensures Flatten([nodes]) == nodes && TakenOver([nodes]) == 0 && nodes == [nodes[0]]
  {
    assert [nodes][1..] == [] && nodes[1..] == [];
  }

  lemma {:induction false} MoreRuns(t: Tables, nodes: seq<Node>, fewer: seq<seq<Node>>)
    requires NamesInRange(t) && |nodes| >= 2 && !EqualsByName(t, nodes[0].meta, nodes[1].meta)
    requires RunsOf(t, nodes[1..], fewer)
    ensures RunsOf(t, nodes, [[nodes[0]]] + fewer) && TakenOver([[nodes[0]]] + fewer) == TakenOver(fewer)
  {
    hide EqualsByName;
    var runs := [[nodes[0]]] + fewer;
    assert runs[1..] == fewer && [nodes[0]][1..] == [];
    assert nodes == [nodes[0]] + nodes[1..];
    assert fewer[0][0] == nodes[1];
    assert forall i :: 1 <= i < |runs| ==> runs[i] == fewer[i - 1];
  }

  /** A run that begins with the combined node becomes the run of both and the rest. */
  lemma {:induction false} GrownRun(t: Tables, nodes: seq<Node>, fewer: seq<seq<Node>>)
    returns (runs: seq<seq<Node>>)
    requires NamesInRange(t) && |nodes| >= 2 && EqualsByName(t, nodes[0].meta, nodes[1].meta)
    requires RunsOf(t, [Combine(nodes[0], nodes[1])] + nodes[2..], fewer)
    ensures |fewer| >= 1 && fewer[0] == [Combine(nodes[0], nodes[1])] + fewer[0][1..]
    ensures runs == [[nodes[0], nodes[1]] + fewer[0][1..]] + fewer[1..]
    ensures RunsOf(t, nodes, runs)
    ensures TakenOver(runs) == nodes[1].cumulative + TakenOver(fewer)
  {
    GrownFlatten(nodes, Combine(nodes[0], nodes[1]), fewer);
    var rest := fewer[0][1..];
    runs := [[nodes[0], nodes[1]] + rest] + fewer[1..];
    assert runs[1..] == fewer[1..];
    assert runs[0][1..] == [nodes[1]] + rest && ([nodes[1]] + rest)[1..] == rest;
    hide Flatten, EqualsByName;
    assert forall i :: 1 <= i < |runs| ==> runs[i] == fewer[i];
    assert forall k :: 2 <= k < |runs[0]| ==> runs[0][k] == fewer[0][k - 1];
  }

  lemma {:induction false} GrownFlatten(nodes: seq<Node>, c: Node, fewer: seq<seq<Node>>)
    requires |nodes| >= 2 && Flatten(fewer) == [c] + nodes[2..] && forall i :: 0 <= i < |fewer| ==> fewer[i] != []
    ensures |fewer| >= 1 && fewer[0] == [c] + fewer[0][1..]
    ensures Flatten([[nodes[0], nodes[1]] + fewer[0][1..]] + fewer[1..]) == nodes
  {
    assert fewer[0][0] == Flatten(fewer)[0];
    var rest := fewer[0][1..];
    var runs := [[nodes[0], nodes[1]] + rest] + fewer[1..];
    assert runs[1..] == fewer[1..];
    assert nodes[2..] == Flatten(fewer)[1..] == rest + Flatten(fewer[1..]);
    assert nodes == [nodes[0], nodes[1]] + nodes[2..];
  }

  /** The merged siblings are in order as the sorted ones were. */
  lemma {:induction false} MergeAdjacentOrdered(t: Tables, nodes: seq<Node>)
    requires NamesInRange(t) && Ordered(t, nodes)
    ensures Ordered(t, MergeAdjacent(t, nodes))
    decreases |nodes|
  {
    hide InOrder, EqualsByName;
    if |nodes| >= 2 {
      if EqualsByName(t, nodes[0].meta, nodes[1].meta) {
        var c := [Combine(nodes[0], nodes[1])] + nodes[2..];
        assert Ordered(t, c);
        MergeAdjacentOrdered(t, c);
      } else {
        var r := MergeAdjacent(t, nodes[1..]);
        assert Ordered(t, nodes[1..]);
        MergeAdjacentOrdered(t, nodes[1..]);
        forall i | 0 <= i < |r| ensures InOrder(t, nodes[0].meta, r[i].meta) {
          var k := MergeAdjacentKeys(t, nodes[1..], i);
        }
        OrderedCons(t, nodes[0], r);
      }
    }
  }

  /** Two and more siblings are in order once they were sorted and merged, at every level of the new tree. */
  lemma {:induction false} AggregatedInOrder(t: Tables, sort: seq<Node> -> seq<Node>, n: Node)
    requires NamesInRange(t) && SortsByName(t, sort) && |n.children| >= 2
    ensures Ordered(t, Aggregate(t, sort, n).children)
  {
    assert SortedFrom(t, sort(n.children), n.children);
    MergeAdjacentOrdered(t, sort(n.children));
    var merged := Merged(t, sort, n.children);
    forall i | 0 <= i < |merged| ensures AggregateAll(t, sort, merged)[i].meta == merged[i].meta {
      AggregateAt(t, sort, merged, i);
    }
  }

  // Which locations lose their mapping.

  /** Node h begins a run of equal neighbours that node j belongs to. */
  ghost predicate InRunFrom(t: Tables, nodes: seq<Node>, h: int, j: int)
    requires NamesInRange(t)
  {
    && 0 <= h < j < |nodes|
    && (h > 0 ==> !EqualsByName(t, nodes[h - 1].meta, nodes[h].meta))
    && forall k :: h < k <= j ==> EqualsByName(t, nodes[h].meta, nodes[k].meta)
  }

  /** The node's location is the k-th of the table; its index counts from one. */
  ghost predicate LocatedAt(t: Tables, n: Node, k: int) {
    0 <= k < |t.locations| && n.meta.locationIndex == k + 1
  }

  /** The k-th location begins a run with a node at a location whose mapping is not m. */
  ghost predicate BeginsAcross(t: Tables, nodes: seq<Node>, k: int, m: nat, mappings: seq<nat>)
    requires NamesInRange(t) && |mappings| == |t.locations|
  {
    exists h, j, l :: AcrossAt(t, nodes, k, m, mappings, h, j, l)
  }

  ghost predicate AcrossAt(t: Tables, nodes: seq<Node>, k: int, m: nat, mappings: seq<nat>, h: int, j: int, l: int)
    requires NamesInRange(t) && |mappings| == |t.locations|
  {
    InRunFrom(t, nodes, h, j) && LocatedAt(t, nodes[h], k) && LocatedAt(t, nodes[j], l) && mappings[l] != m
  }

  lemma EqualIsEquivalence(t: Tables, a: Meta, b: Meta, c: Meta)
    requires NamesInRange(t)
    ensures EqualsByName(t, a, b) ==> EqualsByName(t, b, a) && (EqualsByName(t, a, c) <==> EqualsByName(t, b, c))
  {
  }

  /** Runs of the siblings after the first two, which are equal, became one. */
  lemma {:induction false} RunsAfterMerge(t: Tables, nodes: seq<Node>, h: int, j: int)
    requires NamesInRange(t) && |nodes| >= 2 && EqualsByName(t, nodes[0].meta, nodes[1].meta)
    ensures
      var fewer := [Combine(nodes[0], nodes[1])] + nodes[2..];
      && (InRunFrom(t, nodes, h, j) && j > 1 ==>
            h != 1 && InRunFrom(t, fewer, if h == 0 then 0 else h - 1, j - 1))
      && (InRunFrom(t, fewer, h, j) ==> InRunFrom(t, nodes, if h == 0 then 0 else h + 1, j + 1))
  {
    hide EqualsByName;
    var fewer := [Combine(nodes[0], nodes[1])] + nodes[2..];
    assert forall i :: 1 <= i < |fewer| ==> fewer[i] == nodes[i + 1];
    if |nodes| > 2 {
      EqualIsEquivalence(t, nodes[0].meta, nodes[1].meta, nodes[2].meta);
    }
    if InRunFrom(t, fewer, h, j) && h == 0 {
      forall k | 0 < k <= j + 1 ensures EqualsByName(t, nodes[0].meta, nodes[k].meta) {
        assert k >= 2 ==> EqualsByName(t, fewer[0].meta, fewer[k - 1].meta);
      }
    }
    if InRunFrom(t, fewer, h, j) && h > 0 {
      forall k | h + 1 < k <= j + 1 ensures EqualsByName(t, nodes[h + 1].meta, nodes[k].meta) {
        assert EqualsByName(t, fewer[h].meta, fewer[k - 1].meta);
      }
    }
  }

  /** Runs of the siblings behind a first one that differs from the second. */
  lemma {:induction false} RunsOfRest(t: Tables, nodes: seq<Node>, h: int, j: int)
    requires NamesInRange(t) && |nodes| >= 2 && !EqualsByName(t, nodes[0].meta, nodes[1].meta)
    ensures InRunFrom(t, nodes, h, j) ==> h > 0 && InRunFrom(t, nodes[1..], h - 1, j - 1)
    ensures InRunFrom(t, nodes[1..], h, j) ==> InRunFrom(t, nodes, h + 1, j + 1)
  {
    hide EqualsByName;
    var rest := nodes[1..];
    if InRunFrom(t, rest, h, j) {
      forall k | h + 1 < k <= j + 1 ensures EqualsByName(t, nodes[h + 1].meta, nodes[k].meta) {
        assert EqualsByName(t, rest[h].meta, rest[k - 1].meta);
      }
    }
  }

  lemma ResetPair(t: Tables, a: Node, b: Node, before: seq<nat>, now: seq<nat>, k: int, l: int)
    requires |now| == |t.locations| && OnlyReset(before, now) && LocatedAt(t, a, k) && LocatedAt(t, b, l)
    requires before[l] != before[k]
    ensures ResetMapping(t, a.meta, b.meta, now)[k] == 0
  {
  }

  lemma ResetPairOnlyResets(t: Tables, a: Node, b: Node, before: seq<nat>, now: seq<nat>)
    requires |now| == |t.locations| && OnlyReset(before, now)
    ensures OnlyReset(before, ResetMapping(t, a.meta, b.meta, now))
  {
  }

  /** A run of more than one node, in terms of the first two. */
  lemma RunOfPair(t: Tables, nodes: seq<Node>, h: int, j: int)
    requires NamesInRange(t) && InRunFrom(t, nodes, h, j) && EqualsByName(t, nodes[0].meta, nodes[1].meta)
    ensures h != 1 && (j == 1 ==> h == 0)
  {
  }

  /** The first location of a run has no mapping after merging if a later node has a location of another mapping. */
  lemma {:induction false} ResetAcross(t: Tables, nodes: seq<Node>, before: seq<nat>, now: seq<nat>, k: int,
      h: int, j: int, l: int)
    requires NamesInRange(t) && 0 <= k < |now| == |t.locations| && OnlyReset(before, now)
    requires AcrossAt(t, nodes, k, before[k], before, h, j, l)
    ensures MergedMappings(t, nodes, now)[k] == 0
    decreases |nodes|
  {
    hide EqualsByName, ResetMapping;
    if EqualsByName(t, nodes[0].meta, nodes[1].meta) {
      var fewer := [Combine(nodes[0], nodes[1])] + nodes[2..];
      var next := ResetMapping(t, nodes[0].meta, nodes[1].meta, now);
      ResetPairOnlyResets(t, nodes[0], nodes[1], before, now);
      RunOfPair(t, nodes, h, j);
      if j == 1 {
        ResetPair(t, nodes[0], nodes[1], before, now, k, l);
        MappingsOnlyReset(t, fewer, next);
      } else {
        RunsAfterMerge(t, nodes, h, j);
        assert fewer[j - 1] == nodes[j];
        ResetAcross(t, fewer, before, next, k, if h == 0 then 0 else h - 1, j - 1, l);
      }
    } else {
      RunsOfRest(t, nodes, h, j);
      ResetAcross(t, nodes[1..], before, now, k, h - 1, j - 1, l);
    }
  }

  /** What one reset changes, and by which mapping the other location is told apart. */
  lemma ChangedPair(t: Tables, a: Node, b: Node, now: seq<nat>, after: seq<nat>, k: nat)
    requires |now| == |t.locations| && k < |now| && OnlyReset(ResetMapping(t, a.meta, b.meta, now), after)
    requires ResetMapping(t, a.meta, b.meta, now)[k] != now[k]
    ensures LocatedAt(t, a, k) && b.meta.locationIndex > 0 && LocatedAt(t, b, b.meta.locationIndex - 1)
    ensures now[k] != after[b.meta.locationIndex - 1]
  {
  }

  lemma FirstRun(t: Tables, nodes: seq<Node>)
    requires NamesInRange(t) && |nodes| >= 2 && EqualsByName(t, nodes[0].meta, nodes[1].meta)
    ensures InRunFrom(t, nodes, 0, 1)
  {
  }

  /** A location that lost its mapping begins a run with a node whose location is not left with that mapping. */
  lemma {:induction false} ResetOnlyAcross(t: Tables, nodes: seq<Node>, before: seq<nat>, after: seq<nat>, k: nat)
    returns (h: nat, j: nat, l: nat)
    requires NamesInRange(t) && k < |before| == |t.locations| && OnlyReset(MergedMappings(t, nodes, before), after)
    requires MergedMappings(t, nodes, before)[k] != before[k]
    ensures AcrossAt(t, nodes, k, before[k], after, h, j, l)
    decreases |nodes|
  {
    hide EqualsByName, ResetMapping, LocatedAt;
    if EqualsByName(t, nodes[0].meta, nodes[1].meta) {
      var fewer := [Combine(nodes[0], nodes[1])] + nodes[2..];
      var next := ResetMapping(t, nodes[0].meta, nodes[1].meta, before);
      MappingsOnlyReset(t, fewer, next);
      if next[k] != before[k] {
        OnlyResetTransitive(next, MergedMappings(t, fewer, next), after);
        ChangedPair(t, nodes[0], nodes[1], before, after, k);
        FirstRun(t, nodes);
        hide InRunFrom, MergedMappings, OnlyReset;
        h, j, l := 0, 1, nodes[1].meta.locationIndex - 1;
      } else {
        h, j, l := ResetOnlyAcross(t, fewer, next, after, k);
        RunsAfterMerge(t, nodes, h, j);
        assert fewer[j] == nodes[j + 1];
        SameLocation(t, nodes[0], nodes[1], k);
        h, j := if h == 0 then 0 else h + 1, j + 1;
        hide InRunFrom, MergedMappings, OnlyReset;
      }
    } else {
      h, j, l := ResetOnlyAcross(t, nodes[1..], before, after, k);
      RunsOfRest(t, nodes, h, j);
      h, j := h + 1, j + 1;
      hide InRunFrom, MergedMappings, OnlyReset;
    }
  }

  lemma SameLocation(t: Tables, a: Node, b: Node, k: int)
    ensures LocatedAt(t, Combine(a, b), k) <==> LocatedAt(t, a, k)
  {
  }

  /**
   What merging siblings does to the mappings: a run across mappings leaves its first location without
   one, and every location that begins no such run keeps its mapping.
   */
  lemma {:induction false} MergeResetsAcross(t: Tables, sort: seq<Node> -> seq<Node>, nodes: seq<Node>,
      before: seq<nat>, k: nat)
    requires NamesInRange(t) && |nodes| >= 2 && k < |before| == |t.locations|
    ensures
      var after := AfterMerge(t, sort, nodes, before);
      && (BeginsAcross(t, sort(nodes), k, before[k], before) ==> after[k] == 0)
      && (after[k] != before[k] ==> after[k] == 0 && BeginsAcross(t, sort(nodes), k, before[k], after))
  {
    var after := AfterMerge(t, sort, nodes, before);
    MergeOnlyResets(t, sort, nodes, before);
    if BeginsAcross(t, sort(nodes), k, before[k], before) {
      var h, j, l :| AcrossAt(t, sort(nodes), k, before[k], before, h, j, l);
      ResetAcross(t, sort(nodes), before, before, k, h, j, l);
    }
    if after[k] != before[k] {
      var h, j, l := ResetOnlyAcross(t, sort(nodes), before, after, k);
    }
  }

  /** Somewhere in the traversal of a node the k-th location begins a run across mappings. */
  ghost predicate AcrossBelow(t: Tables, sort: seq<Node> -> seq<Node>, n: Node, k: int, m: nat, mappings: seq<nat>)
    requires NamesInRange(t) && SortsByName(t, sort) && |mappings| == |t.locations|
    decreases Size(n.children), 1, 0
  {
    MergedShrinks(t, sort, n.children);
    || (|n.children| >= 2 && BeginsAcross(t, sort(n.children), k, m, mappings))
    || AcrossIn(t, sort, Merged(t, sort, n.children), k, m, mappings)
  }

  ghost predicate AcrossIn(t: Tables, sort: seq<Node> -> seq<Node>, nodes: seq<Node>, k: int, m: nat,
      mappings: seq<nat>)
    requires NamesInRange(t) && SortsByName(t, sort) && |mappings| == |t.locations|
    decreases Size(nodes), 0, |nodes|
  {
    nodes != [] && (AcrossBelow(t, sort, nodes[0], k, m, mappings) || AcrossIn(t, sort, nodes[1..], k, m, mappings))
  }

  lemma {:induction false} MergeResetsFrom(t: Tables, sort: seq<Node> -> seq<Node>, nodes: seq<Node>,
      before: seq<nat>, now: seq<nat>, k: nat)
    requires NamesInRange(t) && |nodes| >= 2 && k < |before| == |t.locations| && OnlyReset(before, now)
    requires BeginsAcross(t, sort(nodes), k, before[k], before)
    ensures AfterMerge(t, sort, nodes, now)[k] == 0
  {
    var h, j, l :| AcrossAt(t, sort(nodes), k, before[k], before, h, j, l);
    ResetAcross(t, sort(nodes), before, now, k, h, j, l);
  }

  /** A run across mappings anywhere in the traversal leaves its first location without a mapping. */
  lemma {:induction false} AggregationResets(t: Tables, sort: seq<Node> -> seq<Node>, n: Node, before: seq<nat>,
      now: seq<nat>, k: nat)
    requires NamesInRange(t) && SortsByName(t, sort) && k < |before| == |t.locations| && OnlyReset(before, now)
    requires AcrossBelow(t, sort, n, k, before[k], before)
    ensures AfterNode(t, sort, n, now)[k] == 0
    decreases Size(n.children), 1, 0
  {
    hide BeginsAcross, AfterMerge, Merged;
    MergedShrinks(t, sort, n.children);
    var merged, later := Merged(t, sort, n.children), AfterMerge(t, sort, n.children, now);
    MergeOnlyResets(t, sort, n.children, now);
    if AcrossIn(t, sort, merged, k, before[k], before) {
      OnlyResetTransitive(before, now, later);
      AllReset(t, sort, merged, before, later, k);
    } else {
      MergeResetsFrom(t, sort, n.children, before, now, k);
      AllOnlyReset(t, sort, merged, later);
    }
  }

  lemma {:induction false} AllReset(t: Tables, sort: seq<Node> -> seq<Node>, nodes: seq<Node>, before: seq<nat>,
      now: seq<nat>, k: nat)
    requires NamesInRange(t) && SortsByName(t, sort) && k < |before| == |t.locations| && OnlyReset(before, now)
    requires AcrossIn(t, sort, nodes, k, before[k], before)
    ensures AfterAll(t, sort, nodes, now)[k] == 0
    decreases Size(nodes), 0, |nodes|
  {
    hide AcrossBelow, AfterNode;
    var later := AfterNode(t, sort, nodes[0], now);
    AggregationOnlyResets(t, sort, nodes[0], now);
    OnlyResetTransitive(before, now, later);
    if AcrossBelow(t, sort, nodes[0], k, before[k], before) {
      AggregationResets(t, sort, nodes[0], before, now, k);
      AllOnlyReset(t, sort, nodes[1..], later);
    } else {
      AllReset(t, sort, nodes[1..], before, later, k);
    }
  }

  /** A location that lost its mapping begins a run across mappings somewhere in the traversal. */
  lemma {:induction false} AggregationResetsOnlyAcross(t: Tables, sort: seq<Node> -> seq<Node>, n: Node,
      before: seq<nat>, after: seq<nat>, k: nat)
    requires NamesInRange(t) && SortsByName(t, sort) && k < |before| == |t.locations|
    requires OnlyReset(AfterNode(t, sort, n, before), after) && AfterNode(t, sort, n, before)[k] != before[k]
    ensures AcrossBelow(t, sort, n, k, before[k], after)
    decreases Size(n.children), 1, 0
  {
    hide BeginsAcross, Merged;
    MergedShrinks(t, sort, n.children);
    var merged, next := Merged(t, sort, n.children), AfterMerge(t, sort, n.children, before);
    if next[k] != before[k] {
      AllOnlyReset(t, sort, merged, next);
      OnlyResetTransitive(next, AfterAll(t, sort, merged, next), after);
      var h, j, l := ResetOnlyAcross(t, sort(n.children), before, after, k);
      BeginsAcrossAt(t, sort(n.children), k, before[k], after, h, j, l);
    } else {
      AllResetOnlyAcross(t, sort, merged, next, after, k);
    }
  }

  lemma BeginsAcrossAt(t: Tables, nodes: seq<Node>, k: int, m: nat, mappings: seq<nat>, h: int, j: int, l: int)
    requires NamesInRange(t) && |mappings| == |t.locations| && AcrossAt(t, nodes, k, m, mappings, h, j, l)
    ensures BeginsAcross(t, nodes, k, m, mappings)
  {
  }

  lemma {:induction false} AllResetOnlyAcross(t: Tables, sort: seq<Node> -> seq<Node>, nodes: seq<Node>,
      before: seq<nat>, after: seq<nat>, k: nat)
    requires NamesInRange(t) && SortsByName(t, sort) && k < |before| == |t.locations|
    requires OnlyReset(AfterAll(t, sort, nodes, before), after) && AfterAll(t, sort, nodes, before)[k] != before[k]
    ensures AcrossIn(t, sort, nodes, k, before[k], after)
    decreases Size(nodes), 0, |nodes|
  {
    hide AcrossBelow, AfterNode;
    var next := AfterNode(t, sort, nodes[0], before);
    if next[k] != before[k] {
      AllOnlyReset(t, sort, nodes[1..], next);
      OnlyResetTransitive(next, AfterAll(t, sort, nodes, before), after);
      AggregationResetsOnlyAcross(t, sort, nodes[0], before, after, k);
    } else {
      AllResetOnlyAcross(t, sort, nodes[1..], next, after, k);
    }
  }
}
