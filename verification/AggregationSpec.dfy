/**
 What aggregation by function does to a tree of values, and what it keeps: along every path of
 frames the total of both values, the set of paths, and at most one sibling per function name.
 */
module AggregationSpec {
  import opened Options
  import opened FlamegraphTables

  /** A sort by name as the library promises it: the same nodes, in order. */
  ghost predicate SortsByName(t: Tables, sort: seq<Node> -> seq<Node>)
    requires NamesInRange(t)
  {
    forall nodes :: SortedFrom(t, sort(nodes), nodes)
  }

  ghost predicate SortedFrom(t: Tables, sorted: seq<Node>, nodes: seq<Node>)
    requires NamesInRange(t)
  {
    multiset(sorted) == multiset(nodes) && Ordered(t, sorted)
  }

  ghost predicate Ordered(t: Tables, nodes: seq<Node>)
    requires NamesInRange(t)
  {
    forall i, j :: 0 <= i < j < |nodes| ==> InOrder(t, nodes[i].meta, nodes[j].meta)
  }

  function Insert(t: Tables, n: Node, nodes: seq<Node>): seq<Node>
    requires NamesInRange(t)
  {
    if nodes == [] || InOrder(t, n.meta, nodes[0].meta) then [n] + nodes
    else [nodes[0]] + Insert(t, n, nodes[1..])
  }

  function InsertionSort(t: Tables, nodes: seq<Node>): seq<Node>
    requires NamesInRange(t)
  {
    if nodes == [] then [] else Insert(t, nodes[0], InsertionSort(t, nodes[1..]))
  }

  lemma {:induction false} InsertPermutes(t: Tables, n: Node, nodes: seq<Node>)
    requires NamesInRange(t)
    ensures multiset(Insert(t, n, nodes)) == multiset([n] + nodes)
  {
    hide InOrder;
    if nodes != [] {
      InsertPermutes(t, n, nodes[1..]);
      assert nodes == [nodes[0]] + nodes[1..];
    }
  }

  lemma {:induction false} InsertMember(t: Tables, n: Node, nodes: seq<Node>, e: Node)
    requires NamesInRange(t) && e in Insert(t, n, nodes)
    ensures e == n || e in nodes
  {
    hide InOrder;
    if nodes != [] && e in Insert(t, n, nodes[1..]) {
      InsertMember(t, n, nodes[1..], e);
    }
  }

  lemma {:induction false} OrderedCons(t: Tables, n: Node, nodes: seq<Node>)
    requires NamesInRange(t) && Ordered(t, nodes) && forall i :: 0 <= i < |nodes| ==> InOrder(t, n.meta, nodes[i].meta)
    ensures Ordered(t, [n] + nodes)
  {
    hide InOrder;
  }

  lemma {:induction false} InsertOrdered(t: Tables, n: Node, nodes: seq<Node>)
    requires NamesInRange(t) && Ordered(t, nodes)
    ensures Ordered(t, Insert(t, n, nodes))
  {
    hide InOrder;
    if nodes == [] {
    } else if InOrder(t, n.meta, nodes[0].meta) {
      forall i | 0 < i < |nodes| ensures InOrder(t, n.meta, nodes[i].meta) {
        InOrderIsPreorder(t, n.meta, nodes[0].meta, nodes[i].meta);
      }
      OrderedCons(t, n, nodes);
    } else {
      var r := Insert(t, n, nodes[1..]);
      InsertOrdered(t, n, nodes[1..]);
      InOrderIsPreorder(t, nodes[0].meta, n.meta, n.meta);
      forall i | 0 <= i < |r| ensures InOrder(t, nodes[0].meta, r[i].meta) {
        InsertMember(t, n, nodes[1..], r[i]);
      }
      OrderedCons(t, nodes[0], r);
    }
  }

  /** The sort's promise can be kept, by insertion for one. */
  lemma {:induction false} InsertionSorts(t: Tables, nodes: seq<Node>)
    requires NamesInRange(t)
    ensures SortedFrom(t, InsertionSort(t, nodes), nodes)
  {
    if nodes != [] {
      InsertionSorts(t, nodes[1..]);
      InsertOrdered(t, nodes[0], InsertionSort(t, nodes[1..]));
      InsertPermutes(t, nodes[0], InsertionSort(t, nodes[1..]));
      assert nodes == [nodes[0]] + nodes[1..];
    }
  }

  /** The first node takes over the values and the children of the second. */
  function Combine(a: Node, b: Node): Node {
    Node(a.meta, a.cumulative + b.cumulative, a.diff + b.diff, a.children + b.children)
  }

  /** Every node takes over the run of equal nodes behind it. */
  function MergeAdjacent(t: Tables, nodes: seq<Node>): seq<Node>
    requires NamesInRange(t)
    decreases |nodes|
  {
    if |nodes| < 2 then nodes
    else if EqualsByName(t, nodes[0].meta, nodes[1].meta)
    then MergeAdjacent(t, [Combine(nodes[0], nodes[1])] + nodes[2..])
    else [nodes[0]] + MergeAdjacent(t, nodes[1..])
  }

  /** The cumulative value of the nodes that are taken over. */
  function MergedAway(t: Tables, nodes: seq<Node>): int
    requires NamesInRange(t)
    decreases |nodes|
  {
    if |nodes| < 2 then 0
    else if EqualsByName(t, nodes[0].meta, nodes[1].meta)
    then nodes[1].cumulative + MergedAway(t, [Combine(nodes[0], nodes[1])] + nodes[2..])
    else MergedAway(t, nodes[1..])
  }

  /** A location whose node takes over one of another mapping loses its mapping. */
  function ResetMapping(t: Tables, a: Meta, b: Meta, mappings: seq<nat>): (r: seq<nat>)
    requires |mappings| == |t.locations|
    ensures |r| == |mappings|
  {
    if GetLocation(t, a.locationIndex).Some? && GetLocation(t, b.locationIndex).Some?
       && mappings[a.locationIndex - 1] != mappings[b.locationIndex - 1]
    then mappings[a.locationIndex - 1 := 0] else mappings
  }

  /** The mappings of all locations after the nodes were merged from left to right. */
  function MergedMappings(t: Tables, nodes: seq<Node>, mappings: seq<nat>): (r: seq<nat>)
    requires NamesInRange(t) && |mappings| == |t.locations|
    ensures |r| == |mappings|
    decreases |nodes|
  {
    if |nodes| < 2 then mappings
    else if EqualsByName(t, nodes[0].meta, nodes[1].meta)
    then MergedMappings(t, [Combine(nodes[0], nodes[1])] + nodes[2..],
      ResetMapping(t, nodes[0].meta, nodes[1].meta, mappings))
    else MergedMappings(t, nodes[1..], mappings)
  }

  ghost predicate OnlyReset(before: seq<nat>, after: seq<nat>) {
    |before| == |after| && forall k :: 0 <= k < |after| ==> after[k] == before[k] || after[k] == 0
  }

  /** A mapping is kept or reset, nothing else; and locations of one mapping keep it. */
  lemma {:induction false} MappingsOnlyReset(t: Tables, nodes: seq<Node>, mappings: seq<nat>)
    requires NamesInRange(t) && |mappings| == |t.locations|
    ensures OnlyReset(mappings, MergedMappings(t, nodes, mappings))
    ensures (forall i, j :: 0 <= i < j < |mappings| ==> mappings[i] == mappings[j]) ==>
      MergedMappings(t, nodes, mappings) == mappings
    decreases |nodes|
  {
    if |nodes| >= 2 {
      if EqualsByName(t, nodes[0].meta, nodes[1].meta) {
        MappingsOnlyReset(t, [Combine(nodes[0], nodes[1])] + nodes[2..],
          ResetMapping(t, nodes[0].meta, nodes[1].meta, mappings));
      } else {
        MappingsOnlyReset(t, nodes[1..], mappings);
      }
    }
  }

  ghost function Merged(t: Tables, sort: seq<Node> -> seq<Node>, nodes: seq<Node>): seq<Node>
    requires NamesInRange(t)
  {
    if |nodes| < 2 then nodes else MergeAdjacent(t, sort(nodes))
  }

  // Sums over forests.

  function Size(nodes: seq<Node>): nat {
    if nodes == [] then 0 else 1 + Size(nodes[0].children) + Size(nodes[1..])
  }

  datatype Measure = Cumulative | Diff | Count

  function Read(n: Node, m: Measure): int {
    match m
    case Cumulative => n.cumulative
    case Diff => n.diff
    case Count => 1
  }

  /** The total of a measure over the nodes whose frames from the top are the given path. */
  function On(t: Tables, m: Measure, nodes: seq<Node>, path: seq<Key>): int
    requires NamesInRange(t) && path != []
    decreases |path|, |nodes|
  {
    if nodes == [] then 0
    else
      (if KeyOf(t, nodes[0].meta) != path[0] then 0
       else if |path| == 1 then Read(nodes[0], m)
       else On(t, m, nodes[0].children, path[1..]))
      + On(t, m, nodes[1..], path)
  }

  function Sum(nodes: seq<Node>): int {
    if nodes == [] then 0 else nodes[0].cumulative + Sum(nodes[1..])
  }

  lemma {:induction false} OnConcat(t: Tables, m: Measure, a: seq<Node>, b: seq<Node>, path: seq<Key>)
    requires NamesInRange(t) && path != []
    ensures On(t, m, a + b, path) == On(t, m, a, path) + On(t, m, b, path)
    decreases |a|
  {
    if a == [] {
      assert a + b == b;
    } else {
      assert (a + b)[1..] == a[1..] + b;
      OnConcat(t, m, a[1..], b, path);
    }
  }

  lemma {:induction false} SumConcat(a: seq<Node>, b: seq<Node>)
    ensures Sum(a + b) == Sum(a) + Sum(b)
  {
    if a == [] {
      assert a + b == b;
    } else {
      assert (a + b)[1..] == a[1..] + b;
      SumConcat(a[1..], b);
    }
  }

  lemma {:induction false} SizeConcat(a: seq<Node>, b: seq<Node>)
    ensures Size(a + b) == Size(a) + Size(b)
    decreases |a|
  {
    if a == [] {
      assert a + b == b;
    } else {
      assert (a + b)[1..] == a[1..] + b;
      SizeConcat(a[1..], b);
    }
  }

  // Sorting changes no sum.

  ghost predicate Additive(f: seq<Node> -> int) {
    f([]) == 0 && forall a, b :: f(a + b) == f(a) + f(b)
  }

  lemma {:induction false} WithoutOne<T>(s: seq<T>, k: nat)
    requires k < |s|
    ensures s == s[..k] + [s[k]] + s[k + 1..]
    ensures multiset(s[..k] + s[k + 1..]) == multiset(s) - multiset{s[k]}
  {
    assert s == s[..k] + [s[k]] + s[k + 1..];
  }

  /** A permutation holds the first element somewhere, and without it permutes the rest. */
  lemma {:induction false} PermutationStep<T>(a: seq<T>, b: seq<T>) returns (k: nat)
    requires a != [] && multiset(a) == multiset(b)
    ensures k < |b| && b[k] == a[0] && multiset(a[1..]) == multiset(b[..k] + b[k + 1..])
  {
    assert a[0] in multiset(b);
    k :| 0 <= k < |b| && b[k] == a[0];
    WithoutOne(a, 0);
    WithoutOne(b, k);
    assert a[..0] + a[1..] == a[1..];
  }

  lemma {:induction false} AdditiveSplit(f: seq<Node> -> int, s: seq<Node>, k: nat)
    requires Additive(f) && k < |s|
    ensures f(s) == f([s[k]]) + f(s[..k] + s[k + 1..])
  {
    var a, x, b := s[..k], [s[k]], s[k + 1..];
    WithoutOne(s, k);
    assert f((a + x) + b) == f(a + x) + f(b);
  }

  lemma {:induction false} AdditiveOfPermutation(f: seq<Node> -> int, a: seq<Node>, b: seq<Node>)
    requires Additive(f) && multiset(a) == multiset(b)
    ensures f(a) == f(b)
    decreases |a|
  {
    hide Additive;
    if a == [] {
      assert |multiset(a)| == |multiset(b)| == |b|;
    } else {
      var k := PermutationStep(a, b);
      AdditiveOfPermutation(f, a[1..], b[..k] + b[k + 1..]);
      assert a[..0] + a[0 + 1..] == a[1..];
      AdditiveSplit(f, a, 0);
      AdditiveSplit(f, b, k);
    }
  }

  lemma {:induction false} SortKeepsOn(t: Tables, m: Measure, a: seq<Node>, b: seq<Node>, path: seq<Key>)
    requires NamesInRange(t) && path != [] && multiset(a) == multiset(b)
    ensures On(t, m, a, path) == On(t, m, b, path)
  {
    var f := (s: seq<Node>) => On(t, m, s, path);
    forall x, y ensures f(x + y) == f(x) + f(y) { OnConcat(t, m, x, y, path); }
    AdditiveOfPermutation(f, a, b);
  }

  lemma {:induction false} SortKeepsSums(a: seq<Node>, b: seq<Node>)
    requires multiset(a) == multiset(b)
    ensures Sum(a) == Sum(b) && Size(a) == Size(b) && |a| == |b|
  {
    forall x, y ensures Sum(x + y) == Sum(x) + Sum(y) { SumConcat(x, y); }
    forall x, y ensures Size(x + y) == Size(x) + Size(y) { SizeConcat(x, y); }
    var sum, size := (s: seq<Node>) => Sum(s), (s: seq<Node>) => Size(s) as int;
    assert Additive(sum) && Additive(size);
    AdditiveOfPermutation(sum, a, b);
    AdditiveOfPermutation(size, a, b);
    assert |multiset(a)| == |a| && |multiset(b)| == |b|;
  }

  // Merging neighbours changes no total and no path.

  lemma {:induction false} CombineKeepsOn(t: Tables, m: Measure, a: Node, b: Node, path: seq<Key>)
    requires NamesInRange(t) && path != [] && KeyOf(t, a.meta) == KeyOf(t, b.meta)
    requires !m.Count?
    ensures On(t, m, [Combine(a, b)], path) == On(t, m, [a], path) + On(t, m, [b], path)
  {
    if |path| > 1 {
      OnConcat(t, m, a.children, b.children, path[1..]);
    }
  }

  lemma {:induction false} MergeAdjacentKeepsOn(t: Tables, m: Measure, nodes: seq<Node>, path: seq<Key>)
    requires NamesInRange(t) && path != []
    requires !m.Count?
    ensures On(t, m, MergeAdjacent(t, nodes), path) == On(t, m, nodes, path)
    decreases |nodes|
  {
    if |nodes| >= 2 {
      if EqualsByName(t, nodes[0].meta, nodes[1].meta) {
        var c := Combine(nodes[0], nodes[1]);
        MergeAdjacentKeepsOn(t, m, [c] + nodes[2..], path);
        EqualMeansSameKey(t, nodes[0].meta, nodes[1].meta);
        CombineKeepsOn(t, m, nodes[0], nodes[1], path);
        OnConcat(t, m, [c], nodes[2..], path);
        assert nodes == [nodes[0]] + ([nodes[1]] + nodes[2..]);
        OnConcat(t, m, [nodes[0]], [nodes[1]] + nodes[2..], path);
        OnConcat(t, m, [nodes[1]], nodes[2..], path);
      } else {
        MergeAdjacentKeepsOn(t, m, nodes[1..], path);
      }
    }
  }

  lemma {:induction false} MergedKeepsOn(t: Tables, sort: seq<Node> -> seq<Node>, m: Measure, nodes: seq<Node>,
      path: seq<Key>)
    requires NamesInRange(t) && SortsByName(t, sort) && path != []
    requires !m.Count?
    ensures On(t, m, Merged(t, sort, nodes), path) == On(t, m, nodes, path)
  {
    if |nodes| >= 2 {
      assert SortedFrom(t, sort(nodes), nodes);
      MergeAdjacentKeepsOn(t, m, sort(nodes), path);
      SortKeepsOn(t, m, sort(nodes), nodes, path);
    }
  }

  // Merging neighbours loses and invents no path.

  lemma {:induction false} CountIsNatural(t: Tables, nodes: seq<Node>, path: seq<Key>)
    requires NamesInRange(t) && path != []
    ensures On(t, Count, nodes, path) >= 0
    decreases |path|, |nodes|
  {
    if nodes != [] {
      CountIsNatural(t, nodes[1..], path);
      if |path| > 1 {
        CountIsNatural(t, nodes[0].children, path[1..]);
      }
    }
  }

  ghost predicate Present(t: Tables, nodes: seq<Node>, path: seq<Key>)
    requires NamesInRange(t) && path != []
  {
    On(t, Count, nodes, path) > 0
  }

  lemma {:induction false} PresentConcat(t: Tables, a: seq<Node>, b: seq<Node>, path: seq<Key>)
    requires NamesInRange(t) && path != []
    ensures Present(t, a + b, path) <==> Present(t, a, path) || Present(t, b, path)
  {
    OnConcat(t, Count, a, b, path);
    CountIsNatural(t, a, path);
    CountIsNatural(t, b, path);
  }

  lemma {:induction false} PresentOne(t: Tables, n: Node, path: seq<Key>)
    requires NamesInRange(t) && path != []
    ensures Present(t, [n], path) <==>
              KeyOf(t, n.meta) == path[0] && (|path| == 1 || Present(t, n.children, path[1..]))
  {
    assert On(t, Count, [n][1..], path) == 0;
  }

  lemma {:induction false} CombineKeepsPresent(t: Tables, a: Node, b: Node, path: seq<Key>)
    requires NamesInRange(t) && path != [] && KeyOf(t, a.meta) == KeyOf(t, b.meta)
    ensures Present(t, [Combine(a, b)], path) <==> Present(t, [a], path) || Present(t, [b], path)
  {
    PresentOne(t, a, path);
    PresentOne(t, b, path);
    PresentOne(t, Combine(a, b), path);
    if |path| > 1 {
      PresentConcat(t, a.children, b.children, path[1..]);
    }
  }

  lemma {:induction false} MergeAdjacentKeepsPresent(t: Tables, nodes: seq<Node>, path: seq<Key>)
    requires NamesInRange(t) && path != []
    ensures Present(t, MergeAdjacent(t, nodes), path) <==> Present(t, nodes, path)
    decreases |nodes|
  {
    hide Present;
    if |nodes| >= 2 {
      if EqualsByName(t, nodes[0].meta, nodes[1].meta) {
        var c := Combine(nodes[0], nodes[1]);
        MergeAdjacentKeepsPresent(t, [c] + nodes[2..], path);
        EqualMeansSameKey(t, nodes[0].meta, nodes[1].meta);
        CombineKeepsPresent(t, nodes[0], nodes[1], path);
        PresentConcat(t, [c], nodes[2..], path);
        assert nodes == [nodes[0]] + ([nodes[1]] + nodes[2..]);
        PresentConcat(t, [nodes[0]], [nodes[1]] + nodes[2..], path);
        PresentConcat(t, [nodes[1]], nodes[2..], path);
      } else {
        MergeAdjacentKeepsPresent(t, nodes[1..], path);
        PresentConcat(t, [nodes[0]], MergeAdjacent(t, nodes[1..]), path);
        assert nodes == [nodes[0]] + nodes[1..];
        PresentConcat(t, [nodes[0]], nodes[1..], path);
      }
    }
  }

  lemma {:induction false} MergedKeepsPresent(t: Tables, sort: seq<Node> -> seq<Node>, nodes: seq<Node>, path: seq<Key>)
    requires NamesInRange(t) && SortsByName(t, sort) && path != []
    ensures Present(t, Merged(t, sort, nodes), path) <==> Present(t, nodes, path)
  {
    if |nodes| >= 2 {
      assert SortedFrom(t, sort(nodes), nodes);
      MergeAdjacentKeepsPresent(t, sort(nodes), path);
      SortKeepsOn(t, Count, sort(nodes), nodes, path);
    }
  }

  lemma {:induction false} MergeAdjacentShrinks(t: Tables, nodes: seq<Node>)
    requires NamesInRange(t)
    ensures Size(MergeAdjacent(t, nodes)) <= Size(nodes)
    decreases |nodes|
  {
    if |nodes| >= 2 {
      if EqualsByName(t, nodes[0].meta, nodes[1].meta) {
        var c := Combine(nodes[0], nodes[1]);
        MergeAdjacentShrinks(t, [c] + nodes[2..]);
        SizeConcat(nodes[0].children, nodes[1].children);
        SizeConcat([c], nodes[2..]);
        assert nodes[1..][1..] == nodes[2..];
      } else {
        MergeAdjacentShrinks(t, nodes[1..]);
        SizeConcat([nodes[0]], MergeAdjacent(t, nodes[1..]));
      }
    }
  }

  lemma {:induction false} MergedShrinks(t: Tables, sort: seq<Node> -> seq<Node>, nodes: seq<Node>)
    requires NamesInRange(t) && SortsByName(t, sort)
    ensures Size(Merged(t, sort, nodes)) <= Size(nodes)
  {
    if |nodes| >= 2 {
      assert SortedFrom(t, sort(nodes), nodes);
      MergeAdjacentShrinks(t, sort(nodes));
      SortKeepsSums(sort(nodes), nodes);
    }
  }

  // The aggregated tree.

  /** Every node keeps its values; its children are merged, and then their children in turn. */
  ghost function Aggregate(t: Tables, sort: seq<Node> -> seq<Node>, n: Node): Node
    requires NamesInRange(t) && SortsByName(t, sort)
    decreases Size(n.children), 1, 0
  {
    MergedShrinks(t, sort, n.children);
    Node(n.meta, n.cumulative, n.diff, AggregateAll(t, sort, Merged(t, sort, n.children)))
  }

  ghost function AggregateAll(t: Tables, sort: seq<Node> -> seq<Node>, nodes: seq<Node>): (r: seq<Node>)
    requires NamesInRange(t) && SortsByName(t, sort)
    ensures |r| == |nodes|
    decreases Size(nodes), 0, |nodes|
  {
    if nodes == [] then [] else [Aggregate(t, sort, nodes[0])] + AggregateAll(t, sort, nodes[1..])
  }

  /** The mappings after the children of one node were merged. */
  ghost function AfterMerge(t: Tables, sort: seq<Node> -> seq<Node>, nodes: seq<Node>, mappings: seq<nat>)
    : (r: seq<nat>)
    requires NamesInRange(t) && |mappings| == |t.locations|
    ensures |r| == |mappings|
  {
    if |nodes| < 2 then mappings else MergedMappings(t, sort(nodes), mappings)
  }

  /** The mappings after the aggregation of a node: those of its children are merged first, then each is aggregated. */
  ghost function AfterNode(t: Tables, sort: seq<Node> -> seq<Node>, n: Node, mappings: seq<nat>): (r: seq<nat>)
    requires NamesInRange(t) && SortsByName(t, sort) && |mappings| == |t.locations|
    ensures |r| == |mappings|
    decreases Size(n.children), 1, 0
  {
    MergedShrinks(t, sort, n.children);
    AfterAll(t, sort, Merged(t, sort, n.children), AfterMerge(t, sort, n.children, mappings))
  }

  ghost function AfterAll(t: Tables, sort: seq<Node> -> seq<Node>, nodes: seq<Node>, mappings: seq<nat>): (r: seq<nat>)
    requires NamesInRange(t) && SortsByName(t, sort) && |mappings| == |t.locations|
    ensures |r| == |mappings|
    decreases Size(nodes), 0, |nodes|
  {
    if nodes == [] then mappings else AfterAll(t, sort, nodes[1..], AfterNode(t, sort, nodes[0], mappings))
  }

  lemma OnlyResetTransitive(a: seq<nat>, b: seq<nat>, c: seq<nat>)
    requires OnlyReset(a, b) && OnlyReset(b, c)
    ensures OnlyReset(a, c)
  {
  }

  lemma {:induction false} MergeOnlyResets(t: Tables, sort: seq<Node> -> seq<Node>, nodes: seq<Node>,
      mappings: seq<nat>)
    requires NamesInRange(t) && |mappings| == |t.locations|
    ensures OnlyReset(mappings, AfterMerge(t, sort, nodes, mappings))
    ensures OneMapping(mappings) ==> AfterMerge(t, sort, nodes, mappings) == mappings
  {
    if |nodes| >= 2 {
      MappingsOnlyReset(t, sort(nodes), mappings);
    }
  }

  ghost predicate OneMapping(mappings: seq<nat>) {
    forall i, j :: 0 <= i < j < |mappings| ==> mappings[i] == mappings[j]
  }

  /** Aggregating keeps or resets every mapping, and keeps them all where all locations share one. */
  lemma {:induction false} AggregationOnlyResets(t: Tables, sort: seq<Node> -> seq<Node>, n: Node, mappings: seq<nat>)
    requires NamesInRange(t) && SortsByName(t, sort) && |mappings| == |t.locations|
    ensures OnlyReset(mappings, AfterNode(t, sort, n, mappings))
    ensures OneMapping(mappings) ==> AfterNode(t, sort, n, mappings) == mappings
    decreases Size(n.children), 1, 0
  {
    hide OnlyReset, OneMapping, Merged, AfterMerge;
    MergedShrinks(t, sort, n.children);
    var merged := AfterMerge(t, sort, n.children, mappings);
    MergeOnlyResets(t, sort, n.children, mappings);
    AllOnlyReset(t, sort, Merged(t, sort, n.children), merged);
    OnlyResetTransitive(mappings, merged, AfterNode(t, sort, n, mappings));
  }

  lemma {:induction false} AllOnlyReset(t: Tables, sort: seq<Node> -> seq<Node>, nodes: seq<Node>, mappings: seq<nat>)
    requires NamesInRange(t) && SortsByName(t, sort) && |mappings| == |t.locations|
    ensures OnlyReset(mappings, AfterAll(t, sort, nodes, mappings))
    ensures OneMapping(mappings) ==> AfterAll(t, sort, nodes, mappings) == mappings
    decreases Size(nodes), 0, |nodes|
  {
    if nodes != [] {
      var first := AfterNode(t, sort, nodes[0], mappings);
      AggregationOnlyResets(t, sort, nodes[0], mappings);
      AllOnlyReset(t, sort, nodes[1..], first);
      OnlyResetTransitive(mappings, first, AfterAll(t, sort, nodes, mappings));
    }
  }

  /** Along every path of frames, aggregation keeps the total of the cumulative values and of the diffs. */
  lemma {:induction false} AggregateKeepsOn(t: Tables, sort: seq<Node> -> seq<Node>, m: Measure, nodes: seq<Node>,
      path: seq<Key>)
    requires NamesInRange(t) && SortsByName(t, sort) && path != [] && !m.Count?
    ensures On(t, m, AggregateAll(t, sort, nodes), path) == On(t, m, nodes, path)
    decreases |path|, |nodes|
  {
    if nodes != [] {
      var n := nodes[0];
      AggregateKeepsOn(t, sort, m, nodes[1..], path);
      if |path| > 1 {
        MergedKeepsOn(t, sort, m, n.children, path[1..]);
        AggregateKeepsOn(t, sort, m, Merged(t, sort, n.children), path[1..]);
      }
    }
  }

  /** Aggregation neither loses nor invents a path of frames. */
  lemma {:induction false} AggregateKeepsPresent(t: Tables, sort: seq<Node> -> seq<Node>, nodes: seq<Node>,
      path: seq<Key>)
    requires NamesInRange(t) && SortsByName(t, sort) && path != []
    ensures Present(t, AggregateAll(t, sort, nodes), path) <==> Present(t, nodes, path)
    decreases |path|, |nodes|
  {
    if nodes != [] {
      var n, r := nodes[0], nodes[1..];
      AggregateKeepsPresent(t, sort, r, path);
      assert nodes == [n] + r;
      PresentConcat(t, [n], r, path);
      PresentConcat(t, [Aggregate(t, sort, n)], AggregateAll(t, sort, r), path);
      PresentOne(t, n, path);
      PresentOne(t, Aggregate(t, sort, n), path);
      if |path| > 1 {
        MergedKeepsPresent(t, sort, n.children, path[1..]);
        AggregateKeepsPresent(t, sort, Merged(t, sort, n.children), path[1..]);
      }
    }
  }

  // No two siblings of one function.

  ghost predicate UniqueNames(t: Tables, nodes: seq<Node>)
    requires NamesInRange(t)
  {
    forall i, j :: 0 <= i < j < |nodes| && KeyOf(t, nodes[i].meta).Name? ==>
      KeyOf(t, nodes[i].meta) != KeyOf(t, nodes[j].meta)
  }

  /** Merging keeps the first node's frame and adds no frame. */
  lemma {:induction false} MergeAdjacentKeys(t: Tables, nodes: seq<Node>, i: nat) returns (j: nat)
    requires NamesInRange(t) && i < |MergeAdjacent(t, nodes)|
    ensures j < |nodes| && MergeAdjacent(t, nodes)[i].meta == nodes[j].meta && (i == 0 ==> j == 0)
    decreases |nodes|
  {
    if |nodes| < 2 {
      j := i;
    } else if EqualsByName(t, nodes[0].meta, nodes[1].meta) {
      var k := MergeAdjacentKeys(t, [Combine(nodes[0], nodes[1])] + nodes[2..], i);
      j := if k == 0 then 0 else k + 1;
    } else if i == 0 {
      j := 0;
    } else {
      var k := MergeAdjacentKeys(t, nodes[1..], i - 1);
      j := k + 1;
    }
  }

  lemma {:induction false} MergeAdjacentUnique(t: Tables, nodes: seq<Node>)
    requires NamesInRange(t) && Ordered(t, nodes)
    ensures UniqueNames(t, MergeAdjacent(t, nodes))
    decreases |nodes|
  {
    if |nodes| >= 2 {
      if EqualsByName(t, nodes[0].meta, nodes[1].meta) {
        var c := [Combine(nodes[0], nodes[1])] + nodes[2..];
        assert Ordered(t, c);
        MergeAdjacentUnique(t, c);
      } else {
        var r := MergeAdjacent(t, nodes[1..]);
        assert Ordered(t, nodes[1..]);
        MergeAdjacentUnique(t, nodes[1..]);
        forall j | 0 <= j < |r| && KeyOf(t, nodes[0].meta).Name?
          ensures KeyOf(t, nodes[0].meta) != KeyOf(t, r[j].meta)
        {
          var k := MergeAdjacentKeys(t, nodes[1..], j);
          EqualMeansSameKey(t, nodes[0].meta, nodes[1].meta);
          if KeyOf(t, nodes[0].meta) == KeyOf(t, r[j].meta) && k > 0 {
            NamesAreContiguous(t, nodes[0].meta, nodes[1].meta, nodes[k + 1].meta);
          }
        }
      }
    }
  }

  lemma {:induction false} MergedUnique(t: Tables, sort: seq<Node> -> seq<Node>, nodes: seq<Node>)
    requires NamesInRange(t) && SortsByName(t, sort)
    ensures UniqueNames(t, Merged(t, sort, nodes))
  {
    if |nodes| >= 2 {
      assert SortedFrom(t, sort(nodes), nodes);
      MergeAdjacentUnique(t, sort(nodes));
    }
  }

  ghost predicate UniqueBelow(t: Tables, nodes: seq<Node>)
    requires NamesInRange(t)
    decreases Size(nodes), |nodes|
  {
    UniqueNames(t, nodes) && forall i :: 0 <= i < |nodes| ==> (SizeOfChild(nodes, i); UniqueBelow(t, nodes[i].children))
  }

  lemma {:induction false} SizeOfChild(nodes: seq<Node>, i: nat)
    requires i < |nodes|
    ensures Size(nodes[i].children) < Size(nodes)
    decreases |nodes|
  {
    if i > 0 {
      SizeOfChild(nodes[1..], i - 1);
    }
  }

  lemma {:induction false} AggregateAt(t: Tables, sort: seq<Node> -> seq<Node>, nodes: seq<Node>, i: nat)
    requires NamesInRange(t) && SortsByName(t, sort) && i < |nodes|
    ensures AggregateAll(t, sort, nodes)[i] == Aggregate(t, sort, nodes[i])
    decreases |nodes|
  {
    if i > 0 {
      AggregateAt(t, sort, nodes[1..], i - 1);
    }
  }

  /** Below siblings of different functions, the whole aggregated tree has siblings of different functions. */
  lemma {:induction false} AggregateUnique(t: Tables, sort: seq<Node> -> seq<Node>, nodes: seq<Node>)
    requires NamesInRange(t) && SortsByName(t, sort) && UniqueNames(t, nodes)
    ensures UniqueBelow(t, AggregateAll(t, sort, nodes))
    decreases Size(nodes)
  {
    var r := AggregateAll(t, sort, nodes);
    forall i | 0 <= i < |nodes| ensures r[i].meta == nodes[i].meta && UniqueBelow(t, r[i].children) {
      AggregateAt(t, sort, nodes, i);
      SizeOfChild(nodes, i);
      MergedShrinks(t, sort, nodes[i].children);
      MergedUnique(t, sort, nodes[i].children);
      AggregateUnique(t, sort, Merged(t, sort, nodes[i].children));
    }
  }

  // Reading a function path off the aggregated tree.

  ghost predicate AllNames(path: seq<Key>) {
    forall i :: 0 <= i < |path| ==> path[i].Name?
  }

  /** The first node found by walking down the path. */
  ghost function Find(t: Tables, nodes: seq<Node>, path: seq<Key>): Option<Node>
    requires NamesInRange(t) && path != []
    decreases |path|, |nodes|
  {
    if nodes == [] then None
    else if KeyOf(t, nodes[0].meta) != path[0] then Find(t, nodes[1..], path)
    else if |path| == 1 then Some(nodes[0])
    else Find(t, nodes[0].children, path[1..])
  }

  lemma {:induction false} ElsewhereNothing(t: Tables, m: Measure, nodes: seq<Node>, path: seq<Key>)
    requires NamesInRange(t) && path != []
    requires forall i :: 0 <= i < |nodes| ==> KeyOf(t, nodes[i].meta) != path[0]
    ensures On(t, m, nodes, path) == 0
    decreases |nodes|
  {
    if nodes != [] {
      ElsewhereNothing(t, m, nodes[1..], path);
    }
  }

  /** Where no siblings share a function, the total on a function path is the value of one node. */
  lemma {:induction false} TotalIsFound(t: Tables, m: Measure, nodes: seq<Node>, path: seq<Key>)
    requires NamesInRange(t) && path != [] && AllNames(path) && UniqueBelow(t, nodes)
    ensures
      var found := Find(t, nodes, path);
      On(t, m, nodes, path) == if found.Some? then Read(found.value, m) else 0
    decreases |path|, |nodes|
  {
    if nodes != [] {
      var r := nodes[1..];
      if KeyOf(t, nodes[0].meta) != path[0] {
        assert UniqueBelow(t, r);
        TotalIsFound(t, m, r, path);
      } else {
        ElsewhereNothing(t, m, r, path);
        if |path| > 1 {
          TotalIsFound(t, m, nodes[0].children, path[1..]);
        }
      }
    }
  }

  /**
   The meaning of the aggregated graph: below the root, a path of function names leads to a node
   exactly when some node of the original tree lies on it, and that node's values are the totals of
   all of those.
   */
  lemma {:induction false} AggregateMeansTotals(t: Tables, sort: seq<Node> -> seq<Node>, root: Node, path: seq<Key>)
    requires NamesInRange(t) && SortsByName(t, sort) && path != [] && AllNames(path)
    ensures
      var found := Find(t, Aggregate(t, sort, root).children, path);
      && (found.Some? <==> Present(t, root.children, path))
      && (found.Some? ==>
            && found.value.cumulative == On(t, Cumulative, root.children, path)
            && found.value.diff == On(t, Diff, root.children, path))
  {
    var merged := Merged(t, sort, root.children);
    var r := AggregateAll(t, sort, merged);
    MergedUnique(t, sort, root.children);
    AggregateUnique(t, sort, merged);
    MergedKeepsPresent(t, sort, root.children, path);
    AggregateKeepsPresent(t, sort, merged, path);
    TotalIsFound(t, Count, r, path);
    AggregateTotals(t, sort, Cumulative, root, path);
    AggregateTotals(t, sort, Diff, root, path);
    TotalIsFound(t, Cumulative, r, path);
    TotalIsFound(t, Diff, r, path);
  }

  /** Along every path below the root, also of frames without a function, the totals are unchanged. */
  lemma {:induction false} AggregateTotals(t: Tables, sort: seq<Node> -> seq<Node>, m: Measure, root: Node,
      path: seq<Key>)
    requires NamesInRange(t) && SortsByName(t, sort) && path != [] && !m.Count?
    ensures On(t, m, Aggregate(t, sort, root).children, path) == On(t, m, root.children, path)
  {
    MergedKeepsOn(t, sort, m, root.children, path);
    AggregateKeepsOn(t, sort, m, Merged(t, sort, root.children), path);
  }

  // The safeguard.

  /** No value is negative and no node has less than its children: what non-negative samples build. */
  ghost predicate Covered(n: Node) {
    && Sum(n.children) <= n.cumulative
    && forall i :: 0 <= i < |n.children| ==> n.children[i].cumulative >= 0 && Covered(n.children[i])
  }

  ghost predicate AllCovered(nodes: seq<Node>) {
    forall i :: 0 <= i < |nodes| ==> nodes[i].cumulative >= 0 && Covered(nodes[i])
  }

  lemma {:induction false} SumOfCovered(nodes: seq<Node>)
    requires AllCovered(nodes)
    ensures Sum(nodes) >= 0
  {
    if nodes != [] {
      SumOfCovered(nodes[1..]);
    }
  }

  lemma {:induction false} CombineCovered(a: Node, b: Node)
    requires AllCovered([a, b])
    ensures AllCovered([Combine(a, b)])
  {
    assert Covered([a, b][0]) && Covered([a, b][1]);
    SumConcat(a.children, b.children);
  }

  /** What merging takes away is no more than all of the siblings together. */
  lemma {:induction false} MergedAwayBounded(t: Tables, nodes: seq<Node>)
    requires NamesInRange(t) && AllCovered(nodes)
    ensures 0 <= MergedAway(t, nodes) <= Sum(nodes) && AllCovered(MergeAdjacent(t, nodes))
    ensures nodes != [] ==> MergedAway(t, nodes) <= Sum(nodes[1..])
    decreases |nodes|
  {
    SumOfCovered(nodes);
    if |nodes| >= 2 {
      var r := nodes[2..];
      assert nodes[1..][1..] == r;
      if EqualsByName(t, nodes[0].meta, nodes[1].meta) {
        CombineCovered(nodes[0], nodes[1]);
        var c := Combine(nodes[0], nodes[1]);
        assert AllCovered([c] + r);
        MergedAwayBounded(t, [c] + r);
        assert ([c] + r)[1..] == r;
      } else {
        MergedAwayBounded(t, nodes[1..]);
      }
    }
  }

  /** At no node of the traversal do the merged-away children exceed the node. */
  ghost predicate NeverRaised(t: Tables, sort: seq<Node> -> seq<Node>, n: Node)
    requires NamesInRange(t) && SortsByName(t, sort)
    decreases Size(n.children), 1, 0
  {
    MergedShrinks(t, sort, n.children);
    && (|n.children| >= 2 ==> MergedAway(t, sort(n.children)) <= n.cumulative)
    && NoneRaised(t, sort, Merged(t, sort, n.children))
  }

  ghost predicate NoneRaised(t: Tables, sort: seq<Node> -> seq<Node>, nodes: seq<Node>)
    requires NamesInRange(t) && SortsByName(t, sort)
    decreases Size(nodes), 0, |nodes|
  {
    nodes != [] ==> NeverRaised(t, sort, nodes[0]) && NoneRaised(t, sort, nodes[1..])
  }

  lemma {:induction false} AllCoveredSorted(t: Tables, sort: seq<Node> -> seq<Node>, nodes: seq<Node>)
    requires NamesInRange(t) && SortsByName(t, sort) && AllCovered(nodes)
    ensures AllCovered(sort(nodes)) && Sum(sort(nodes)) == Sum(nodes)
  {
    assert SortedFrom(t, sort(nodes), nodes);
    SortKeepsSums(sort(nodes), nodes);
    forall i | 0 <= i < |sort(nodes)| ensures sort(nodes)[i] in nodes {
      assert sort(nodes)[i] in multiset(sort(nodes));
    }
  }

  /** In a tree of non-negative samples the safeguard never raises a node. */
  lemma {:induction false} CoveredNeverRaised(t: Tables, sort: seq<Node> -> seq<Node>, n: Node)
    requires NamesInRange(t) && SortsByName(t, sort) && Covered(n)
    ensures NeverRaised(t, sort, n)
    decreases Size(n.children), 1, 0
  {
    MergedShrinks(t, sort, n.children);
    assert AllCovered(n.children);
    if |n.children| >= 2 {
      AllCoveredSorted(t, sort, n.children);
      MergedAwayBounded(t, sort(n.children));
    }
    CoveredNoneRaised(t, sort, Merged(t, sort, n.children));
  }

  lemma {:induction false} CoveredNoneRaised(t: Tables, sort: seq<Node> -> seq<Node>, nodes: seq<Node>)
    requires NamesInRange(t) && SortsByName(t, sort) && AllCovered(nodes)
    ensures NoneRaised(t, sort, nodes)
    decreases Size(nodes), 0, |nodes|
  {
    if nodes != [] {
      CoveredNeverRaised(t, sort, nodes[0]);
      CoveredNoneRaised(t, sort, nodes[1..]);
    }
  }
}
