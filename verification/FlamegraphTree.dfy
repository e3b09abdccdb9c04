/**
 The tree a table flame graph starts from: every sample is inserted along its locations, outermost
 first, with one node per inlined function, and siblings sorted by location index.
 */
module FlamegraphTree {
  import opened Options
  import opened FlamegraphTables
  import opened AggregationSpec
  import FlamegraphAggregation

  /** A sample whose locations, leaf first, are indices into the location table. */
  datatype IndexedSample = IndexedSample(locations: seq<nat>, value: int, diff: int)

  /** The number of nodes below the outermost one that a location adds. */
  function InlinedBelow(t: Tables, location: nat): nat {
    match GetLocation(t, location)
    case None => 0
    case Some(l) => if |l.lines| == 0 then 0 else |l.lines| - 1
  }

  /** A location's nodes from the one with the given line on, outermost first. */
  function NodesOf(location: nat, line: nat): seq<Meta> {
    [Meta(location, line)] + (if line == 0 then [] else NodesOf(location, line - 1))
  }

  /** The nodes of a leaf-first list of locations, outermost first. */
  function StackOf(t: Tables, locations: seq<nat>): seq<Meta> {
    if locations == [] then [] else StackOf(t, locations[1..]) + NodesOf(locations[0], InlinedBelow(t, locations[0]))
  }

  /** The first sibling that is not below a location index; siblings are sorted by it. */
  function Search(nodes: seq<Node>, location: nat): (i: nat)
    ensures i <= |nodes| && forall k :: 0 <= k < i ==> nodes[k].meta.locationIndex < location
    ensures i < |nodes| ==> nodes[i].meta.locationIndex >= location
  {
    if nodes == [] || nodes[0].meta.locationIndex >= location then 0 else 1 + Search(nodes[1..], location)
  }

  /** Inserts a stack below a list of siblings, onto the nodes with the same location or onto new ones. */
  function Inserted(nodes: seq<Node>, stack: seq<Meta>, value: int, diff: int): seq<Node>
    decreases |stack|
  {
    if stack == [] then nodes
    else
      var i := Search(nodes, stack[0].locationIndex);
      if i < |nodes| && nodes[i].meta.locationIndex == stack[0].locationIndex
      then
        var n := nodes[i];
        nodes[..i] + [Node(n.meta, n.cumulative + value, n.diff + diff,
          Inserted(n.children, stack[1..], value, diff))] + nodes[i + 1..]
      else nodes[..i] + [Node(stack[0], value, diff, Inserted([], stack[1..], value, diff))] + nodes[i..]
  }

  /** The nodes of a location from the given line up to the last, innermost first. */
  ghost function LinesUp(location: nat, line: nat, last: nat): seq<Meta>
    requires line <= last
    decreases last - line
  {
    [Meta(location, line)] + (if line == last then [] else LinesUp(location, line + 1, last))
  }

  /** The nodes of a leaf-first list of locations, leaf first: every line of every location, or its only node. */
  ghost function LeafFirst(t: Tables, locations: seq<nat>): seq<Meta> {
    if locations == [] then []
    else
      var l := locations[0];
      var lines := if 1 <= l <= |t.locations| then |t.locations[l - 1].lines| else 0;
      LinesUp(l, 0, if lines == 0 then 0 else lines - 1) + LeafFirst(t, locations[1..])
  }

  ghost predicate Reversed<T>(a: seq<T>, b: seq<T>) {
    |a| == |b| && forall i :: 0 <= i < |a| ==> a[i] == b[|b| - 1 - i]
  }

  lemma {:induction false} LinesUpSnoc(location: nat, line: nat, last: nat)
    requires line <= last
    ensures LinesUp(location, line, last)
      == (if line == last then [] else LinesUp(location, line, last - 1)) + [Meta(location, last)]
    decreases last - line
  {
    if line < last {
      LinesUpSnoc(location, line + 1, last);
    }
  }

  lemma {:induction false} NodesAreReversed(location: nat, last: nat)
    ensures Reversed(NodesOf(location, last), LinesUp(location, 0, last))
  {
    if last > 0 {
      NodesAreReversed(location, last - 1);
      LinesUpSnoc(location, 0, last);
    }
  }

  lemma {:induction false} ReversedConcat<T>(a: seq<T>, a': seq<T>, b: seq<T>, b': seq<T>)
    requires Reversed(a, a') && Reversed(b, b')
    ensures Reversed(b + a, a' + b')
  {
  }

  /** The stack of a sample is the leaf-first list of its nodes from back to front. */
  lemma {:induction false} StackIsReversed(t: Tables, locations: seq<nat>)
    ensures Reversed(StackOf(t, locations), LeafFirst(t, locations))
  {
    if locations != [] {
      var l := locations[0];
      StackIsReversed(t, locations[1..]);
      NodesAreReversed(l, InlinedBelow(t, l));
      ReversedConcat(NodesOf(l, InlinedBelow(t, l)), LinesUp(l, 0, InlinedBelow(t, l)),
        StackOf(t, locations[1..]), LeafFirst(t, locations[1..]));
    }
  }

  // Siblings stay sorted by location, one node a location.

  ghost predicate ByLocation(nodes: seq<Node>) {
    forall i, j :: 0 <= i < j < |nodes| ==> nodes[i].meta.locationIndex < nodes[j].meta.locationIndex
  }

  ghost predicate SortedBelow(n: Node)
    decreases n
  {
    ByLocation(n.children) && forall i :: 0 <= i < |n.children| ==> SortedBelow(n.children[i])
  }

  ghost predicate AllSortedBelow(nodes: seq<Node>) {
    forall i :: 0 <= i < |nodes| ==> SortedBelow(nodes[i])
  }

  lemma SortedChildren(n: Node)
    ensures SortedBelow(n) <==> ByLocation(n.children) && AllSortedBelow(n.children)
  {
  }

  lemma {:induction false} ByLocationPut(nodes: seq<Node>, i: nat, j: nat, n: Node)
    requires ByLocation(nodes) && i <= j <= |nodes|
    requires forall k :: 0 <= k < i ==> nodes[k].meta.locationIndex < n.meta.locationIndex
    requires j < |nodes| ==> n.meta.locationIndex < nodes[j].meta.locationIndex
    ensures ByLocation(nodes[..i] + [n] + nodes[j..])
  {
    var more := nodes[..i] + [n] + nodes[j..];
    assert forall k :: 0 <= k < i ==> more[k] == nodes[k];
    assert more[i] == n && forall k :: i < k < |more| ==> more[k] == nodes[k - i - 1 + j];
  }

  lemma AllSortedPut(nodes: seq<Node>, i: nat, j: nat, n: Node)
    requires AllSortedBelow(nodes) && i <= j <= |nodes| && SortedBelow(n)
    ensures AllSortedBelow(nodes[..i] + [n] + nodes[j..])
  {
    hide SortedBelow;
  }

  /** Inserting a stack keeps siblings sorted by location, with no location twice. */
  lemma {:induction false} InsertedSorted(nodes: seq<Node>, stack: seq<Meta>, value: int, diff: int)
    requires ByLocation(nodes) && AllSortedBelow(nodes)
    ensures
      var r := Inserted(nodes, stack, value, diff);
      ByLocation(r) && AllSortedBelow(r)
    decreases |stack|
  {
    hide SortedBelow, ByLocation, AllSortedBelow;
    if stack != [] {
      var i, rest := Search(nodes, stack[0].locationIndex), stack[1..];
      if i < |nodes| && nodes[i].meta.locationIndex == stack[0].locationIndex {
        var n := nodes[i];
        var n' := Node(n.meta, n.cumulative + value, n.diff + diff, Inserted(n.children, rest, value, diff));
        SortedAt(nodes, i);
        InsertedSorted(n.children, rest, value, diff);
        SortedChildren(n');
        NextIsLater(nodes, i);
        ByLocationPut(nodes, i, i + 1, n');
        AllSortedPut(nodes, i, i + 1, n');
      } else {
        var n' := Node(stack[0], value, diff, Inserted([], rest, value, diff));
        NoneSorted();
        InsertedSorted([], rest, value, diff);
        SortedChildren(n');
        ByLocationPut(nodes, i, i, n');
        AllSortedPut(nodes, i, i, n');
      }
    }
  }

  lemma SortedAt(nodes: seq<Node>, i: nat)
    requires AllSortedBelow(nodes) && i < |nodes|
    ensures ByLocation(nodes[i].children) && AllSortedBelow(nodes[i].children)
  {
    SortedChildren(nodes[i]);
  }

  lemma NextIsLater(nodes: seq<Node>, i: nat)
    requires ByLocation(nodes) && i < |nodes|
    ensures i + 1 < |nodes| ==> nodes[i].meta.locationIndex < nodes[i + 1].meta.locationIndex
  {
  }

  lemma NoneSorted()
    ensures ByLocation([]) && AllSortedBelow([])
  {
  }

  // The line of a node is fixed by its location and its parent.

  /** Below a node whose location has inlined functions left comes the next of them, else a new location. */
  predicate Follows(t: Tables, parent: Option<Meta>, m: Meta) {
    if parent.Some? && parent.value.lineIndex > 0
    then m == Meta(parent.value.locationIndex, parent.value.lineIndex - 1)
    else m.lineIndex == InlinedBelow(t, m.locationIndex)
  }

  ghost predicate StackFollows(t: Tables, parent: Option<Meta>, stack: seq<Meta>)
    decreases |stack|
  {
    stack == [] || (Follows(t, parent, stack[0]) && StackFollows(t, Some(stack[0]), stack[1..]))
  }

  ghost predicate Consistent(t: Tables, parent: Option<Meta>, nodes: seq<Node>) {
    forall i :: 0 <= i < |nodes| ==> ConsistentNode(t, parent, nodes[i])
  }

  ghost predicate ConsistentNode(t: Tables, parent: Option<Meta>, n: Node)
    decreases n
  {
    Follows(t, parent, n.meta) && forall i :: 0 <= i < |n.children| ==> ConsistentNode(t, Some(n.meta), n.children[i])
  }

  lemma {:induction false} FollowsCons(t: Tables, parent: Option<Meta>, m: Meta, rest: seq<Meta>)
    requires Follows(t, parent, m) && StackFollows(t, Some(m), rest)
    ensures StackFollows(t, parent, [m] + rest)
  {
    assert ([m] + rest)[1..] == rest;
  }

  lemma {:induction false} NodesFollow(t: Tables, parent: Option<Meta>, location: nat, line: nat, rest: seq<Meta>)
    requires Follows(t, parent, Meta(location, line)) && StackFollows(t, Some(Meta(location, 0)), rest)
    ensures StackFollows(t, parent, NodesOf(location, line) + rest)
    decreases line
  {
    hide StackFollows, InlinedBelow;
    var m := Meta(location, line);
    if line > 0 {
      NodesFollow(t, Some(m), location, line - 1, rest);
      FollowsCons(t, parent, m, NodesOf(location, line - 1) + rest);
      assert NodesOf(location, line) + rest == [m] + (NodesOf(location, line - 1) + rest);
    } else {
      FollowsCons(t, parent, m, rest);
      assert NodesOf(location, line) + rest == [m] + rest;
    }
  }

  /** Every sample's stack is consistent, whatever follows it. */
  lemma {:induction false} StackOfFollows(t: Tables, parent: Option<Meta>, locations: seq<nat>, rest: seq<Meta>)
    requires parent.Some? ==> parent.value.lineIndex == 0
    requires forall p: Option<Meta> :: (p.Some? ==> p.value.lineIndex == 0) ==> StackFollows(t, p, rest)
    ensures StackFollows(t, parent, StackOf(t, locations) + rest)
    decreases |locations|
  {
    if locations == [] {
      assert StackOf(t, locations) + rest == rest;
    } else {
      var l := locations[0];
      var own := NodesOf(l, InlinedBelow(t, l));
      forall p: Option<Meta> | p.Some? ==> p.value.lineIndex == 0 ensures StackFollows(t, p, own + rest) {
        NodesFollow(t, p, l, InlinedBelow(t, l), rest);
      }
      StackOfFollows(t, parent, locations[1..], own + rest);
      assert StackOf(t, locations) + rest == StackOf(t, locations[1..]) + (own + rest);
    }
  }

  lemma SameNode(t: Tables, parent: Option<Meta>, n: Node, m: Meta)
    requires ConsistentNode(t, parent, n) && Follows(t, parent, m) && n.meta.locationIndex == m.locationIndex
    ensures n.meta == m
  {
  }

  lemma ConsistentAt(t: Tables, parent: Option<Meta>, nodes: seq<Node>, i: nat)
    requires Consistent(t, parent, nodes) && i < |nodes|
    ensures ConsistentNode(t, parent, nodes[i]) && Consistent(t, Some(nodes[i].meta), nodes[i].children)
  {
  }

  lemma {:induction false} ConsistentPut(t: Tables, parent: Option<Meta>, nodes: seq<Node>, i: nat, j: nat, n: Node)
    requires Consistent(t, parent, nodes) && i <= j <= |nodes|
    requires Follows(t, parent, n.meta) && Consistent(t, Some(n.meta), n.children)
    ensures Consistent(t, parent, nodes[..i] + [n] + nodes[j..])
  {
    assert ConsistentNode(t, parent, n);
    hide ConsistentNode;
  }

  lemma {:induction false} InsertedConsistent(t: Tables, parent: Option<Meta>, nodes: seq<Node>, stack: seq<Meta>,
      value: int, diff: int)
    requires Consistent(t, parent, nodes) && StackFollows(t, parent, stack)
    ensures Consistent(t, parent, Inserted(nodes, stack, value, diff))
    decreases |stack|
  {
    hide Consistent, Follows;
    if stack != [] {
      var i, rest := Search(nodes, stack[0].locationIndex), stack[1..];
      if i < |nodes| && nodes[i].meta.locationIndex == stack[0].locationIndex {
        var n := nodes[i];
        ConsistentAt(t, parent, nodes, i);
        SameNode(t, parent, n, stack[0]);
        InsertedConsistent(t, Some(stack[0]), n.children, rest, value, diff);
        ConsistentPut(t, parent, nodes, i, i + 1,
          Node(n.meta, n.cumulative + value, n.diff + diff, Inserted(n.children, rest, value, diff)));
      } else {
        NoneConsistent(t, Some(stack[0]));
        InsertedConsistent(t, Some(stack[0]), [], rest, value, diff);
        ConsistentPut(t, parent, nodes, i, i, Node(stack[0], value, diff, Inserted([], rest, value, diff)));
      }
    }
  }

  lemma NoneConsistent(t: Tables, parent: Option<Meta>)
    ensures Consistent(t, parent, [])
  {
  }

  // What insertion adds.

  function Keys(t: Tables, stack: seq<Meta>): seq<Key>
    requires NamesInRange(t)
  {
    if stack == [] then [] else [KeyOf(t, stack[0])] + Keys(t, stack[1..])
  }

  function Share(m: Measure, value: int, diff: int): int {
    match m
    case Cumulative => value
    case Diff => diff
    case Count => 1
  }

  lemma {:induction false} OnOne(t: Tables, m: Measure, n: Node, path: seq<Key>)
    requires NamesInRange(t) && path != []
    ensures On(t, m, [n], path) ==
            if KeyOf(t, n.meta) != path[0] then 0
            else if |path| == 1 then Read(n, m) else On(t, m, n.children, path[1..])
  {
    assert On(t, m, [n][1..], path) == 0;
  }

  lemma {:induction false} OnParts(t: Tables, m: Measure, a: seq<Node>, n: Node, b: seq<Node>, path: seq<Key>)
    requires NamesInRange(t) && path != []
    ensures On(t, m, a + [n] + b, path) == On(t, m, a, path) + On(t, m, [n], path) + On(t, m, b, path)
  {
    OnConcat(t, m, a + [n], b, path);
    OnConcat(t, m, a, [n], path);
  }

  lemma {:induction false} OnReplaced(t: Tables, m: Measure, nodes: seq<Node>, i: nat, n: Node, path: seq<Key>)
    requires NamesInRange(t) && path != [] && i < |nodes|
    ensures On(t, m, nodes[..i] + [n] + nodes[i + 1..], path) ==
            On(t, m, nodes, path) - On(t, m, [nodes[i]], path) + On(t, m, [n], path)
  {
    hide On;
    OnParts(t, m, nodes[..i], n, nodes[i + 1..], path);
    OnParts(t, m, nodes[..i], nodes[i], nodes[i + 1..], path);
    assert nodes == nodes[..i] + [nodes[i]] + nodes[i + 1..];
  }

  lemma {:induction false} OnAddedAt(t: Tables, m: Measure, nodes: seq<Node>, i: nat, n: Node, path: seq<Key>)
    requires NamesInRange(t) && path != [] && i <= |nodes|
    ensures On(t, m, nodes[..i] + [n] + nodes[i..], path) == On(t, m, nodes, path) + On(t, m, [n], path)
  {
    hide On;
    OnParts(t, m, nodes[..i], n, nodes[i..], path);
    OnConcat(t, m, nodes[..i], nodes[i..], path);
    assert nodes == nodes[..i] + nodes[i..];
  }

  /** A node grown by a stack that starts with its frame, and by the rest of it below. */
  lemma {:induction false} GrownNodeOn(t: Tables, m: Measure, n: Node, n': Node, stack: seq<Meta>, share: int,
      path: seq<Key>)
    requires NamesInRange(t) && path != [] && stack != [] && n.meta == n'.meta == stack[0]
    requires Read(n', m) == Read(n, m) + share
    requires |path| > 1 ==>
      On(t, m, n'.children, path[1..])
        == On(t, m, n.children, path[1..]) + (if path[1..] <= Keys(t, stack[1..]) then share else 0)
    ensures On(t, m, [n'], path) == On(t, m, [n], path) + (if path <= Keys(t, stack) then share else 0)
  {
    hide On, KeyOf, Read;
    OnOne(t, m, n, path);
    OnOne(t, m, n', path);
    PrefixStep(path, Keys(t, stack));
    assert Keys(t, stack)[1..] == Keys(t, stack[1..]);
  }

  lemma {:induction false} NewNodeOn(t: Tables, m: Measure, n: Node, stack: seq<Meta>, share: int, path: seq<Key>)
    requires NamesInRange(t) && path != [] && stack != [] && n.meta == stack[0] && Read(n, m) == share
    requires |path| > 1 ==> On(t, m, n.children, path[1..]) == if path[1..] <= Keys(t, stack[1..]) then share else 0
    ensures On(t, m, [n], path) == if path <= Keys(t, stack) then share else 0
  {
    hide On, KeyOf, Read;
    OnOne(t, m, n, path);
    PrefixStep(path, Keys(t, stack));
    assert Keys(t, stack)[1..] == Keys(t, stack[1..]);
  }

  /** A stack adds its value to exactly the paths of frames that it begins with. */
  lemma {:induction false} InsertedOn(t: Tables, parent: Option<Meta>, nodes: seq<Node>, stack: seq<Meta>, m: Measure,
      value: int, diff: int, path: seq<Key>)
    requires NamesInRange(t) && path != [] && !m.Count?
    requires Consistent(t, parent, nodes) && StackFollows(t, parent, stack)
    ensures On(t, m, Inserted(nodes, stack, value, diff), path) ==
            On(t, m, nodes, path) + (if path <= Keys(t, stack) then Share(m, value, diff) else 0)
    decreases |stack|
  {
    hide On, KeyOf, Keys, Follows;
    if stack == [] {
      NoKeys(t);
    } else {
      var i := Search(nodes, stack[0].locationIndex);
      var rest := stack[1..];
      if i < |nodes| && nodes[i].meta.locationIndex == stack[0].locationIndex {
        var n := nodes[i];
        SameNode(t, parent, n, stack[0]);
        var n' := Node(n.meta, n.cumulative + value, n.diff + diff, Inserted(n.children, rest, value, diff));
        if |path| > 1 {
          InsertedOn(t, Some(stack[0]), n.children, rest, m, value, diff, path[1..]);
        }
        GrownNodeOn(t, m, n, n', stack, Share(m, value, diff), path);
        OnReplaced(t, m, nodes, i, n', path);
      } else {
        var n' := Node(stack[0], value, diff, Inserted([], rest, value, diff));
        if |path| > 1 {
          InsertedOn(t, Some(stack[0]), [], rest, m, value, diff, path[1..]);
          OnNone(t, m, path[1..]);
        }
        NewNodeOn(t, m, n', stack, Share(m, value, diff), path);
        OnAddedAt(t, m, nodes, i, n', path);
      }
    }
  }

  lemma {:induction false} PresentParts(t: Tables, a: seq<Node>, n: Node, b: seq<Node>, path: seq<Key>)
    requires NamesInRange(t) && path != []
    ensures Present(t, a + [n] + b, path) <==>
      Present(t, a, path) || Present(t, [n], path) || Present(t, b, path)
  {
    PresentConcat(t, a + [n], b, path);
    PresentConcat(t, a, [n], path);
  }

  lemma {:induction false} GrownNodePresent(t: Tables, n: Node, n': Node, stack: seq<Meta>, path: seq<Key>)
    requires NamesInRange(t) && path != [] && stack != [] && n.meta == n'.meta == stack[0]
    requires |path| > 1 ==>
      (Present(t, n'.children, path[1..]) <==> Present(t, n.children, path[1..]) || path[1..] <= Keys(t, stack[1..]))
    ensures Present(t, [n'], path) <==> Present(t, [n], path) || path <= Keys(t, stack)
  {
    hide Present, KeyOf;
    PresentOne(t, n, path);
    PresentOne(t, n', path);
    PrefixStep(path, Keys(t, stack));
    assert Keys(t, stack)[1..] == Keys(t, stack[1..]);
  }

  lemma {:induction false} NewNodePresent(t: Tables, n: Node, stack: seq<Meta>, path: seq<Key>)
    requires NamesInRange(t) && path != [] && stack != [] && n.meta == stack[0]
    requires |path| > 1 ==> (Present(t, n.children, path[1..]) <==> path[1..] <= Keys(t, stack[1..]))
    ensures Present(t, [n], path) <==> path <= Keys(t, stack)
  {
    hide Present, KeyOf;
    PresentOne(t, n, path);
    PrefixStep(path, Keys(t, stack));
    assert Keys(t, stack)[1..] == Keys(t, stack[1..]);
  }

  /** Afterwards the tree has the paths it had and those that the stack begins with. */
  lemma {:induction false} InsertedPresent(t: Tables, parent: Option<Meta>, nodes: seq<Node>, stack: seq<Meta>,
      value: int, diff: int, path: seq<Key>)
    requires NamesInRange(t) && path != []
    requires Consistent(t, parent, nodes) && StackFollows(t, parent, stack)
    ensures Present(t, Inserted(nodes, stack, value, diff), path) <==>
      Present(t, nodes, path) || path <= Keys(t, stack)
    decreases |stack|
  {
    hide Present, KeyOf, Keys, Follows;
    if stack == [] {
      NoKeys(t);
    } else {
      var i := Search(nodes, stack[0].locationIndex);
      var rest := stack[1..];
      if i < |nodes| && nodes[i].meta.locationIndex == stack[0].locationIndex {
        var n := nodes[i];
        SameNode(t, parent, n, stack[0]);
        var n' := Node(n.meta, n.cumulative + value, n.diff + diff, Inserted(n.children, rest, value, diff));
        if |path| > 1 {
          InsertedPresent(t, Some(stack[0]), n.children, rest, value, diff, path[1..]);
        }
        GrownNodePresent(t, n, n', stack, path);
        PresentParts(t, nodes[..i], n', nodes[i + 1..], path);
        PresentParts(t, nodes[..i], n, nodes[i + 1..], path);
        assert nodes == nodes[..i] + [n] + nodes[i + 1..];
      } else {
        var n' := Node(stack[0], value, diff, Inserted([], rest, value, diff));
        if |path| > 1 {
          InsertedPresent(t, Some(stack[0]), [], rest, value, diff, path[1..]);
          NonePresent(t, path[1..]);
        }
        NewNodePresent(t, n', stack, path);
        PresentParts(t, nodes[..i], n', nodes[i..], path);
        PresentConcat(t, nodes[..i], nodes[i..], path);
        assert nodes == nodes[..i] + nodes[i..];
      }
    }
  }

  lemma NonePresent(t: Tables, path: seq<Key>)
    requires NamesInRange(t) && path != []
    ensures !Present(t, [], path)
  {
  }

  lemma NoKeys(t: Tables)
    requires NamesInRange(t)
    ensures Keys(t, []) == []
  {
  }

  lemma OnNone(t: Tables, m: Measure, path: seq<Key>)
    requires NamesInRange(t) && path != []
    ensures On(t, m, [], path) == 0
  {
  }

  lemma {:induction false} PrefixStep(p: seq<Key>, s: seq<Key>)
    requires p != [] && s != []
    ensures p <= s <==> p[0] == s[0] && p[1..] <= s[1..]
  {
    if p[0] == s[0] && p[1..] <= s[1..] {
      assert p == [p[0]] + p[1..] && s == [s[0]] + s[1..];
      assert forall k :: 1 <= k < |p| ==> p[k] == p[1..][k - 1] == s[1..][k - 1] == s[k];
    }
    if p <= s {
      assert forall k :: 0 <= k < |p| - 1 ==> p[1..][k] == p[k + 1] == s[k + 1] == s[1..][k];
    }
  }

  lemma {:induction false} CoveredReplaced(nodes: seq<Node>, i: nat, n: Node)
    requires AllCovered(nodes) && i < |nodes| && n.cumulative >= 0 && Covered(n)
    ensures AllCovered(nodes[..i] + [n] + nodes[i + 1..])
    ensures Sum(nodes[..i] + [n] + nodes[i + 1..]) == Sum(nodes) - nodes[i].cumulative + n.cumulative
  {
    hide Covered;
    SumParts(nodes[..i], n, nodes[i + 1..]);
    SumParts(nodes[..i], nodes[i], nodes[i + 1..]);
    assert nodes == nodes[..i] + [nodes[i]] + nodes[i + 1..];
  }

  lemma {:induction false} CoveredAddedAt(nodes: seq<Node>, i: nat, n: Node)
    requires AllCovered(nodes) && i <= |nodes| && n.cumulative >= 0 && Covered(n)
    ensures AllCovered(nodes[..i] + [n] + nodes[i..])
    ensures Sum(nodes[..i] + [n] + nodes[i..]) == Sum(nodes) + n.cumulative
  {
    hide Covered;
    SumParts(nodes[..i], n, nodes[i..]);
    SumConcat(nodes[..i], nodes[i..]);
    assert nodes == nodes[..i] + nodes[i..];
  }

  lemma CoveredNode(n: Node)
    requires AllCovered(n.children) && Sum(n.children) <= n.cumulative
    ensures Covered(n)
  {
  }

  lemma {:induction false} CoveredAt(nodes: seq<Node>, i: nat)
    requires AllCovered(nodes) && i < |nodes|
    ensures nodes[i].cumulative >= 0 && AllCovered(nodes[i].children) && Sum(nodes[i].children) <= nodes[i].cumulative
  {
    assert Covered(nodes[i]);
  }

  lemma NoneCovered()
    ensures AllCovered([]) && Sum([]) == 0
  {
  }

  /** A non-negative stack keeps every node at least as heavy as its children. */
  lemma {:induction false} InsertedCovered(nodes: seq<Node>, stack: seq<Meta>, value: int, diff: int)
    requires AllCovered(nodes) && value >= 0
    ensures AllCovered(Inserted(nodes, stack, value, diff))
    ensures Sum(Inserted(nodes, stack, value, diff)) == Sum(nodes) + (if stack == [] then 0 else value)
    decreases |stack|
  {
    hide Covered, AllCovered, Sum;
    if stack != [] {
      var i, rest := Search(nodes, stack[0].locationIndex), stack[1..];
      if i < |nodes| && nodes[i].meta.locationIndex == stack[0].locationIndex {
        var n := nodes[i];
        CoveredAt(nodes, i);
        InsertedCovered(n.children, rest, value, diff);
        var n' := Node(n.meta, n.cumulative + value, n.diff + diff, Inserted(n.children, rest, value, diff));
        CoveredNode(n');
        CoveredReplaced(nodes, i, n');
      } else {
        NoneCovered();
        InsertedCovered([], rest, value, diff);
        var n' := Node(stack[0], value, diff, Inserted([], rest, value, diff));
        CoveredNode(n');
        CoveredAddedAt(nodes, i, n');
      }
    }
  }

  lemma {:induction false} SumParts(a: seq<Node>, n: Node, b: seq<Node>)
    ensures Sum(a + [n] + b) == Sum(a) + n.cumulative + Sum(b)
  {
    SumConcat(a + [n], b);
    SumConcat(a, [n]);
    assert Sum([n][1..]) == 0;
  }

  // All samples.

  /** The total of the samples whose frames, outermost first, begin with the path. */
  ghost function SamplesOn(t: Tables, m: Measure, samples: seq<IndexedSample>, path: seq<Key>): int
    requires NamesInRange(t)
  {
    if samples == [] then 0
    else
      var s := samples[|samples| - 1];
      SamplesOn(t, m, samples[..|samples| - 1], path)
      + (if path <= Keys(t, StackOf(t, s.locations)) then Share(m, s.value, s.diff) else 0)
  }

  /** Some sample's frames, outermost first, begin with the path. */
  ghost predicate Begun(t: Tables, samples: seq<IndexedSample>, path: seq<Key>)
    requires NamesInRange(t)
  {
    exists i :: 0 <= i < |samples| && path <= Keys(t, StackOf(t, samples[i].locations))
  }

  lemma {:induction false} BegunStep(t: Tables, samples: seq<IndexedSample>, s: IndexedSample, path: seq<Key>)
    requires NamesInRange(t)
    ensures Begun(t, samples + [s], path) <==> Begun(t, samples, path) || path <= Keys(t, StackOf(t, s.locations))
  {
    var more := samples + [s];
    hide Keys, StackOf;
    if i :| 0 <= i < |samples| && path <= Keys(t, StackOf(t, samples[i].locations)) {
      assert more[i] == samples[i];
    }
    assert more[|samples|] == s;
    if i :| 0 <= i < |more| && path <= Keys(t, StackOf(t, more[i].locations)) {
      assert i < |samples| ==> more[i] == samples[i];
    }
  }

  ghost predicate AllNonNegative(samples: seq<IndexedSample>) {
    forall i :: 0 <= i < |samples| ==> samples[i].value >= 0
  }

  /** The tree says, for every path of frames, what the samples say. */
  ghost predicate Tells(t: Tables, nodes: seq<Node>, samples: seq<IndexedSample>)
    requires NamesInRange(t)
  {
    && (forall m: Measure, path: seq<Key> :: path != [] && !m.Count? ==>
          On(t, m, nodes, path) == SamplesOn(t, m, samples, path))
    && (forall path: seq<Key> :: path != [] ==> (Present(t, nodes, path) <==> Begun(t, samples, path)))
  }

  lemma {:induction false} TellsStep(t: Tables, nodes: seq<Node>, samples: seq<IndexedSample>, s: IndexedSample)
    requires NamesInRange(t) && Consistent(t, None, nodes) && Tells(t, nodes, samples)
    ensures
      var nodes' := Inserted(nodes, StackOf(t, s.locations), s.value, s.diff);
      Consistent(t, None, nodes') && Tells(t, nodes', samples + [s])
  {
    var stack := StackOf(t, s.locations);
    StackOfFollows(t, None, s.locations, []);
    assert stack + [] == stack;
    InsertedConsistent(t, None, nodes, stack, s.value, s.diff);
    forall m: Measure, path: seq<Key> | path != [] && !m.Count?
      ensures On(t, m, Inserted(nodes, stack, s.value, s.diff), path) == SamplesOn(t, m, samples + [s], path)
    {
      InsertedOn(t, None, nodes, stack, m, s.value, s.diff, path);
      assert (samples + [s])[..|samples|] == samples;
    }
    forall path: seq<Key> | path != []
      ensures Present(t, Inserted(nodes, stack, s.value, s.diff), path) <==> Begun(t, samples + [s], path)
    {
      InsertedPresent(t, None, nodes, stack, s.value, s.diff, path);
      BegunStep(t, samples, s, path);
    }
  }

  /** The nodes of a location still to come when the line is next; none below the first line. */
  ghost function Remaining(li: nat, line: int): seq<Meta> {
    if line < 0 then [] else NodesOf(li, line)
  }

  lemma {:induction false} RemainingStep(stack: seq<Meta>, li: nat, line: nat)
    ensures stack + Remaining(li, line) == (stack + [Meta(li, line)]) + Remaining(li, line - 1)
  {
    assert NodesOf(li, line) == [Meta(li, line)] + Remaining(li, line - 1);
  }

  /** The nodes of one location after those of the locations outside it. */
  method AppendNodes(t: Tables, before: seq<Meta>, li: nat) returns (stack: seq<Meta>)
    ensures stack == before + NodesOf(li, InlinedBelow(t, li))
  {
    stack := before;
    var j: int := InlinedBelow(t, li);
    while j >= 0
      invariant -1 <= j <= InlinedBelow(t, li)
      invariant before + NodesOf(li, InlinedBelow(t, li)) == stack + Remaining(li, j)
    {
      hide Remaining, NodesOf, InlinedBelow;
      RemainingStep(stack, li, j);
      stack := stack + [Meta(li, j)];
      j := j - 1;
    }
    assert stack + [] == stack;
  }

  /** The nodes of one sample, walking its leaf-first list from the back. */
  method StackNodes(t: Tables, locations: seq<nat>) returns (stack: seq<Meta>)
    ensures stack == StackOf(t, locations)
  {
    stack := [];
    var i := |locations| - 1;
    while i >= 0
      invariant -1 <= i < |locations| && stack == StackOf(t, locations[i + 1..])
    {
      assert locations[i..][1..] == locations[i + 1..];
      stack := AppendNodes(t, stack, locations[i]);
      i := i - 1;
    }
    assert locations[0..] == locations;
  }

  /** What holds of the tree once the samples are in it. */
  ghost predicate TreeOf(t: Tables, root: Node, samples: seq<IndexedSample>)
    requires NamesInRange(t)
  {
    && Consistent(t, None, root.children) && Tells(t, root.children, samples)
    && root.cumulative == SamplesOn(t, Cumulative, samples, []) && root.diff == SamplesOn(t, Diff, samples, [])
    && (AllNonNegative(samples) ==> AllCovered(root.children) && Sum(root.children) <= root.cumulative)
  }

  lemma {:induction false} TreeStep(t: Tables, root: Node, samples: seq<IndexedSample>, s: IndexedSample)
    requires NamesInRange(t) && TreeOf(t, root, samples)
    ensures
      var children := Inserted(root.children, StackOf(t, s.locations), s.value, s.diff);
      TreeOf(t, Node(root.meta, root.cumulative + s.value, root.diff + s.diff, children), samples + [s])
  {
    hide Tells, Consistent, AllCovered, Sum, Inserted, SamplesOn, AllNonNegative, StackOf;
    TellsStep(t, root.children, samples, s);
    SamplesOnStep(t, samples, s);
    if AllNonNegative(samples + [s]) {
      NonNegativeInit(samples, s);
      InsertedCovered(root.children, StackOf(t, s.locations), s.value, s.diff);
    }
  }

  lemma {:induction false} SamplesOnStep(t: Tables, samples: seq<IndexedSample>, s: IndexedSample)
    requires NamesInRange(t)
    ensures SamplesOn(t, Cumulative, samples + [s], []) == SamplesOn(t, Cumulative, samples, []) + s.value
    ensures SamplesOn(t, Diff, samples + [s], []) == SamplesOn(t, Diff, samples, []) + s.diff
  {
    assert (samples + [s])[..|samples|] == samples;
  }

  lemma {:induction false} NonNegativeInit(samples: seq<IndexedSample>, s: IndexedSample)
    requires AllNonNegative(samples + [s])
    ensures AllNonNegative(samples) && s.value >= 0
  {
    assert (samples + [s])[|samples|] == s;
    assert forall i :: 0 <= i < |samples| ==> (samples + [s])[i] == samples[i];
  }

  /**
   The tree of all samples: along every path of frames it has the totals of the samples that begin
   with it, and non-negative samples make it covered.
   */
  method GenerateTree(t: Tables, samples: seq<IndexedSample>) returns (root: Node)
    requires NamesInRange(t)
    ensures Tells(t, root.children, samples)
    ensures root.cumulative == SamplesOn(t, Cumulative, samples, []) && root.diff == SamplesOn(t, Diff, samples, [])
    ensures AllNonNegative(samples) ==> Covered(root)
    ensures SortedBelow(root)
  {
    root := Node(Meta(0, 0), 0, 0, []);
    EmptyTells(t);
    assert TreeOf(t, root, samples[..0]);
    for i := 0 to |samples|
      invariant TreeOf(t, root, samples[..i]) && ByLocation(root.children) && AllSortedBelow(root.children)
    {
      var s := samples[i];
      hide TreeOf, ByLocation, AllSortedBelow;
      assert samples[..i + 1] == samples[..i] + [s];
      TreeStep(t, root, samples[..i], s);
      var stack := StackNodes(t, s.locations);
      InsertedSorted(root.children, stack, s.value, s.diff);
      root := Node(root.meta, root.cumulative + s.value, root.diff + s.diff,
        Inserted(root.children, stack, s.value, s.diff));
    }
    assert samples[..|samples|] == samples;
    SortedChildren(root);
    if AllNonNegative(samples) {
      CoveredNode(root);
    }
  }

  lemma EmptyTells(t: Tables)
    requires NamesInRange(t)
    ensures Tells(t, [], []) && Consistent(t, None, [])
  {
  }

  /**
   From samples to the aggregated graph: a path of function names leads to a node exactly if the frames of
   some sample begin with these functions, and the node has the total of all such samples.
   */
  lemma {:induction false} AggregatedMeansSamples(t: Tables, sort: seq<Node> -> seq<Node>, root: Node,
      samples: seq<IndexedSample>, path: seq<Key>)
    requires NamesInRange(t) && SortsByName(t, sort) && Tells(t, root.children, samples)
    requires path != [] && AllNames(path)
    ensures FoundTells(t, Aggregate(t, sort, root).children, samples, path)
  {
    AggregateMeansTotals(t, sort, root, path);
  }

  ghost predicate FoundTells(t: Tables, children: seq<Node>, samples: seq<IndexedSample>, path: seq<Key>)
    requires NamesInRange(t) && path != []
  {
    var found := Find(t, children, path);
    && (found.Some? <==> Begun(t, samples, path))
    && (found.Some? ==>
          && found.value.cumulative == SamplesOn(t, Cumulative, samples, path)
          && found.value.diff == SamplesOn(t, Diff, samples, path))
  }

  /** The graph tells, for every path of function names, what the samples say, and by one node only. */
  ghost predicate GraphTells(t: Tables, children: seq<Node>, samples: seq<IndexedSample>)
    requires NamesInRange(t)
  {
    && UniqueBelow(t, children)
    && (forall path: seq<Key> :: path != [] && AllNames(path) ==> FoundTells(t, children, samples, path))
  }

  /** From samples to the aggregated flame graph, before trimming. */
  method GenerateFlamegraph(t: Tables, sort: seq<Node> -> seq<Node>, samples: seq<IndexedSample>, mappingOf: array<nat>)
    returns (graph: Node)
    requires NamesInRange(t) && SortsByName(t, sort) && mappingOf.Length == |t.locations|
    modifies mappingOf
    ensures GraphTells(t, graph.children, samples)
    ensures graph.cumulative == SamplesOn(t, Cumulative, samples, []) && graph.diff == SamplesOn(t, Diff, samples, [])
    ensures OnlyReset(old(mappingOf[..]), mappingOf[..])
    ensures OneMapping(old(mappingOf[..])) ==> mappingOf[..] == old(mappingOf[..])
  {
    var root := GenerateTree(t, samples);
    AggregationOnlyResets(t, sort, root, mappingOf[..]);
    graph := FlamegraphAggregation.AggregateByFunction(t, sort, root, mappingOf);
    hide Tells, FoundTells;
    forall path: seq<Key> | path != [] && AllNames(path) ensures FoundTells(t, graph.children, samples, path) {
      AggregatedMeansSamples(t, sort, root, samples, path);
    }
    MergedUnique(t, sort, root.children);
    AggregateUnique(t, sort, Merged(t, sort, root.children));
  }
}
