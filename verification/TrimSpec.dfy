/** What the two breadth-first passes of the trimmer keep true of the elements they queued. */
module TrimSpec {
  import opened FlamegraphTrie

  datatype TrimmingElement = TrimmingElement(row: int, parent: int, valueOffset: int)

  /** A tree of rows with their values: row 0 is the root and up is the row above. */
  datatype Tree = Tree(ghost up: seq<int>, lists: seq<seq<int>>, cum: seq<int>, flat: seq<int>, depth: seq<int>)

  ghost predicate WellFormed(t: Tree) {
    && 1 <= |t.up| == |t.cum| == |t.flat| == |t.depth| <= |t.lists|
    && (forall i :: 1 <= i < |t.up| ==> 0 <= t.up[i] < i && t.depth[i] == t.depth[t.up[i]] + 1)
    && (forall i :: 0 <= i < |t.lists| ==> ListedAt(t.up, t.lists, i))
    && (forall i :: 0 <= i < |t.lists| ==> InRange(t.lists[i], |t.up|))
  }

  /** Every row is its own value plus that of its children; the root owns nothing. */
  ghost predicate Conserved(t: Tree)
    requires WellFormed(t)
  {
    && t.flat[0] == 0
    && forall i :: 1 <= i < |t.up| ==> t.cum[i] == t.flat[i] + SumOf(t.lists[i], t.cum)
  }

  /** A row is kept when it and every row above it passes the threshold of its parent. */
  ghost predicate Kept(t: Tree, threshold: int -> int, r: int)
    requires WellFormed(t) && 0 <= r < |t.up|
    decreases r
  {
    r == 0 || (t.cum[r] > threshold(t.cum[t.up[r]]) && Kept(t, threshold, t.up[r]))
  }

  ghost predicate InRows(all: seq<TrimmingElement>, r: int) {
    exists i :: 0 <= i < |all| && all[i].row == r
  }

  /** The children of the p-th element: their values so far. */
  ghost function ChildSum(all: seq<TrimmingElement>, p: int, t: Tree): int {
    if |all| <= 1 then 0
    else
      var e := all[|all| - 1];
      ChildSum(all[..|all| - 1], p, t) + (if e.parent == p && 0 <= e.row < |t.cum| then t.cum[e.row] else 0)
  }

  /** The own value of the first k elements and the whole value of the others. */
  ghost function Mixed(all: seq<TrimmingElement>, k: int, t: Tree): int {
    if all == [] then 0
    else
      var r := all[|all| - 1].row;
      Mixed(all[..|all| - 1], k, t)
      + (if !(0 <= r < |t.cum| == |t.flat|) then 0 else if |all| - 1 < k then t.flat[r] else t.cum[r])
  }

  ghost predicate ParentsAscend(all: seq<TrimmingElement>) {
    forall i, j {:trigger all[i].parent, all[j].parent} :: 1 <= i < j < |all| ==> all[i].parent <= all[j].parent
  }

  ghost predicate DistinctRows(all: seq<TrimmingElement>) {
    forall i, j :: 0 <= i < j < |all| ==> all[i].row != all[j].row
  }

  lemma DistinctPush(all: seq<TrimmingElement>, e: TrimmingElement)
    requires DistinctRows(all) && !InRows(all, e.row)
    ensures DistinctRows(all + [e])
  {
  }

  /** The elements queued so far form the kept part of the tree in breadth-first order; p is the last parent. */
  ghost predicate Links(t: Tree, all: seq<TrimmingElement>, p: int) {
    && 0 <= p < |all| && all[0].row == 0 && all[0].valueOffset == 0
    && (forall i :: 0 <= i < |all| ==> 0 <= all[i].row < |t.up|)
    && (forall i {:trigger all[i].parent} :: 1 <= i < |all| ==>
          0 <= all[i].parent <= p && all[i].parent < i && all[i].row > 0
          && t.up[all[i].row] == all[all[i].parent].row)
    && ParentsAscend(all) && DistinctRows(all)
  }

  ghost predicate AllKept(t: Tree, threshold: int -> int, all: seq<TrimmingElement>) {
    && WellFormed(t)
    && forall i :: 0 <= i < |all| ==> 0 <= all[i].row < |t.up| && Kept(t, threshold, all[i].row)
  }

  /** The kept children of row r among rows are queued. */
  ghost predicate Expanded(t: Tree, threshold: int -> int, all: seq<TrimmingElement>, r: int, rows: seq<int>)
    requires 0 <= r < |t.cum|
  {
    forall a :: 0 <= a < |rows| && 0 <= rows[a] < |t.cum| && t.cum[rows[a]] > threshold(t.cum[r]) ==>
      InRows(all, rows[a])
  }

  /** Offsets continue after the elder siblings, starting at the parent's offset. */
  ghost predicate OffsetAt(t: Tree, all: seq<TrimmingElement>, i: int)
    requires 1 <= i < |all|
  {
    var p := all[i].parent;
    0 <= p < |all| && all[i].valueOffset == all[p].valueOffset + ChildSum(all[..i], p, t)
  }

  ghost predicate Offsets(t: Tree, all: seq<TrimmingElement>) {
    forall i :: 1 <= i < |all| ==> OffsetAt(t, all, i)
  }

  /** Row x stands before row y in the list. */
  ghost predicate StandsBefore(list: seq<int>, x: int, y: int) {
    exists a, b :: 0 <= a < b < |list| && list[a] == x && list[b] == y
  }

  /** Elements of one parent are queued in the order of that parent's children list. */
  ghost predicate InListOrder(t: Tree, all: seq<TrimmingElement>) {
    forall i, j {:trigger all[i].parent, all[j].parent} :: 1 <= i < j < |all| && all[i].parent == all[j].parent ==>
      var p := all[i].parent;
      && 0 <= p < |all| && 0 <= all[p].row < |t.lists|
      && StandsBefore(t.lists[all[p].row], all[i].row, all[j].row)
  }

  lemma {:induction false} ChildSumSnoc(all: seq<TrimmingElement>, e: TrimmingElement, p: int, t: Tree)
    requires |all| >= 1 && 0 <= e.row < |t.cum|
    ensures ChildSum(all + [e], p, t) == ChildSum(all, p, t) + (if e.parent == p then t.cum[e.row] else 0)
  {
    assert (all + [e])[..|all|] == all;
  }

  lemma {:induction false} MixedSnoc(all: seq<TrimmingElement>, e: TrimmingElement, k: int, t: Tree)
    requires k <= |all| && 0 <= e.row < |t.cum| == |t.flat|
    ensures Mixed(all + [e], k, t) == Mixed(all, k, t) + t.cum[e.row]
  {
    assert (all + [e])[..|all|] == all;
  }

  /** Popping the k-th element leaves its own value behind. */
  lemma {:induction false} MixedPop(all: seq<TrimmingElement>, k: int, t: Tree)
    requires 0 <= k < |all| && |t.cum| == |t.flat| && 0 <= all[k].row < |t.cum|
    ensures Mixed(all, k + 1, t) == Mixed(all, k, t) - t.cum[all[k].row] + t.flat[all[k].row]
  {
    if k < |all| - 1 {
      MixedPop(all[..|all| - 1], k, t);
    } else {
      MixedSame(all[..|all| - 1], k, t);
    }
  }

  lemma {:induction false} MixedSame(all: seq<TrimmingElement>, k: int, t: Tree)
    requires |all| <= k
    ensures Mixed(all, k, t) == Mixed(all, k + 1, t)
  {
    if all != [] {
      MixedSame(all[..|all| - 1], k, t);
    }
  }

  /** Elements below another parent do not change the sum. */
  lemma {:induction false} NoChildren(all: seq<TrimmingElement>, p: int, t: Tree)
    requires forall i :: 1 <= i < |all| ==> all[i].parent != p
    ensures ChildSum(all, p, t) == 0
  {
    if |all| > 1 {
      NoChildren(all[..|all| - 1], p, t);
    }
  }

  /** Queuing one more child of the p-th element. */
  lemma {:induction false} LinksPush(t: Tree, all: seq<TrimmingElement>, p: int, e: TrimmingElement)
    requires Links(t, all, p)
    requires 1 <= e.row < |t.up| && t.up[e.row] == all[p].row && e.parent == p && !InRows(all, e.row)
    ensures Links(t, all + [e], p)
  {
    var all' := all + [e];
    DistinctPush(all, e);
    hide InRows, DistinctRows;
    assert forall i :: 0 <= i < |all| ==> all'[i] == all[i];
  }

  lemma {:induction false} OffsetsPush(t: Tree, all: seq<TrimmingElement>, p: int, e: TrimmingElement)
    requires Offsets(t, all) && 0 <= p < |all| && e.parent == p
    requires e.valueOffset == all[p].valueOffset + ChildSum(all, p, t)
    ensures Offsets(t, all + [e])
  {
    hide ChildSum;
    var all' := all + [e];
    forall i | 1 <= i < |all'|
      ensures OffsetAt(t, all', i)
    {
      assert all'[..i] == all[..i];
      if i < |all| {
        assert OffsetAt(t, all, i);
      } else {
        assert all[..i] == all;
      }
    }
  }

  lemma {:induction false} KeptPush(t: Tree, threshold: int -> int, all: seq<TrimmingElement>, p: int,
      e: TrimmingElement)
    requires AllKept(t, threshold, all) && 0 <= p < |all|
    requires 1 <= e.row < |t.up| && t.up[e.row] == all[p].row && t.cum[e.row] > threshold(t.cum[all[p].row])
    ensures AllKept(t, threshold, all + [e])
  {
    assert Kept(t, threshold, e.row);
  }

  lemma {:induction false} ExpandedPush(t: Tree, threshold: int -> int, all: seq<TrimmingElement>, e: TrimmingElement,
      r: int, rows: seq<int>)
    requires 0 <= r < |t.cum| && Expanded(t, threshold, all, r, rows)
    ensures Expanded(t, threshold, all + [e], r, rows)
  {
    forall a | 0 <= a < |rows| && 0 <= rows[a] < |t.cum| && t.cum[rows[a]] > threshold(t.cum[r])
      ensures InRows(all + [e], rows[a])
    {
      var i :| 0 <= i < |all| && all[i].row == rows[a];
      assert (all + [e])[i].row == rows[a];
    }
  }

  ghost predicate NoDuplicates(rows: seq<int>) {
    forall a, b :: 0 <= a < b < |rows| ==> rows[a] != rows[b]
  }

  /** Distinct children of row r. */
  ghost predicate ChildrenOf(t: Tree, rows: seq<int>, r: int) {
    && NoDuplicates(rows)
    && forall a :: 0 <= a < |rows| ==> 1 <= rows[a] < |t.up| && t.up[rows[a]] == r
  }

  /** The queued children of the last parent p come from the first a rows. */
  ghost predicate QueuedFrom(all: seq<TrimmingElement>, p: int, rows: seq<int>, a: int)
    requires 0 <= a <= |rows|
  {
    forall i :: 1 <= i < |all| && all[i].parent == p ==> exists b :: 0 <= b < a && rows[b] == all[i].row
  }

  lemma {:induction false} ListedChildren(t: Tree, r: int)
    requires WellFormed(t) && 0 <= r < |t.lists|
    ensures ChildrenOf(t, t.lists[r], r)
  {
    assert ListedAt(t.up, t.lists, r);
    assert forall a :: 0 <= a < |t.lists[r]| ==> t.lists[r][a] in t.lists[r];
  }

  /** A child not reached yet is not queued. */
  lemma {:induction false} NotQueued(t: Tree, all: seq<TrimmingElement>, p: int, rows: seq<int>, a: int)
    requires Links(t, all, p) && 0 <= a < |rows|
    requires ChildrenOf(t, rows, all[p].row) && QueuedFrom(all, p, rows, a)
    ensures !InRows(all, rows[a])
  {
    forall i | 0 <= i < |all|
      ensures all[i].row != rows[a]
    {
      if i >= 1 && t.up[all[i].row] == all[p].row {
        assert all[i].parent == p;
        var b :| 0 <= b < a && rows[b] == all[i].row;
      }
    }
  }

  lemma {:induction false} QueuedPush(all: seq<TrimmingElement>, p: int, rows: seq<int>, a: int, e: TrimmingElement)
    requires 0 <= a < |rows| && QueuedFrom(all, p, rows, a) && e.row == rows[a] && |all| >= 1
    ensures QueuedFrom(all + [e], p, rows, a + 1)
  {
    var all' := all + [e];
    forall i | 1 <= i < |all'| && all'[i].parent == p
      ensures exists b :: 0 <= b < a + 1 && rows[b] == all'[i].row
    {
      if i == |all| {
        assert rows[a] == all'[i].row;
      } else {
        assert all'[i] == all[i];
        var b :| 0 <= b < a && rows[b] == all[i].row;
        assert rows[b] == all'[i].row;
      }
    }
  }

  /** The next child in the list comes after the children queued before it. */
  lemma {:induction false} InListOrderPush(t: Tree, all: seq<TrimmingElement>, p: int, a: int, e: TrimmingElement)
    requires InListOrder(t, all) && 0 <= p < |all| && 0 <= all[p].row < |t.lists|
    requires 0 <= a < |t.lists[all[p].row]| && QueuedFrom(all, p, t.lists[all[p].row], a)
    requires e.row == t.lists[all[p].row][a] && e.parent == p
    ensures InListOrder(t, all + [e])
  {
    var all', list := all + [e], t.lists[all[p].row];
    forall i, j | 1 <= i < j < |all'| && all'[i].parent == all'[j].parent
      ensures
        var q := all'[i].parent;
        && 0 <= q < |all'| && 0 <= all'[q].row < |t.lists|
        && StandsBefore(t.lists[all'[q].row], all'[i].row, all'[j].row)
    {
      assert all'[i] == all[i];
      if j < |all| {
        assert all'[j] == all[j];
        assert all[i].parent == all[j].parent;
      } else {
        var b :| 0 <= b < a && list[b] == all[i].row;
        assert list[b] == all'[i].row && list[a] == all'[j].row;
      }
    }
  }

  /** Distinct rows below n are at most n. */
  lemma {:induction false} DistinctRowsBounded(all: seq<TrimmingElement>, n: nat)
    requires forall i :: 0 <= i < |all| ==> 0 <= all[i].row < n
    requires DistinctRows(all)
    ensures |all| <= n
  {
    RowCount(all);
    var rows := set i | 0 <= i < |all| :: all[i].row;
    assert forall r :: r in rows ==> r in Below(n);
    Subset(rows, Below(n));
  }

  ghost function Below(n: nat): (s: set<int>)
    ensures |s| == n
    ensures forall x :: x in s <==> 0 <= x < n
  {
    if n == 0 then {} else Below(n - 1) + {n - 1}
  }

  lemma {:induction false} RowCount(all: seq<TrimmingElement>)
    requires DistinctRows(all)
    ensures |set i | 0 <= i < |all| :: all[i].row| == |all|
  {
    if all != [] {
      var init, last := all[..|all| - 1], all[|all| - 1].row;
      RowCount(init);
      var before := set i | 0 <= i < |init| :: init[i].row;
      assert (set i | 0 <= i < |all| :: all[i].row) == before + {last};
    }
  }

  lemma {:induction false} Subset<T>(a: set<T>, b: set<T>)
    requires a <= b
    ensures |a| <= |b|
  {
    if a != {} {
      var x :| x in a;
      Subset(a - {x}, b - {x});
    }
  }

  /** When the queue runs empty, exactly the kept rows were popped. */
  lemma {:induction false} KeptIsQueued(t: Tree, threshold: int -> int, all: seq<TrimmingElement>, r: int)
    requires WellFormed(t) && 0 <= r < |t.up| && Kept(t, threshold, r)
    requires |all| >= 1 && all[0].row == 0
    requires forall i :: 0 <= i < |all| ==> 0 <= all[i].row < |t.up|
    requires forall i :: 0 <= i < |all| ==> Expanded(t, threshold, all, all[i].row, t.lists[all[i].row])
    ensures InRows(all, r)
    decreases r
  {
    if r == 0 {
      assert all[0].row == r;
    } else {
      KeptIsQueued(t, threshold, all, t.up[r]);
      var i :| 0 <= i < |all| && all[i].row == t.up[r];
      assert Expanded(t, threshold, all, all[i].row, t.lists[all[i].row]);
      assert ListedAt(t.up, t.lists, t.up[r]);
      assert r in t.lists[t.up[r]];
    }
  }

  /** The values of the rows above the bound. */
  ghost function KeptSum(t: Tree, rows: seq<int>, bound: int): int
    requires InRange(rows, |t.cum|)
  {
    if rows == [] then 0
    else
      var v := t.cum[rows[|rows| - 1]];
      KeptSum(t, rows[..|rows| - 1], bound) + (if v > bound then v else 0)
  }

  ghost predicate NonNegative(t: Tree) {
    && (forall i :: 0 <= i < |t.cum| ==> t.cum[i] >= 0)
    && (forall i :: 0 <= i < |t.flat| ==> t.flat[i] >= 0)
  }

  /** The elements of a finished breadth-first pass. */
  ghost predicate Finished(t: Tree, threshold: int -> int, all: seq<TrimmingElement>) {
    && WellFormed(t) && Links(t, all, |all| - 1) && AllKept(t, threshold, all) && Offsets(t, all)
    && InListOrder(t, all)
    && (forall i :: 0 <= i < |all| ==> Expanded(t, threshold, all, all[i].row, t.lists[all[i].row]))
    && (forall i :: 0 <= i < |all| ==>
          ChildSum(all, i, t) == KeptSum(t, t.lists[all[i].row], threshold(t.cum[all[i].row])))
  }

  /** The width of an element: its value; the root is as wide as its kept children. */
  ghost function Width(t: Tree, all: seq<TrimmingElement>, i: int): int
    requires 0 <= i < |all| && 0 <= all[i].row < |t.cum|
  {
    if i == 0 then ChildSum(all, 0, t) else t.cum[all[i].row]
  }

  lemma {:induction false} KeptSumBounded(t: Tree, rows: seq<int>, bound: int)
    requires InRange(rows, |t.cum|) && NonNegative(t)
    ensures 0 <= KeptSum(t, rows, bound) <= SumOf(rows, t.cum)
  {
    if rows != [] {
      KeptSumBounded(t, rows[..|rows| - 1], bound);
    }
  }

  lemma {:induction false} ChildSumMonotone(all: seq<TrimmingElement>, p: int, t: Tree, i: int)
    requires NonNegative(t) && 0 <= i <= |all|
    ensures 0 <= ChildSum(all[..i], p, t) <= ChildSum(all, p, t)
    decreases |all|
  {
    if |all| <= 1 {
    } else if i == |all| {
      assert all[..i] == all;
      ChildSumMonotone(all[..|all| - 1], p, t, |all| - 1);
      assert all[..|all| - 1][..|all| - 1] == all[..|all| - 1];
    } else {
      ChildSumMonotone(all[..|all| - 1], p, t, i);
      assert all[..|all| - 1][..i] == all[..i];
    }
  }

  /** What a finished pass says about one element. */
  lemma {:induction false} Element(t: Tree, threshold: int -> int, all: seq<TrimmingElement>, i: int)
    requires Finished(t, threshold, all) && 0 <= i < |all|
    ensures 0 <= all[i].row < |t.cum| == |t.up| == |t.depth| && all[i].row < |t.lists|
    ensures InRange(t.lists[all[i].row], |t.cum|)
    ensures ChildSum(all, i, t) == KeptSum(t, t.lists[all[i].row], threshold(t.cum[all[i].row]))
    ensures i == 0 ==> all[i].row == 0 && all[i].valueOffset == 0
    ensures i >= 1 ==> OffsetAt(t, all, i) && 0 <= all[i].parent < i && all[i].row >= 1
    ensures i >= 1 ==> t.up[all[i].row] == all[all[i].parent].row
    ensures i >= 1 ==> t.depth[all[i].row] == t.depth[t.up[all[i].row]] + 1
  {
    hide Conserved, AllKept, ChildSum, KeptSum, InListOrder;
    assert all[i].parent == all[i].parent;
    assert i == 0 || OffsetAt(t, all, i);
  }

  /** Parents come in breadth-first order. */
  lemma {:induction false} ParentsOrdered(t: Tree, threshold: int -> int, all: seq<TrimmingElement>, i: int, j: int)
    requires Finished(t, threshold, all) && 1 <= i < j < |all|
    ensures all[i].parent <= all[j].parent
  {
    hide AllKept, Offsets, ChildSum, KeptSum, Expanded, WellFormed, InListOrder;
    assert Links(t, all, |all| - 1);
  }

  lemma {:induction false} ConservedAt(t: Tree, r: int)
    requires WellFormed(t) && Conserved(t) && NonNegative(t) && 1 <= r < |t.cum|
    ensures InRange(t.lists[r], |t.cum|) && SumOf(t.lists[r], t.cum) <= t.cum[r]
  {
    assert t.cum[r] == t.flat[r] + SumOf(t.lists[r], t.cum);
  }

  lemma FinishedWellFormed(t: Tree, threshold: int -> int, all: seq<TrimmingElement>)
    requires Finished(t, threshold, all)
    ensures WellFormed(t)
  {
  }

  /** An element ends where its parent's children so far end. */
  lemma {:induction false} IntervalEnd(t: Tree, all: seq<TrimmingElement>, i: int)
    requires 1 <= i < |all| && 0 <= all[i].row < |t.cum| && OffsetAt(t, all, i)
    ensures
      var p := all[i].parent;
      all[i].valueOffset + t.cum[all[i].row] == all[p].valueOffset + ChildSum(all[..i + 1], p, t)
  {
    assert all[..i + 1] == all[..i] + [all[i]];
    ChildSumSnoc(all[..i], all[i], all[i].parent, t);
  }

  /** Every interval lies inside its parent's. */
  lemma {:induction false} Nested(t: Tree, threshold: int -> int, all: seq<TrimmingElement>, i: int)
    requires Finished(t, threshold, all) && Conserved(t) && NonNegative(t) && 1 <= i < |all|
    ensures
      var p := all[i].parent;
      && 0 <= p < i
      && all[p].valueOffset <= all[i].valueOffset
      && all[i].valueOffset + Width(t, all, i) <= all[p].valueOffset + Width(t, all, p)
  {
    hide Finished, WellFormed, Conserved, Links, ChildSum, KeptSum;
    var p := all[i].parent;
    FinishedWellFormed(t, threshold, all);
    Element(t, threshold, all, i);
    Element(t, threshold, all, p);
    IntervalEnd(t, all, i);
    if p > 0 {
      ConservedAt(t, all[p].row);
    }
    ChildSumMonotone(all, p, t, i);
    ChildSumMonotone(all, p, t, i + 1);
    KeptSumBounded(t, t.lists[all[p].row], threshold(t.cum[all[p].row]));
  }

  /** Intervals at the same depth follow each other in breadth-first order without overlap. */
  lemma {:induction false} Ordered(t: Tree, threshold: int -> int, all: seq<TrimmingElement>, i: int, j: int)
    requires Finished(t, threshold, all) && Conserved(t) && NonNegative(t) && 0 <= i < j < |all|
    requires t.depth[all[i].row] == t.depth[all[j].row]
    ensures all[i].valueOffset + Width(t, all, i) <= all[j].valueOffset
    decreases j
  {
    hide Finished, WellFormed, Conserved, Links, ChildSum, KeptSum;
    FinishedWellFormed(t, threshold, all);
    Element(t, threshold, all, i);
    Element(t, threshold, all, j);
    DepthPositive(t, all[j].row);
    var pi, pj := all[i].parent, all[j].parent;
    Nested(t, threshold, all, i);
    Nested(t, threshold, all, j);
    ParentsOrdered(t, threshold, all, i, j);
    if pi < pj {
      Ordered(t, threshold, all, pi, pj);
    } else {
      IntervalEnd(t, all, i);
      ChildSumMonotone(all[..j], pi, t, i + 1);
      assert all[..j][..i + 1] == all[..i + 1];
    }
  }

  lemma {:induction false} DepthPositive(t: Tree, r: int)
    requires WellFormed(t) && 0 <= r < |t.up|
    ensures t.depth[r] >= t.depth[0] && (r > 0 ==> t.depth[r] > t.depth[0])
    decreases r
  {
    if r > 0 {
      DepthPositive(t, t.up[r]);
    }
  }

  /** Every interval lies inside the root's. */
  lemma {:induction false} InsideRoot(t: Tree, threshold: int -> int, all: seq<TrimmingElement>, i: int)
    requires Finished(t, threshold, all) && Conserved(t) && NonNegative(t) && 0 <= i < |all|
    ensures 0 <= all[i].valueOffset && all[i].valueOffset + Width(t, all, i) <= Width(t, all, 0)
    decreases i
  {
    hide Finished, WellFormed, Conserved, Links, ChildSum, KeptSum;
    Element(t, threshold, all, i);
    if i > 0 {
      Nested(t, threshold, all, i);
      InsideRoot(t, threshold, all, all[i].parent);
    }
  }

  /** Between two pops: k elements were popped and their kept children queued. */
  ghost predicate Pass(t: Tree, threshold: int -> int, all: seq<TrimmingElement>, k: int) {
    && WellFormed(t) && 0 <= k <= |all| && (k == 0 ==> |all| == 1)
    && Links(t, all, if k == 0 then 0 else k - 1) && AllKept(t, threshold, all)
    && forall i :: 0 <= i < k ==> Expanded(t, threshold, all, all[i].row, t.lists[all[i].row])
  }

  /** Element p was popped and the first a of its children rows were looked at. */
  ghost predicate Pushing(t: Tree, threshold: int -> int, all: seq<TrimmingElement>, p: int, rows: seq<int>, a: int) {
    && WellFormed(t) && Links(t, all, p) && AllKept(t, threshold, all) && 0 <= a <= |rows|
    && ChildrenOf(t, rows, all[p].row) && QueuedFrom(all, p, rows, a)
    && (forall i :: 0 <= i < p ==> Expanded(t, threshold, all, all[i].row, t.lists[all[i].row]))
    && Expanded(t, threshold, all, all[p].row, rows[..a])
  }

  lemma PassStart(t: Tree, threshold: int -> int)
    requires WellFormed(t)
    ensures Pass(t, threshold, [TrimmingElement(0, 0, 0)], 0)
  {
  }

  lemma {:induction false} PassBound(t: Tree, threshold: int -> int, all: seq<TrimmingElement>, k: int)
    requires Pass(t, threshold, all, k)
    ensures |all| <= |t.up|
    ensures k < |all| ==> 0 <= all[k].row < |t.up| && all[k].row < |t.lists|
  {
    DistinctRowsBounded(all, |t.up|);
  }

  lemma {:induction false} PassPop(t: Tree, threshold: int -> int, all: seq<TrimmingElement>, k: int, rows: seq<int>)
    requires Pass(t, threshold, all, k) && k < |all|
    requires ChildrenOf(t, rows, all[k].row)
    ensures Pushing(t, threshold, all, k, rows, 0)
  {
    assert Links(t, all, k);
  }

  lemma {:induction false} PassNext(t: Tree, threshold: int -> int, all: seq<TrimmingElement>, p: int, rows: seq<int>)
    requires Pushing(t, threshold, all, p, rows, |rows|)
    requires forall x :: x in t.lists[all[p].row] && t.cum[x] > threshold(t.cum[all[p].row]) ==> x in rows
    ensures Pass(t, threshold, all, p + 1)
  {
    assert rows[..|rows|] == rows;
    var r := all[p].row;
    var list := t.lists[r];
    forall a | 0 <= a < |list| && 0 <= list[a] < |t.cum| && t.cum[list[a]] > threshold(t.cum[r])
      ensures InRows(all, list[a])
    {
      assert list[a] in list;
      var b :| 0 <= b < |rows| && rows[b] == list[a];
    }
  }

  lemma {:induction false} PushSkip(t: Tree, threshold: int -> int, all: seq<TrimmingElement>, p: int, rows: seq<int>,
      a: int)
    requires Pushing(t, threshold, all, p, rows, a) && a < |rows|
    requires t.cum[rows[a]] <= threshold(t.cum[all[p].row])
    ensures Pushing(t, threshold, all, p, rows, a + 1)
  {
    hide Links, AllKept, WellFormed, ChildrenOf;
    assert rows[..a + 1] == rows[..a] + [rows[a]];
  }

  lemma {:induction false} PushChild(t: Tree, threshold: int -> int, all: seq<TrimmingElement>, p: int,
      rows: seq<int>, a: int, e: TrimmingElement)
    requires Pushing(t, threshold, all, p, rows, a) && a < |rows|
    requires e.row == rows[a] && e.parent == p && t.cum[rows[a]] > threshold(t.cum[all[p].row])
    ensures Pushing(t, threshold, all + [e], p, rows, a + 1)
  {
    NotQueued(t, all, p, rows, a);
    LinksPush(t, all, p, e);
    KeptPush(t, threshold, all, p, e);
    QueuedPush(all, p, rows, a, e);
    PushExpanded(t, threshold, all, p, rows, a, e);
    hide Links, AllKept, WellFormed, ChildrenOf, Expanded, QueuedFrom, InRows;
  }

  lemma {:induction false} PushExpanded(t: Tree, threshold: int -> int, all: seq<TrimmingElement>, p: int,
      rows: seq<int>, a: int, e: TrimmingElement)
    requires 0 <= a < |rows| && 0 <= p < |all| && e.row == rows[a]
    requires forall i :: 0 <= i < |all| ==> 0 <= all[i].row < |t.cum| && all[i].row < |t.lists|
    requires forall i :: 0 <= i < p ==> Expanded(t, threshold, all, all[i].row, t.lists[all[i].row])
    requires Expanded(t, threshold, all, all[p].row, rows[..a])
    ensures forall i :: 0 <= i < p ==>
      Expanded(t, threshold, all + [e], (all + [e])[i].row, t.lists[(all + [e])[i].row])
    ensures Expanded(t, threshold, all + [e], all[p].row, rows[..a + 1])
  {
    forall i | 0 <= i < p
      ensures Expanded(t, threshold, all + [e], (all + [e])[i].row, t.lists[(all + [e])[i].row])
    {
      ExpandedPush(t, threshold, all, e, all[i].row, t.lists[all[i].row]);
    }
    ExpandedPush(t, threshold, all, e, all[p].row, rows[..a]);
    assert (all + [e])[|all|].row == rows[a];
    assert rows[..a + 1] == rows[..a] + [rows[a]];
  }

  /** At the end of a pass, the queued rows are the kept rows. */
  lemma {:induction false} PassEnd(t: Tree, threshold: int -> int, all: seq<TrimmingElement>)
    requires Pass(t, threshold, all, |all|)
    ensures forall r :: 0 <= r < |t.up| ==> (InRows(all, r) <==> Kept(t, threshold, r))
  {
    forall r | 0 <= r < |t.up|
      ensures InRows(all, r) <==> Kept(t, threshold, r)
    {
      if Kept(t, threshold, r) {
        KeptIsQueued(t, threshold, all, r);
      }
    }
  }

  /** The children of the first k elements add up to their kept children. */
  ghost predicate Sums(t: Tree, threshold: int -> int, all: seq<TrimmingElement>, k: int) {
    && WellFormed(t) && k <= |all| && (forall i :: 0 <= i < |all| ==> 0 <= all[i].row < |t.up|)
    && forall i :: 0 <= i < k ==>
         ChildSum(all, i, t) == KeptSum(t, t.lists[all[i].row], threshold(t.cum[all[i].row]))
  }

  /** What the emitting pass keeps while it looks at the children of element p. */
  ghost predicate Laying(t: Tree, threshold: int -> int, all: seq<TrimmingElement>, p: int, rows: seq<int>, a: int) {
    && Offsets(t, all) && Sums(t, threshold, all, p)
    && 0 <= p < |all| && 0 <= a <= |rows| && InRange(rows, |t.cum|)
    && ChildSum(all, p, t) == KeptSum(t, rows[..a], threshold(t.cum[all[p].row]))
  }

  lemma {:induction false} LayingStart(t: Tree, threshold: int -> int, all: seq<TrimmingElement>, k: int,
      rows: seq<int>)
    requires Pass(t, threshold, all, k) && Offsets(t, all) && Sums(t, threshold, all, k) && k < |all|
    requires InRange(rows, |t.cum|)
    ensures Laying(t, threshold, all, k, rows, 0) && ChildSum(all, k, t) == 0
  {
    hide Offsets, Sums, ChildSum, AllKept;
    assert forall i :: 1 <= i < |all| ==> all[i].parent != k;
    NoChildren(all, k, t);
    SumsRange(t, threshold, all, k);
  }

  lemma SumsRange(t: Tree, threshold: int -> int, all: seq<TrimmingElement>, k: int)
    requires Sums(t, threshold, all, k) && 0 <= k < |all|
    ensures 0 <= all[k].row < |t.cum|
  {
  }

  lemma {:induction false} LayingSkip(t: Tree, threshold: int -> int, all: seq<TrimmingElement>, p: int,
      rows: seq<int>, a: int)
    requires Laying(t, threshold, all, p, rows, a) && a < |rows|
    requires t.cum[rows[a]] <= threshold(t.cum[all[p].row])
    ensures Laying(t, threshold, all, p, rows, a + 1)
  {
    hide Offsets, Sums, ChildSum;
    SumsRange(t, threshold, all, p);
    assert rows[..a + 1][..a] == rows[..a];
  }

  lemma {:induction false} LayingPush(t: Tree, threshold: int -> int, all: seq<TrimmingElement>, p: int,
      rows: seq<int>, a: int, e: TrimmingElement)
    requires Laying(t, threshold, all, p, rows, a) && a < |rows|
    requires t.cum[rows[a]] > threshold(t.cum[all[p].row])
    requires e.row == rows[a] && e.parent == p && e.valueOffset == all[p].valueOffset + ChildSum(all, p, t)
    requires 0 <= e.row < |t.up|
    ensures Laying(t, threshold, all + [e], p, rows, a + 1)
    ensures ChildSum(all + [e], p, t) == ChildSum(all, p, t) + t.cum[rows[a]]
  {
    OffsetsPush(t, all, p, e);
    SumsPush(t, threshold, all, p, e);
    SumsRange(t, threshold, all, p);
    ChildSumSnoc(all, e, p, t);
    hide Offsets, Sums, ChildSum;
    assert rows[..a + 1][..a] == rows[..a];
  }

  lemma {:induction false} SumsPush(t: Tree, threshold: int -> int, all: seq<TrimmingElement>, p: int,
      e: TrimmingElement)
    requires Sums(t, threshold, all, p) && 0 <= p < |all| && e.parent == p && 0 <= e.row < |t.up|
    ensures Sums(t, threshold, all + [e], p)
  {
    hide ChildSum, KeptSum;
    forall i | 0 <= i < p
      ensures ChildSum(all + [e], i, t) == KeptSum(t, t.lists[all[i].row], threshold(t.cum[all[i].row]))
    {
      ChildSumSnoc(all, e, i, t);
    }
  }

  lemma {:induction false} LayingEnd(t: Tree, threshold: int -> int, all: seq<TrimmingElement>, p: int, rows: seq<int>)
    requires Laying(t, threshold, all, p, rows, |rows|)
    requires all[p].row < |t.lists| && rows == t.lists[all[p].row]
    ensures Offsets(t, all) && Sums(t, threshold, all, p + 1)
  {
    hide Offsets, ChildSum, KeptSum;
    assert rows[..|rows|] == rows;
  }

  lemma {:induction false} PassFinished(t: Tree, threshold: int -> int, all: seq<TrimmingElement>)
    requires Pass(t, threshold, all, |all|) && Offsets(t, all) && Sums(t, threshold, all, |all|)
    requires InListOrder(t, all)
    ensures Finished(t, threshold, all)
  {
    hide Offsets, ChildSum, KeptSum, AllKept, Expanded, InListOrder;
  }
}
