/** The two passes of the trimmer. */
module FlamegraphTrim {
  import opened Options
  import opened Columns
  import opened FlamegraphTrie
  import opened TrimSpec

  datatype Largest = Largest(line: int, startLine: int, cum: int, flat: int, depth: int)

  /** The rows with their line columns. */
  datatype Rows = Rows(tree: Tree, line: seq<Cell>, startLine: seq<Cell>)

  ghost predicate WellFormedRows(rows: Rows) {
    WellFormed(rows.tree) && |rows.line| == |rows.startLine| == |rows.tree.up|
  }

  /** The largest values cover row r. */
  ghost predicate CoversRow(rows: Rows, m: Largest, r: int) {
    WellFormedRows(rows) && 0 <= r < |rows.tree.up| ==>
      && ToUint64(rows.line[r].data) <= m.line
      && ToUint64(rows.startLine[r].data) <= m.startLine
      && ToUint64(rows.tree.cum[r]) <= m.cum
      && ToUint64(rows.tree.flat[r]) <= m.flat
      && ToUint64(rows.tree.depth[r]) <= m.depth
  }

  function Include(rows: Rows, m: Largest, r: int): Largest
    requires WellFormedRows(rows) && 0 <= r < |rows.tree.up|
  {
    Largest(Max(m.line, ToUint64(rows.line[r].data)), Max(m.startLine, ToUint64(rows.startLine[r].data)),
            Max(m.cum, ToUint64(rows.tree.cum[r])), Max(m.flat, ToUint64(rows.tree.flat[r])),
            Max(m.depth, ToUint64(rows.tree.depth[r])))
  }

  ghost predicate SortedByValue(rows: seq<int>, column: seq<int>)
    requires InRange(rows, |column|)
  {
    forall a, b :: 0 <= a < b < |rows| ==> column[rows[a]] <= column[rows[b]]
  }

  function Insert(r: int, rows: seq<int>, column: seq<int>): (s: seq<int>)
    requires 0 <= r < |column| && InRange(rows, |column|)
    ensures multiset(s) == multiset(rows) + multiset{r}
    ensures InRange(s, |column|)
  {
    if rows == [] || column[r] < column[rows[0]] then
      InsertFront(r, rows);
      [r] + rows
    else
      assert rows == [rows[0]] + rows[1..];
      [rows[0]] + Insert(r, rows[1..], column)
  }

  lemma InsertFront(r: int, rows: seq<int>)
    ensures multiset([r] + rows) == multiset(rows) + multiset{r}
  {
  }

  lemma {:induction false} InsertSorted(r: int, rows: seq<int>, column: seq<int>)
    requires 0 <= r < |column| && InRange(rows, |column|) && SortedByValue(rows, column)
    ensures SortedByValue(Insert(r, rows, column), column)
    ensures forall a :: 0 <= a < |Insert(r, rows, column)| ==>
      Insert(r, rows, column)[a] == r || Insert(r, rows, column)[a] in rows
  {
    if rows != [] && column[r] >= column[rows[0]] {
      InsertSorted(r, rows[1..], column);
      var tail := Insert(r, rows[1..], column);
      forall a | 0 <= a < |tail|
        ensures column[rows[0]] <= column[tail[a]]
      {
        if tail[a] != r {
          var b :| 0 <= b < |rows[1..]| && rows[1..][b] == tail[a];
          assert rows[b + 1] == tail[a];
        }
      }
    }
  }

  /** The library sort: the rows in ascending order of their value. */
  method SortByValue(rows: seq<int>, column: seq<int>) returns (sorted: seq<int>)
    requires InRange(rows, |column|)
    ensures multiset(sorted) == multiset(rows)
    ensures InRange(sorted, |column|) && SortedByValue(sorted, column)
  {
    sorted := [];
    for n := 0 to |rows|
      invariant multiset(sorted) == multiset(rows[..n])
      invariant InRange(sorted, |column|) && SortedByValue(sorted, column)
    {
      InsertSorted(rows[n], sorted, column);
      assert rows[..n + 1] == rows[..n] + [rows[n]];
      sorted := Insert(rows[n], sorted, column);
    }
    assert rows[..|rows|] == rows;
  }

  lemma {:induction false} NoDuplicatesCount(rows: seq<int>)
    ensures NoDuplicates(rows) <==> forall x :: multiset(rows)[x] <= 1
  {
    if rows != [] {
      var init, last := rows[..|rows| - 1], rows[|rows| - 1];
      assert rows == init + [last];
      NoDuplicatesCount(init);
      if NoDuplicates(rows) {
        assert last !in init;
        assert forall x :: multiset(rows)[x] == multiset(init)[x] + if x == last then 1 else 0;
      } else if NoDuplicates(init) {
        var a :| 0 <= a < |init| && init[a] == last;
        assert last in multiset(init);
        assert multiset(rows)[last] >= 2;
      } else {
        var x :| multiset(init)[x] > 1;
        assert multiset(rows)[x] > 1;
      }
    }
  }

  /** A permutation of distinct children holds the same distinct children. */
  lemma {:induction false} SortedChildren(t: Tree, rows: seq<int>, sorted: seq<int>, r: int)
    requires ChildrenOf(t, rows, r) && multiset(rows) == multiset(sorted)
    ensures ChildrenOf(t, sorted, r)
    ensures forall x :: x in sorted <==> x in rows
  {
    NoDuplicatesCount(rows);
    NoDuplicatesCount(sorted);
    forall x
      ensures x in sorted <==> x in rows
    {
      assert x in sorted <==> x in multiset(sorted);
    }
    forall a | 0 <= a < |sorted|
      ensures 1 <= sorted[a] < |t.up| && t.up[sorted[a]] == r
    {
      assert sorted[a] in rows;
    }
  }

  /** The children of row r whose value passes the bound, in list order. */
  method PassingChildren(t: Tree, r: int, bound: int) returns (passing: seq<int>)
    requires WellFormed(t) && 0 <= r < |t.up|
    ensures ChildrenOf(t, passing, r)
    ensures forall x :: x in passing <==> x in t.lists[r] && t.cum[x] > bound
  {
    ListedChildren(t, r);
    hide WellFormed;
    passing := [];
    var rows := t.lists[r];
    for a := 0 to |rows|
      invariant ChildrenOf(t, passing, r)
      invariant forall x :: x in passing <==> x in rows[..a] && t.cum[x] > bound
    {
      assert rows[..a + 1] == rows[..a] + [rows[a]];
      assert rows[a] !in rows[..a];
      if t.cum[rows[a]] > bound {
        passing := passing + [rows[a]];
      }
    }
    assert rows[..|rows|] == rows;
  }

  /** The threshold as the measuring pass takes it: of the unsigned conversion of a value. */
  function Unsigned(threshold: int -> int): int -> int {
    x => threshold(ToUint64(x))
  }

  /** The largest value is that of one of the first k elements, or zero. */
  ghost predicate Reached(values: seq<int>, all: seq<TrimmingElement>, k: int, largest: int) {
    largest == 0 || exists i :: 0 <= i < k && IsAt(values, all, i, largest)
  }

  ghost predicate IsAt(values: seq<int>, all: seq<TrimmingElement>, i: int, largest: int) {
    0 <= i < |all| && 0 <= all[i].row < |values| && ToUint64(values[all[i].row]) == largest
  }

  ghost function DataOf(cells: seq<Cell>): (r: seq<int>)
    ensures |r| == |cells| && forall i :: 0 <= i < |cells| ==> r[i] == cells[i].data
  {
    seq(|cells|, i requires 0 <= i < |cells| => cells[i].data)
  }

  ghost predicate AllReached(rows: Rows, all: seq<TrimmingElement>, k: int, m: Largest) {
    && Reached(DataOf(rows.line), all, k, m.line) && Reached(DataOf(rows.startLine), all, k, m.startLine)
    && Reached(rows.tree.cum, all, k, m.cum) && Reached(rows.tree.flat, all, k, m.flat)
    && Reached(rows.tree.depth, all, k, m.depth)
  }

  lemma {:induction false} ReachedMore(values: seq<int>, all: seq<TrimmingElement>, all': seq<TrimmingElement>, k: int,
      largest: int)
    requires Reached(values, all, k, largest) && 0 <= k < |all| && 0 <= all[k].row < |values|
    requires k < |all'| && all'[..k + 1] == all[..k + 1]
    ensures Reached(values, all', k + 1, Max(largest, ToUint64(values[all[k].row])))
  {
    hide ToUint64;
    assert all'[..k + 1][k] == all'[k] && all[..k + 1][k] == all[k];
    assert IsAt(values, all', k, ToUint64(values[all[k].row]));
    if i :| 0 <= i < k && IsAt(values, all, i, largest) {
      assert all'[..k + 1][i] == all'[i] && all[..k + 1][i] == all[i];
      assert IsAt(values, all', i, largest);
    }
  }

  lemma {:induction false} AllReachedMore(rows: Rows, all: seq<TrimmingElement>, all': seq<TrimmingElement>, k: int,
      m: Largest)
    requires WellFormedRows(rows) && AllReached(rows, all, k, m)
    requires 0 <= k < |all| && 0 <= all[k].row < |rows.tree.up| && k < |all'| && all'[..k + 1] == all[..k + 1]
    ensures AllReached(rows, all', k + 1, Include(rows, m, all[k].row))
  {
    ReachedMore(DataOf(rows.line), all, all', k, m.line);
    ReachedMore(DataOf(rows.startLine), all, all', k, m.startLine);
    ReachedMore(rows.tree.cum, all, all', k, m.cum);
    ReachedMore(rows.tree.flat, all, all', k, m.flat);
    ReachedMore(rows.tree.depth, all, all', k, m.depth);
    hide Reached, ToUint64, WellFormed, Max;
  }

  /**
   The measuring pass: the largest values over the rows kept by the threshold of the unsigned values,
   children visited by ascending value.
   */
  method Measure(rows: Rows, signed: int -> int) returns (m: Largest, ghost all: seq<TrimmingElement>)
    requires WellFormedRows(rows)
    ensures forall r :: 0 <= r < |rows.tree.up| ==> (InRows(all, r) <==> Kept(rows.tree, Unsigned(signed), r))
    ensures forall r :: InRows(all, r) ==> CoversRow(rows, m, r)
    ensures AllReached(rows, all, |all|, m)
  {
    var threshold := Unsigned(signed);
    hide Unsigned;
    NothingReached(rows, [TrimmingElement(0, 0, 0)]);
    hide ToUint64, WellFormed, Pass, CoversRow, Include, InRows, Kept, AllReached;
    var t := rows.tree;
    var trimmingQueue := [TrimmingElement(0, 0, 0)];
    all := trimmingQueue;
    var row := -1;
    m := Largest(0, 0, 0, 0, 0);
    PassStart(t, threshold);
    while |trimmingQueue| > 0
      invariant 0 <= row + 1 <= |all| && trimmingQueue == all[row + 1..] && Pass(t, threshold, all, row + 1)
      invariant forall i :: 0 <= i <= row ==> CoversRow(rows, m, all[i].row)
      invariant AllReached(rows, all, row + 1, m)
      decreases |t.up| - row
    {
      PassBound(t, threshold, all, row + 1);
      var te := trimmingQueue[0];
      trimmingQueue := trimmingQueue[1..];
      row := row + 1;
      CoversMore(rows, m, te.row, all, row);
      ghost var all0, before := all, m;
      m := Include(rows, m, te.row);
      all, trimmingQueue := Enqueue(t, threshold, all, row, trimmingQueue, te.row);
      AllReachedMore(rows, all0, all, row, before);
    }
    PassEnd(t, threshold, all);
    CoversQueued(rows, m, all);
  }

  lemma NothingReached(rows: Rows, all: seq<TrimmingElement>)
    ensures AllReached(rows, all, 0, Largest(0, 0, 0, 0, 0))
  {
  }

  lemma CoversQueued(rows: Rows, m: Largest, all: seq<TrimmingElement>)
    requires forall i :: 0 <= i < |all| ==> CoversRow(rows, m, all[i].row)
    ensures forall r :: InRows(all, r) ==> CoversRow(rows, m, r)
  {
  }

  lemma {:induction false} CoversMore(rows: Rows, m: Largest, r: int, all: seq<TrimmingElement>, k: int)
    requires WellFormedRows(rows) && 0 <= r < |rows.tree.up| && 0 <= k <= |all|
    requires forall i :: 0 <= i < k ==> CoversRow(rows, m, all[i].row)
    ensures forall i :: 0 <= i < k ==> CoversRow(rows, Include(rows, m, r), all[i].row)
    ensures CoversRow(rows, Include(rows, m, r), r)
  {
    hide WellFormed, ToUint64;
  }

  /** Queues the passing children of the row just popped, sorted by value. */
  method Enqueue(t: Tree, threshold: int -> int, ghost all0: seq<TrimmingElement>, p: int,
                 queue0: seq<TrimmingElement>, r: int)
    returns (ghost all: seq<TrimmingElement>, queue: seq<TrimmingElement>)
    requires WellFormed(t) && Pass(t, threshold, all0, p) && p < |all0| && queue0 == all0[p + 1..]
    requires r == all0[p].row && 0 <= r < |t.up|
    ensures Pass(t, threshold, all, p + 1)
    ensures |all| > p && queue == all[p + 1..] && all[..p + 1] == all0[..p + 1]
  {
    var children := PassingChildren(t, r, threshold(t.cum[r]));
    var sorted := SortByValue(children, t.cum);
    SortedChildren(t, children, sorted, r);
    PassPop(t, threshold, all0, p, sorted);
    all, queue := all0, queue0;
    hide WellFormed, Pass, Pushing;
    for a := 0 to |sorted|
      invariant |all| > p && all[..p + 1] == all0[..p + 1] && queue == all[p + 1..]
      invariant all[p].row == r
      invariant Pushing(t, threshold, all, p, sorted, a)
    {
      assert sorted[a] in sorted;
      var e := TrimmingElement(sorted[a], p, 0);
      PushChild(t, threshold, all, p, sorted, a, e);
      all, queue := all + [e], queue + [e];
    }
    PassNext(t, threshold, all, p, sorted);
  }

  /** The trimmed columns, stored in the types chosen for them, and the children lists. */
  datatype Trimmed = Trimmed(
    line: seq<Option<int>>, startLine: seq<Option<int>>, cumulative: seq<int>, flat: seq<int>, depth: seq<int>,
    parent: seq<int>, valueOffset: seq<int>, children: seq<seq<int>>)

  ghost predicate EmittedAt(rows: Rows, m: Largest, out: Trimmed, all: seq<TrimmingElement>, i: int)
    requires WellFormedRows(rows) && 0 <= i < |all| && 0 <= all[i].row < |rows.tree.up|
    requires i < |out.line| == |out.startLine| == |out.cumulative| == |out.flat|
    requires |out.flat| == |out.depth| == |out.parent| == |out.valueOffset|
  {
    var r := all[i].row;
    && out.line[i] == StoreCell(SmallestUnsignedTypeFor(m.line), rows.line[r])
    && out.startLine[i] == StoreCell(SmallestUnsignedTypeFor(m.startLine), rows.startLine[r])
    && out.cumulative[i] == rows.tree.cum[r]
    && out.flat[i] == Store(SmallestUnsignedTypeFor(m.flat), rows.tree.flat[r])
    && out.depth[i] == Store(SmallestUnsignedTypeFor(m.depth), rows.tree.depth[r])
    && out.parent[i] == (if i == 0 then -1 else all[i].parent)
    && out.valueOffset[i] == Store(SmallestUnsignedTypeFor(m.cum), all[i].valueOffset)
  }

  /** The first k elements were written. */
  ghost predicate Emitted(rows: Rows, m: Largest, out: Trimmed, all: seq<TrimmingElement>, k: int) {
    && WellFormedRows(rows) && 0 <= k <= |all|
    && k == |out.line| == |out.startLine| == |out.cumulative| == |out.flat|
    && k == |out.depth| == |out.parent| == |out.valueOffset|
    && (forall i :: 0 <= i < k ==> 0 <= all[i].row < |rows.tree.up| && EmittedAt(rows, m, out, all, i))
    && |out.children| == |rows.tree.lists|
    && forall i :: 0 <= i < |out.children| ==> ListedAt(out.parent, out.children, i)
  }

  /** Appends one row to every column and to its parent's list. */
  function AppendTrimmed(rows: Rows, m: Largest, out: Trimmed, te: TrimmingElement): Trimmed
    requires WellFormedRows(rows) && 0 <= te.row < |rows.tree.up|
    requires |out.cumulative| > 0 ==> 0 <= te.parent < |out.children|
  {
    var row := |out.cumulative|;
    Trimmed(
      out.line + [StoreCell(SmallestUnsignedTypeFor(m.line), rows.line[te.row])],
      out.startLine + [StoreCell(SmallestUnsignedTypeFor(m.startLine), rows.startLine[te.row])],
      out.cumulative + [rows.tree.cum[te.row]],
      out.flat + [Store(SmallestUnsignedTypeFor(m.flat), rows.tree.flat[te.row])],
      out.depth + [Store(SmallestUnsignedTypeFor(m.depth), rows.tree.depth[te.row])],
      out.parent + [if row == 0 then -1 else te.parent],
      out.valueOffset + [Store(SmallestUnsignedTypeFor(m.cum), te.valueOffset)],
      if row == 0 then out.children else out.children[te.parent := out.children[te.parent] + [row]])
  }

  lemma {:induction false} AppendEmitted(rows: Rows, m: Largest, out: Trimmed, all: seq<TrimmingElement>, k: int)
    requires Emitted(rows, m, out, all, k) && k < |all| && 0 <= all[k].row < |rows.tree.up|
    requires k > 0 ==> 0 <= all[k].parent < |out.children|
    ensures Emitted(rows, m, AppendTrimmed(rows, m, out, all[k]), all, k + 1)
  {
    hide WellFormed, Store, StoreCell, SmallestUnsignedTypeFor;
    var out' := AppendTrimmed(rows, m, out, all[k]);
    if k > 0 {
      ListedAppend(out.parent, out.children, all[k].parent);
    } else {
      forall i | 0 <= i < |out.children|
        ensures ListedAt(out'.parent, out'.children, i)
      {
        assert ListedAt(out.parent, out.children, i);
      }
    }
    forall i | 0 <= i < k + 1
      ensures 0 <= all[i].row < |rows.tree.up| && EmittedAt(rows, m, out', all, i)
    {
      if i < k {
        assert EmittedAt(rows, m, out, all, i);
      }
    }
  }

  lemma {:induction false} EmittedPrefix(rows: Rows, m: Largest, out: Trimmed, all: seq<TrimmingElement>,
      all': seq<TrimmingElement>, k: int)
    requires Emitted(rows, m, out, all, k) && |all'| >= k && all'[..k] == all[..k]
    ensures Emitted(rows, m, out, all', k)
  {
    hide WellFormed, Store, StoreCell, SmallestUnsignedTypeFor;
    forall i | 0 <= i < k
      ensures 0 <= all'[i].row < |rows.tree.up| && EmittedAt(rows, m, out, all', i)
    {
      assert all'[..k][i] == all[..k][i];
      assert EmittedAt(rows, m, out, all, i);
    }
  }

  /** The emitting pass popped all0[p] and looked at the first a of its children. */
  ghost predicate Laid(t: Tree, threshold: int -> int, all0: seq<TrimmingElement>, all: seq<TrimmingElement>, p: int,
                       rows: seq<int>, a: int, valueOffset: int, trimmed: int)
  {
    && Pushing(t, threshold, all, p, rows, a) && Laying(t, threshold, all, p, rows, a)
    && InListOrder(t, all) && 0 <= all[p].row < |t.lists| && rows == t.lists[all[p].row]
    && 0 <= p < |all0| && p < |all| && all[..p + 1] == all0[..p + 1]
    && 0 <= all0[p].row < |t.up| && |t.up| == |t.cum| == |t.flat|
    && valueOffset == all[p].valueOffset + ChildSum(all, p, t)
    && Mixed(all, p + 1, t) + trimmed == Mixed(all0, p + 1, t) + SumOf(rows[..a], t.cum)
  }

  lemma {:induction false} LaidStart(t: Tree, threshold: int -> int, all: seq<TrimmingElement>, p: int)
    requires Pass(t, threshold, all, p) && Offsets(t, all) && Sums(t, threshold, all, p) && InListOrder(t, all)
    requires p < |all| && 0 <= all[p].row < |t.up|
    ensures Laid(t, threshold, all, all, p, t.lists[all[p].row], 0, all[p].valueOffset, 0)
    ensures InRange(t.lists[all[p].row], |t.cum|)
  {
    var rows := t.lists[all[p].row];
    ListedChildren(t, all[p].row);
    PassPop(t, threshold, all, p, rows);
    LayingStart(t, threshold, all, p, rows);
    hide Pass, Pushing, Laying, Offsets, Sums, Mixed, InListOrder;
  }

  lemma PushingQueued(t: Tree, threshold: int -> int, all: seq<TrimmingElement>, p: int, rows: seq<int>, a: int)
    requires Pushing(t, threshold, all, p, rows, a)
    ensures 0 <= a <= |rows| && QueuedFrom(all, p, rows, a)
  {
  }

  lemma {:induction false} LaidStep(t: Tree, threshold: int -> int, all0: seq<TrimmingElement>,
      all: seq<TrimmingElement>, p: int,
                 rows: seq<int>, a: int, valueOffset: int, trimmed: int)
    requires Laid(t, threshold, all0, all, p, rows, a, valueOffset, trimmed) && 0 <= a < |rows|
    requires 0 <= rows[a] < |t.cum| && 0 <= all[p].row < |t.cum|
    ensures
      var v, e := t.cum[rows[a]], TrimmingElement(rows[a], p, valueOffset);
      if v > threshold(t.cum[all[p].row]) then
        Laid(t, threshold, all0, all + [e], p, rows, a + 1, valueOffset + v, trimmed)
      else
        Laid(t, threshold, all0, all, p, rows, a + 1, valueOffset, trimmed + v)
  {
    hide Pushing, Laying, ChildSum, Mixed, InListOrder;
    assert rows[..a + 1][..a] == rows[..a];
    var v, e := t.cum[rows[a]], TrimmingElement(rows[a], p, valueOffset);
    if v > threshold(t.cum[all[p].row]) {
      PushingQueued(t, threshold, all, p, rows, a);
      InListOrderPush(t, all, p, a, e);
      PushChild(t, threshold, all, p, rows, a, e);
      LayingPush(t, threshold, all, p, rows, a, e);
      MixedSnoc(all, e, p + 1, t);
      assert (all + [e])[..p + 1] == all[..p + 1];
    } else {
      PushSkip(t, threshold, all, p, rows, a);
      LayingSkip(t, threshold, all, p, rows, a);
    }
  }

  lemma {:induction false} LaidEnd(t: Tree, threshold: int -> int, all0: seq<TrimmingElement>,
      all: seq<TrimmingElement>, p: int,
                rows: seq<int>, valueOffset: int, trimmed: int)
    requires Laid(t, threshold, all0, all, p, rows, |rows|, valueOffset, trimmed)
    requires all[p].row < |t.lists| && rows == t.lists[all[p].row]
    ensures Pass(t, threshold, all, p + 1) && Offsets(t, all) && Sums(t, threshold, all, p + 1)
    ensures InListOrder(t, all)
    ensures Mixed(all, p + 1, t) + trimmed == Mixed(all0, p + 1, t) + SumOf(rows, t.cum)
  {
    assert rows[..|rows|] == rows;
    PassNext(t, threshold, all, p, rows);
    LayingEnd(t, threshold, all, p, rows);
    hide Pushing, Laying, ChildSum, Mixed, Pass, InListOrder;
  }

  /** Queues the passing children of the row just popped in list order, side by side, and totals the others. */
  method Lay(t: Tree, threshold: int -> int, ghost all0: seq<TrimmingElement>, p: int,
             queue0: seq<TrimmingElement>, te: TrimmingElement)
    returns (ghost all: seq<TrimmingElement>, queue: seq<TrimmingElement>, trimmed: int)
    requires WellFormed(t) && Pass(t, threshold, all0, p) && Offsets(t, all0) && Sums(t, threshold, all0, p)
    requires InListOrder(t, all0)
    requires 0 <= p < |all0| && queue0 == all0[p + 1..]
    requires te == all0[p] && 0 <= te.row < |t.up| == |t.cum| && te.row < |t.lists|
    ensures InRange(t.lists[te.row], |t.cum|)
    ensures Pass(t, threshold, all, p + 1) && Offsets(t, all) && Sums(t, threshold, all, p + 1)
    ensures InListOrder(t, all)
    ensures |all| > p && queue == all[p + 1..] && all[..p + 1] == all0[..p + 1]
    ensures Mixed(all, p + 1, t) + trimmed == Mixed(all0, p + 1, t) + SumOf(t.lists[te.row], t.cum)
  {
    hide Laid, WellFormed, Pass, Offsets, Sums, ChildSum, Mixed, InListOrder;
    var cumThreshold := threshold(t.cum[te.row]);
    var rows := t.lists[te.row];
    LaidStart(t, threshold, all0, p);
    all, queue, trimmed := all0, queue0, 0;
    var valueOffset := te.valueOffset;
    for a := 0 to |rows|
      invariant p < |all| && queue == all[p + 1..] && all[p] == te && all[..p + 1] == all0[..p + 1]
      invariant Laid(t, threshold, all0, all, p, rows, a, valueOffset, trimmed)
    {
      LaidStep(t, threshold, all0, all, p, rows, a, valueOffset, trimmed);
      var v := t.cum[rows[a]];
      if v > cumThreshold {
        var e := TrimmingElement(rows[a], p, valueOffset);
        all, queue := all + [e], queue + [e];
        valueOffset := valueOffset + v;
      } else {
        trimmed := trimmed + v;
      }
    }
    LaidEnd(t, threshold, all0, all, p, rows, valueOffset, trimmed);
  }

  /** The own values of the kept rows. */
  ghost function KeptFlat(t: Tree, all: seq<TrimmingElement>): int {
    if all == [] then 0
    else
      var r := all[|all| - 1].row;
      KeptFlat(t, all[..|all| - 1]) + (if 0 <= r < |t.cum| == |t.flat| then t.flat[r] else 0)
  }

  lemma {:induction false} MixedIsFlat(t: Tree, all: seq<TrimmingElement>, k: int)
    requires |all| <= k
    ensures Mixed(all, k, t) == KeptFlat(t, all)
  {
    if all != [] {
      MixedIsFlat(t, all[..|all| - 1], k);
    }
  }

  /** The weight conserved by the emitting pass after k pops. */
  ghost predicate Weighed(t: Tree, all: seq<TrimmingElement>, k: int, trimmed: int)
    requires WellFormed(t)
  {
    if k == 0 then |all| == 1 && all[0].row == 0 && trimmed == 0
    else Conserved(t) ==> Mixed(all, k, t) + trimmed == SumOf(t.lists[0], t.cum)
  }

  lemma {:induction false} WeighedStep(t: Tree, all: seq<TrimmingElement>, all': seq<TrimmingElement>, k: int,
      trimmed: int, more: int)
    requires WellFormed(t) && 0 <= k < |all| && Weighed(t, all, k, trimmed) && 0 <= all[k].row < |t.up|
    requires k > 0 ==> all[k].row > 0
    requires Mixed(all', k + 1, t) + more == Mixed(all, k + 1, t) + SumOf(t.lists[all[k].row], t.cum)
    ensures Weighed(t, all', k + 1, trimmed + more)
  {
    MixedPop(all, k, t);
    if k == 0 {
      assert all[..0] == [];
      assert Mixed(all, 0, t) == t.cum[0];
    }
  }

  lemma {:induction false} SameChildSum(t: Tree, all: seq<TrimmingElement>, k: int)
    requires 0 <= k < |all| && 0 <= all[k].row < |t.cum|
    ensures ChildSum(all[..k + 1], 0, t) ==
      if k > 0 && all[k].parent == 0 then ChildSum(all[..k], 0, t) + t.cum[all[k].row] else ChildSum(all[..k], 0, t)
  {
    assert all[..k + 1] == all[..k] + [all[k]];
    if k > 0 {
      ChildSumSnoc(all[..k], all[k], 0, t);
    }
  }

  /** The facts about the element popped next. */
  lemma {:induction false} NextElement(t: Tree, threshold: int -> int, all: seq<TrimmingElement>, k: int)
    requires Pass(t, threshold, all, k)
    ensures |all| <= |t.up| == |t.cum| <= |t.lists|
    ensures k < |all| ==> 0 <= all[k].row < |t.up|
    ensures 0 < k < |all| ==> all[k].row > 0 && 0 <= all[k].parent < |t.up|
  {
    DistinctRowsBounded(all, |t.up|);
    hide DistinctRows, ParentsAscend, AllKept, Expanded;
    if 0 < k < |all| {
      assert 0 <= all[k].parent < k;
    }
  }

  /** The emitting pass: kept rows breadth first, laid out side by side below their parents. */
  method Emit(rows: Rows, m: Largest, threshold: int -> int)
    returns (out: Trimmed, trimmed: int, rootCumulative: int, ghost all: seq<TrimmingElement>)
    requires WellFormedRows(rows)
    ensures Finished(rows.tree, threshold, all) && Emitted(rows, m, out, all, |all|)
    ensures rootCumulative == ChildSum(all, 0, rows.tree)
    ensures Weighed(rows.tree, all, |all|, trimmed)
  {
    hide WellFormed, Pass, Offsets, Sums, InListOrder, ChildSum, Mixed, Emitted, Weighed, AppendTrimmed, Finished;
    var t := rows.tree;
    var trimmingQueue := [TrimmingElement(0, 0, 0)];
    all := trimmingQueue;
    out := NoRows(|t.lists|);
    ghost var k := 0;
    rootCumulative, trimmed := 0, 0;
    EmitStart(rows, m, threshold);
    while |trimmingQueue| > 0
      invariant 0 <= k <= |all| && trimmingQueue == all[k..] && k == |out.cumulative|
      invariant Pass(t, threshold, all, k) && Offsets(t, all) && Sums(t, threshold, all, k) && InListOrder(t, all)
      invariant Emitted(rows, m, out, all, k) && Weighed(t, all, k, trimmed)
      invariant rootCumulative == ChildSum(all[..k], 0, t)
      decreases |t.up| - k
    {
      NextElement(t, threshold, all, k);
      var te := trimmingQueue[0];
      trimmingQueue := trimmingQueue[1..];
      ghost var all0 := all;
      EmitRow(rows, m, out, all, k);
      SameChildSum(t, all, k);
      out := AppendTrimmed(rows, m, out, te);
      var row := |out.cumulative| - 1;
      if row != 0 && te.parent == 0 {
        rootCumulative := rootCumulative + t.cum[te.row];
      }
      var more;
      all, trimmingQueue, more := Lay(t, threshold, all0, row, trimmingQueue, te);
      EmittedPrefix(rows, m, out, all0, all, k + 1);
      WeighedStep(t, all0, all, k, trimmed, more);
      trimmed := trimmed + more;
      k := k + 1;
    }
    PassFinished(t, threshold, all);
    assert all[..|all|] == all;
  }

  function NoRows(n: nat): Trimmed {
    Trimmed([], [], [], [], [], [], [], seq(n, _ => []))
  }

  lemma {:induction false} EmitStart(rows: Rows, m: Largest, threshold: int -> int)
    requires WellFormedRows(rows)
    ensures
      var all := [TrimmingElement(0, 0, 0)];
      && Pass(rows.tree, threshold, all, 0) && Offsets(rows.tree, all) && Sums(rows.tree, threshold, all, 0)
      && Emitted(rows, m, NoRows(|rows.tree.lists|), all, 0) && Weighed(rows.tree, all, 0, 0)
      && ChildSum(all[..0], 0, rows.tree) == 0 && InListOrder(rows.tree, all)
  {
    PassStart(rows.tree, threshold);
  }

  lemma {:induction false} EmitRow(rows: Rows, m: Largest, out: Trimmed, all: seq<TrimmingElement>, k: int)
    requires Emitted(rows, m, out, all, k) && k < |all| && 0 <= all[k].row < |rows.tree.up|
    requires k > 0 ==> 0 <= all[k].parent < |rows.tree.lists|
    ensures |out.cumulative| == k && |out.children| == |rows.tree.lists|
    ensures Emitted(rows, m, AppendTrimmed(rows, m, out, all[k]), all, k + 1)
    ensures |AppendTrimmed(rows, m, out, all[k]).cumulative| == k + 1
  {
    AppendEmitted(rows, m, out, all, k);
    hide EmittedAt;
  }

  const INT64_LIMIT := 0x8000_0000_0000_0000

  /** The root's total covers its children, and all values are non-negative 64-bit values. */
  ghost predicate Profile(rows: Rows) {
    && WellFormedRows(rows) && Conserved(rows.tree) && NonNegative(rows.tree)
    && rows.tree.cum[0] < INT64_LIMIT
    && (forall i :: 0 <= i < |rows.tree.depth| ==> 0 <= rows.tree.depth[i] < 0x1_0000_0000)
    && SumOf(rows.tree.lists[0], rows.tree.cum) <= rows.tree.cum[0]
  }

  /** The trimmed columns hold exactly the kept rows' values and offsets. */
  ghost predicate Exact(rows: Rows, out: Trimmed, cumulative: seq<int>, all: seq<TrimmingElement>, i: int)
    requires WellFormedRows(rows) && 0 <= i < |all| && 0 <= all[i].row < |rows.tree.up|
    requires i < |out.line| == |out.startLine| == |cumulative| == |out.flat|
    requires |out.flat| == |out.depth| == |out.parent| == |out.valueOffset|
  {
    var r := all[i].row;
    && out.line[i] == (if rows.line[r].valid then Some(ToUint64(rows.line[r].data)) else None)
    && out.startLine[i] == (if rows.startLine[r].valid then Some(ToUint64(rows.startLine[r].data)) else None)
    && out.flat[i] == rows.tree.flat[r]
    && out.depth[i] == ToUint64(rows.tree.depth[r])
    && out.parent[i] == (if i == 0 then -1 else all[i].parent)
    && out.valueOffset[i] == all[i].valueOffset
    && cumulative[i] == Width(rows.tree, all, i)
  }

  ghost predicate TrimmedRows(rows: Rows, out: Trimmed, cumulative: seq<int>, all: seq<TrimmingElement>) {
    && WellFormedRows(rows)
    && |all| == |out.line| == |out.startLine| == |cumulative| == |out.flat|
    && |all| == |out.depth| == |out.parent| == |out.valueOffset|
    && forall i :: 0 <= i < |all| ==> 0 <= all[i].row < |rows.tree.up| && Exact(rows, out, cumulative, all, i)
  }

  /** The cumulative column with the root's rewritten total, in the type that total needs. */
  method StoreCumulative(cumulative: seq<int>, rootCumulative: int) returns (stored: seq<int>)
    requires |cumulative| > 0
    ensures |stored| == |cumulative|
    ensures
      var w := SmallestUnsignedTypeFor(ToUint64(rootCumulative));
      forall i :: 0 <= i < |stored| ==> stored[i] == Store(w, if i == 0 then rootCumulative else cumulative[i])
  {
    var values := cumulative[0 := rootCumulative];
    var w := SmallestUnsignedTypeFor(ToUint64(rootCumulative));
    stored := [];
    for i := 0 to |values|
      invariant |stored| == i && forall j :: 0 <= j < i ==> stored[j] == Store(w, values[j])
    {
      stored := stored + [Store(w, values[i])];
    }
  }

  /** A value of a profile does not exceed the root's total. */
  lemma {:induction false} ValueBounds(rows: Rows, threshold: int -> int, all: seq<TrimmingElement>, i: int)
    requires Profile(rows) && Finished(rows.tree, threshold, all) && 0 <= i < |all|
    ensures 0 <= all[i].row < |rows.tree.up|
    ensures 0 <= all[i].valueOffset && 0 <= Width(rows.tree, all, i)
    ensures all[i].valueOffset + Width(rows.tree, all, i) <= ChildSum(all, 0, rows.tree)
    ensures ChildSum(all, 0, rows.tree) <= rows.tree.cum[0] < INT64_LIMIT
    ensures 0 <= rows.tree.flat[all[i].row] < INT64_LIMIT
  {
    var t := rows.tree;
    Element(t, threshold, all, i);
    Element(t, threshold, all, 0);
    InsideRoot(t, threshold, all, i);
    KeptSumBounded(t, t.lists[0], threshold(t.cum[0]));
    FlatBound(t, all[i].row);
    hide Finished, WellFormed, Conserved, ChildSum;
  }

  lemma {:induction false} FlatBound(t: Tree, r: int)
    requires WellFormed(t) && Conserved(t) && NonNegative(t) && 0 <= r < |t.up|
    ensures 0 <= t.flat[r] <= t.cum[r]
  {
    if r > 0 {
      KeptSumBounded(t, t.lists[r], 0);
    }
  }

  lemma EmittedRow(rows: Rows, m: Largest, out: Trimmed, all: seq<TrimmingElement>, i: int)
    requires Emitted(rows, m, out, all, |all|) && 0 <= i < |all|
    ensures WellFormedRows(rows) && 0 <= all[i].row < |rows.tree.up| && |out.cumulative| == |all|
    ensures |all| == |out.line| == |out.startLine| == |out.flat| == |out.depth| == |out.parent| == |out.valueOffset|
    ensures EmittedAt(rows, m, out, all, i)
  {
  }

  /** Narrowing loses nothing: a row within the measured bounds is stored exactly. */
  lemma {:induction false} StoredExactly(rows: Rows, m: Largest, out: Trimmed, all: seq<TrimmingElement>,
                                         cumulative: seq<int>, root: int, i: int)
    requires WellFormedRows(rows) && 0 <= i < |all| && 0 <= all[i].row < |rows.tree.up|
    requires |rows.tree.up| == |rows.tree.cum| == |rows.tree.flat| == |rows.tree.depth|
    requires i < |out.line| == |out.startLine| == |cumulative| == |out.cumulative| == |out.flat|
    requires |out.flat| == |out.depth| == |out.parent| == |out.valueOffset|
    requires EmittedAt(rows, m, out, all, i) && CoversRow(rows, m, all[i].row)
    requires cumulative[i] == Store(SmallestUnsignedTypeFor(root), Width(rows.tree, all, i))
    requires 0 <= Width(rows.tree, all, i) <= root < INT64_LIMIT
    requires 0 <= rows.tree.flat[all[i].row] < INT64_LIMIT
    requires 0 <= all[i].valueOffset <= m.cum && all[i].valueOffset < INT64_LIMIT
    ensures Exact(rows, out, cumulative, all, i)
  {
    hide WellFormed, ChildSum, Store, SmallestUnsignedTypeFor;
    var t, r := rows.tree, all[i].row;
    StoreLossless(m.line, rows.line[r].data);
    StoreLossless(m.startLine, rows.startLine[r].data);
    StoreLossless(m.flat, t.flat[r]);
    StoreLossless(m.depth, t.depth[r]);
    StoreLossless(m.cum, all[i].valueOffset);
    StoreLossless(root, Width(t, all, i));
  }

  /** The measured widths fit every value the emitting pass writes. */
  lemma {:induction false} NarrowingExact(rows: Rows, m: Largest, threshold: int -> int, out: Trimmed,
                                          all: seq<TrimmingElement>, cumulative: seq<int>, root: int, i: int)
    requires Profile(rows) && Finished(rows.tree, threshold, all) && Emitted(rows, m, out, all, |all|)
    requires root == ChildSum(all, 0, rows.tree) && 0 <= i < |all| == |cumulative|
    requires CoversRow(rows, m, all[i].row) && CoversRow(rows, m, 0)
    requires cumulative[i] == Store(SmallestUnsignedTypeFor(ToUint64(root)), if i == 0 then root else out.cumulative[i])
    ensures 0 <= all[i].row < |rows.tree.up| && Exact(rows, out, cumulative, all, i)
  {
    hide Profile, Finished, Emitted, EmittedAt, Exact, CoversRow, WellFormed, ChildSum, Store, SmallestUnsignedTypeFor;
    EmittedRow(rows, m, out, all, i);
    ValueBounds(rows, threshold, all, i);
    ProfileRoot(rows, m);
    EmittedCumulative(rows, m, out, all, i);
    StoredExactly(rows, m, out, all, cumulative, root, i);
  }

  lemma ProfileRoot(rows: Rows, m: Largest)
    requires Profile(rows) && CoversRow(rows, m, 0)
    ensures WellFormedRows(rows) && |rows.tree.cum| > 0 && rows.tree.cum[0] <= m.cum
    ensures |rows.tree.up| == |rows.tree.cum| == |rows.tree.flat| == |rows.tree.depth|
  {
  }

  lemma {:induction false} EmittedCumulative(rows: Rows, m: Largest, out: Trimmed, all: seq<TrimmingElement>, i: int)
    requires Emitted(rows, m, out, all, |all|) && 0 <= i < |all|
    ensures 0 <= all[i].row < |rows.tree.cum| && |out.cumulative| == |all|
    ensures out.cumulative[i] == rows.tree.cum[all[i].row]
  {
    assert EmittedAt(rows, m, out, all, i);
  }

  lemma {:induction false} MemberBounded(t: Tree, rows: seq<int>, x: int)
    requires InRange(rows, |t.cum|) && NonNegative(t) && x in rows
    ensures t.cum[x] <= SumOf(rows, t.cum)
  {
    var init := rows[..|rows| - 1];
    KeptSumBounded(t, init, 0);
    if x != rows[|rows| - 1] {
      assert x in init;
      MemberBounded(t, init, x);
    }
  }

  lemma {:induction false} ValueBelowParent(t: Tree, r: int)
    requires WellFormed(t) && Conserved(t) && NonNegative(t) && SumOf(t.lists[0], t.cum) <= t.cum[0]
    requires 1 <= r < |t.up|
    ensures 0 <= t.up[r] < r && t.cum[r] <= t.cum[t.up[r]]
  {
    var p := t.up[r];
    assert ListedAt(t.up, t.lists, p);
    MemberBounded(t, t.lists[p], r);
  }

  /** In a profile the measuring pass and the emitting pass keep the same rows. */
  lemma {:induction false} PassesAgree(rows: Rows, threshold: int -> int, r: int)
    requires Profile(rows) && 0 <= r < |rows.tree.up|
    ensures rows.tree.cum[r] <= rows.tree.cum[0]
    ensures Kept(rows.tree, Unsigned(threshold), r) <==> Kept(rows.tree, threshold, r)
  {
    if r > 0 {
      ValueBelowParent(rows.tree, r);
      var p := rows.tree.up[r];
      PassesAgree(rows, threshold, p);
      assert ToUint64(rows.tree.cum[p]) == rows.tree.cum[p];
      assert Unsigned(threshold)(rows.tree.cum[p]) == threshold(rows.tree.cum[p]);
    }
    hide Profile;
  }

  /** Measures, emits and narrows. */
  method Trim(rows: Rows, threshold: int -> int)
    returns (out: Trimmed, cumulative: seq<int>, trimmed: int, ghost all: seq<TrimmingElement>)
    requires WellFormedRows(rows)
    ensures Finished(rows.tree, threshold, all)
    ensures forall r :: 0 <= r < |rows.tree.up| ==> (InRows(all, r) <==> Kept(rows.tree, threshold, r))
    ensures Conserved(rows.tree) ==> KeptFlat(rows.tree, all) + trimmed == SumOf(rows.tree.lists[0], rows.tree.cum)
    ensures |out.parent| == |all| && |out.children| == |rows.tree.lists|
    ensures forall p :: 0 <= p < |out.children| ==> ListedAt(out.parent, out.children, p)
    ensures Profile(rows) ==> TrimmedRows(rows, out, cumulative, all)
  {
    var m, measured := Measure(rows, threshold);
    var root;
    out, trimmed, root, all := Emit(rows, m, threshold);
    FinishedPass(rows.tree, threshold, all);
    cumulative := StoreCumulative(out.cumulative, root);
    MixedIsFlat(rows.tree, all, |all|);
    EmittedLengths(rows, m, out, all);
    hide *;
    if Profile(rows) {
      AllExact(rows, threshold, m, measured, out, all, cumulative, root);
    }
  }

  lemma EmittedLengths(rows: Rows, m: Largest, out: Trimmed, all: seq<TrimmingElement>)
    requires Emitted(rows, m, out, all, |all|)
    ensures WellFormedRows(rows) && |out.children| == |rows.tree.lists|
    ensures |all| == |out.line| == |out.startLine| == |out.cumulative| == |out.flat|
    ensures |all| == |out.depth| == |out.parent| == |out.valueOffset|
    ensures forall p :: 0 <= p < |out.children| ==> ListedAt(out.parent, out.children, p)
  {
  }

  lemma RootKept(t: Tree, threshold: int -> int)
    requires WellFormed(t)
    ensures 0 < |t.up| && Kept(t, threshold, 0)
  {
  }

  /** What the measuring pass covers is all that the emitting pass writes. */
  lemma {:induction false} AllExact(rows: Rows, threshold: int -> int, m: Largest, measured: seq<TrimmingElement>,
      out: Trimmed, all: seq<TrimmingElement>, cumulative: seq<int>, root: int)
    requires Profile(rows) && Finished(rows.tree, threshold, all) && Emitted(rows, m, out, all, |all|)
    requires forall r :: 0 <= r < |rows.tree.up| ==> (InRows(measured, r) <==> Kept(rows.tree, Unsigned(threshold), r))
    requires forall r :: InRows(measured, r) ==> CoversRow(rows, m, r)
    requires root == ChildSum(all, 0, rows.tree) && |all| == |cumulative|
    requires forall i :: 0 <= i < |all| ==>
      cumulative[i] == Store(SmallestUnsignedTypeFor(ToUint64(root)), if i == 0 then root else out.cumulative[i])
    ensures TrimmedRows(rows, out, cumulative, all)
  {
    EmittedLengths(rows, m, out, all);
    FinishedPass(rows.tree, threshold, all);
    hide ToUint64, Store, SmallestUnsignedTypeFor, CoversRow, Kept, Unsigned, Finished, Emitted, Profile;
    forall r | 0 <= r < |rows.tree.up| && Kept(rows.tree, threshold, r) ensures CoversRow(rows, m, r) {
      PassesAgree(rows, threshold, r);
    }
    RootKept(rows.tree, threshold);
    forall i | 0 <= i < |all|
      ensures 0 <= all[i].row < |rows.tree.up| && Exact(rows, out, cumulative, all, i)
    {
      EmittedRow(rows, m, out, all, i);
      assert InRows(all, all[i].row);
      NarrowingExact(rows, m, threshold, out, all, cumulative, root, i);
    }
  }

  lemma {:induction false} FinishedPass(t: Tree, threshold: int -> int, all: seq<TrimmingElement>)
    requires Finished(t, threshold, all)
    ensures forall r :: 0 <= r < |t.up| ==> (InRows(all, r) <==> Kept(t, threshold, r))
  {
    assert Pass(t, threshold, all, |all|);
    PassEnd(t, threshold, all);
  }

  /** The layout of the trimmed columns: nested in the parent's interval, disjoint at equal depth. */
  lemma {:induction false} TrimmedLayout(rows: Rows, threshold: int -> int, out: Trimmed, cumulative: seq<int>,
      all: seq<TrimmingElement>)
    requires Profile(rows) && Finished(rows.tree, threshold, all) && TrimmedRows(rows, out, cumulative, all)
    ensures forall i :: 1 <= i < |out.parent| ==>
      var p := out.parent[i];
      && 0 <= p < i && out.valueOffset[p] <= out.valueOffset[i]
      && out.valueOffset[i] + cumulative[i] <= out.valueOffset[p] + cumulative[p]
    ensures forall i, j :: 0 <= i < j < |out.depth| && out.depth[i] == out.depth[j] ==>
      out.valueOffset[i] + cumulative[i] <= out.valueOffset[j]
  {
    forall i | 1 <= i < |out.parent|
      ensures
        var p := out.parent[i];
        && 0 <= p < i && out.valueOffset[p] <= out.valueOffset[i]
        && out.valueOffset[i] + cumulative[i] <= out.valueOffset[p] + cumulative[p]
    {
      ParentInterval(rows, threshold, out, cumulative, all, i);
    }
    forall i, j | 0 <= i < j < |out.depth| && out.depth[i] == out.depth[j]
      ensures out.valueOffset[i] + cumulative[i] <= out.valueOffset[j]
    {
      SiblingIntervals(rows, threshold, out, cumulative, all, i, j);
    }
  }

  lemma ExactDepth(rows: Rows, out: Trimmed, cumulative: seq<int>, all: seq<TrimmingElement>, i: int)
    requires Profile(rows) && TrimmedRows(rows, out, cumulative, all) && 0 <= i < |all|
    ensures 0 <= all[i].row < |rows.tree.up| && Exact(rows, out, cumulative, all, i)
    ensures out.depth[i] == rows.tree.depth[all[i].row]
    ensures WellFormed(rows.tree) && Conserved(rows.tree) && NonNegative(rows.tree)
  {
  }

  lemma {:induction false} ParentInterval(rows: Rows, threshold: int -> int, out: Trimmed, cumulative: seq<int>,
      all: seq<TrimmingElement>, i: int)
    requires Profile(rows) && Finished(rows.tree, threshold, all) && TrimmedRows(rows, out, cumulative, all)
    requires 1 <= i < |all|
    ensures
      var p := out.parent[i];
      && 0 <= p < i && out.valueOffset[p] <= out.valueOffset[i]
      && out.valueOffset[i] + cumulative[i] <= out.valueOffset[p] + cumulative[p]
  {
    Nested(rows.tree, threshold, all, i);
    ExactDepth(rows, out, cumulative, all, i);
    ExactDepth(rows, out, cumulative, all, all[i].parent);
  }

  lemma {:induction false} SiblingIntervals(rows: Rows, threshold: int -> int, out: Trimmed, cumulative: seq<int>,
      all: seq<TrimmingElement>,
                         i: int, j: int)
    requires Profile(rows) && Finished(rows.tree, threshold, all) && TrimmedRows(rows, out, cumulative, all)
    requires 0 <= i < j < |all| && out.depth[i] == out.depth[j]
    ensures out.valueOffset[i] + cumulative[i] <= out.valueOffset[j]
  {
    ExactDepth(rows, out, cumulative, all, i);
    ExactDepth(rows, out, cumulative, all, j);
    hide Profile, Finished, TrimmedRows, WellFormed;
    Ordered(rows.tree, threshold, all, i, j);
  }
}
