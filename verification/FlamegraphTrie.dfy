/**
 The row-indexed trie of the Arrow flame graph. Row 0 is the root; every other row stands for one
 distinct non-empty prefix of the stacks added so far.
 */
module FlamegraphTrie {
  import opened Profiles

  ghost function Last(p: Stack): Key
    requires p != []
  {
    p[|p| - 1]
  }

  ghost predicate Distinct(path: seq<Stack>) {
    forall i, j :: 0 <= i < j < |path| ==> path[i] != path[j]
  }

  /** Row j hangs below row up[j] under the last key of its path. */
  ghost predicate LinkedAt(path: seq<Stack>, up: seq<int>, children: seq<map<Key, int>>, j: int)
    requires |path| == |up| <= |children| && 0 <= j < |path|
  {
    && 0 <= up[j] < j
    && path[j] != []
    && path[j] == path[up[j]] + [Last(path[j])]
    && Last(path[j]) in children[up[j]]
    && children[up[j]][Last(path[j])] == j
  }

  /** Every entry of the children map of row i leads to the row of the extended path. */
  ghost predicate MappedAt(path: seq<Stack>, up: seq<int>, children: seq<map<Key, int>>, i: int)
    requires |path| == |up| <= |children| && 0 <= i < |path|
  {
    forall k :: k in children[i] ==>
      i < children[i][k] < |path| && up[children[i][k]] == i && path[children[i][k]] == path[i] + [k]
  }

  ghost predicate Increasing(s: seq<int>) {
    forall a, b :: 0 <= a < b < |s| ==> s[a] < s[b]
  }

  /** The children list of row i holds exactly the rows below it, in order of creation. */
  ghost predicate ListedAt(up: seq<int>, lists: seq<seq<int>>, i: int)
    requires 0 <= i < |lists|
  {
    Increasing(lists[i]) && forall x :: x in lists[i] <==> 1 <= x < |up| && up[x] == i
  }

  ghost predicate Shape(path: seq<Stack>, up: seq<int>, children: seq<map<Key, int>>, lists: seq<seq<int>>) {
    && 1 <= |path| == |up| <= |children| == |lists|
    && path[0] == [] && Distinct(path)
    && (forall j :: 1 <= j < |path| ==> LinkedAt(path, up, children, j))
    && (forall i :: 0 <= i < |path| ==> MappedAt(path, up, children, i))
    && (forall i :: 0 <= i < |lists| ==> ListedAt(up, lists, i))
    && (forall i :: |path| <= i < |children| ==> children[i] == map[] && lists[i] == [])
  }

  lemma {:induction false} Snoc(p: Stack, a: Key, q: Stack, b: Key)
    ensures p + [a] == q + [b] <==> p == q && a == b
  {
    assert p == (p + [a])[..|p|] && q == (q + [b])[..|q|];
    assert a == (p + [a])[|p|] && b == (q + [b])[|q|];
  }

  lemma {:induction false} FreshPath(path: seq<Stack>, up: seq<int>, children: seq<map<Key, int>>,
      lists: seq<seq<int>>, c: int, key: Key)
    requires Shape(path, up, children, lists) && 0 <= c < |path| && key !in children[c]
    ensures path[c] + [key] !in path
  {
    forall x | 0 <= x < |path|
      ensures path[x] != path[c] + [key]
    {
      if x > 0 {
        assert LinkedAt(path, up, children, x);
        Snoc(path[up[x]], Last(path[x]), path[c], key);
        assert up[x] != c ==> path[up[x]] != path[c];
      }
    }
  }

  lemma {:induction false} ShapeGrow(path: seq<Stack>, up: seq<int>, children: seq<map<Key, int>>, lists: seq<seq<int>>,
                  children': seq<map<Key, int>>, lists': seq<seq<int>>)
    requires Shape(path, up, children, lists)
    requires |children'| == |lists'| >= |children|
    requires children <= children' && lists <= lists'
    requires forall i :: |children| <= i < |children'| ==> children'[i] == map[] && lists'[i] == []
    ensures Shape(path, up, children', lists')
  {
    forall j | 1 <= j < |path|
      ensures LinkedAt(path, up, children', j)
    {
      assert LinkedAt(path, up, children, j);
    }
    forall i | 0 <= i < |path|
      ensures MappedAt(path, up, children', i)
    {
      assert MappedAt(path, up, children, i);
    }
    forall i | 0 <= i < |lists'|
      ensures ListedAt(up, lists', i)
    {
      if i < |lists| {
        assert ListedAt(up, lists, i);
      } else {
        forall x | 1 <= x < |up|
          ensures up[x] != i
        {
          assert LinkedAt(path, up, children, x);
        }
      }
    }
  }

  lemma {:induction false} ShapeAppend(path: seq<Stack>, up: seq<int>, children: seq<map<Key, int>>,
      lists: seq<seq<int>>, c: int, key: Key)
    requires Shape(path, up, children, lists) && 0 <= c < |path| < |children| && key !in children[c]
    ensures Shape(path + [path[c] + [key]], up + [c],
                  children[c := children[c][key := |path|]], lists[c := lists[c] + [|path|]])
  {
    var path', up' := path + [path[c] + [key]], up + [c];
    var children', lists' := children[c := children[c][key := |path|]], lists[c := lists[c] + [|path|]];
    FreshPath(path, up, children, lists, c, key);
    assert Distinct(path');
    forall j | 1 <= j < |path'|
      ensures LinkedAt(path', up', children', j)
    {
      if j < |path| {
        assert LinkedAt(path, up, children, j);
      } else {
        assert Last(path'[j]) == key;
      }
    }
    MappedAppend(path, up, children, c, key);
    ListedAppend(up, lists, c);
  }

  lemma {:induction false} MappedAppend(path: seq<Stack>, up: seq<int>, children: seq<map<Key, int>>, c: int, key: Key)
    requires |path| == |up| < |children| && 0 <= c < |path| && children[|path|] == map[]
    requires forall i :: 0 <= i < |path| ==> MappedAt(path, up, children, i)
    ensures
      var path', up', children' := path + [path[c] + [key]], up + [c], children[c := children[c][key := |path|]];
      forall i :: 0 <= i <= |path| ==> MappedAt(path', up', children', i)
  {
    var path', up', children' := path + [path[c] + [key]], up + [c], children[c := children[c][key := |path|]];
    forall i | 0 <= i <= |path|
      ensures MappedAt(path', up', children', i)
    {
      if i < |path| {
        assert MappedAt(path, up, children, i);
      }
    }
  }

  lemma {:induction false} ListedAppend(up: seq<int>, lists: seq<seq<int>>, c: int)
    requires 1 <= |up| && 0 <= c < |lists|
    requires forall i :: 0 <= i < |lists| ==> ListedAt(up, lists, i)
    ensures
      var up', lists' := up + [c], lists[c := lists[c] + [|up|]];
      forall i :: 0 <= i < |lists| ==> ListedAt(up', lists', i)
  {
    var up', lists' := up + [c], lists[c := lists[c] + [|up|]];
    forall i | 0 <= i < |lists|
      ensures ListedAt(up', lists', i)
    {
      assert ListedAt(up, lists, i);
      assert forall a :: 0 <= a < |lists[i]| ==> lists[i][a] in lists[i];
    }
  }

  /** The values of the row of path p after the samples ws and a pending stack q of value v. */
  ghost predicate RowValue(p: Stack, cum: int, flat: int, depth: int, ws: seq<Weighted>, q: Stack, v: int,
      ended: bool) {
    && cum == Through(ws, p) + (if p <= q then v else 0)
    && flat == Ending(ws, p) + (if ended && p == q then v else 0)
    && depth == |p|
  }

  ghost predicate Values(path: seq<Stack>, cum: seq<int>, flat: seq<int>, depth: seq<int>,
                         ws: seq<Weighted>, q: Stack, v: int, ended: bool)
  {
    && 1 <= |path| == |cum| == |flat| == |depth|
    && cum[0] == 0 && flat[0] == 0 && depth[0] == 0
    && forall i :: 1 <= i < |path| ==> RowValue(path[i], cum[i], flat[i], depth[i], ws, q, v, ended)
  }

  /** Every prefix of the stack is the path of a row. */
  ghost predicate Covers(path: seq<Stack>, stack: Stack) {
    forall k :: 0 <= k <= |stack| ==> stack[..k] in path
  }

  ghost predicate CoversAll(path: seq<Stack>, ws: seq<Weighted>) {
    forall i :: 0 <= i < |ws| ==> Covers(path, ws[i].stack)
  }

  ghost predicate FromSample(p: Stack, ws: seq<Weighted>) {
    exists i :: 0 <= i < |ws| && p <= ws[i].stack
  }

  /** Every row other than the root stands for a prefix of some stack. */
  ghost predicate Justified(path: seq<Stack>, ws: seq<Weighted>, q: Stack) {
    forall i :: 1 <= i < |path| ==> path[i] <= q || FromSample(path[i], ws)
  }

  lemma {:induction false} CoversAppend(path: seq<Stack>, p: Stack, ws: seq<Weighted>, q: Stack)
    requires CoversAll(path, ws) && Covers(path, q)
    ensures CoversAll(path + [p], ws) && Covers(path + [p], q)
  {
    forall k | 0 <= k <= |q|
      ensures q[..k] in path + [p]
    {
      assert q[..k] in path;
    }
    forall i | 0 <= i < |ws|
      ensures Covers(path + [p], ws[i].stack)
    {
      assert Covers(path, ws[i].stack);
      forall k | 0 <= k <= |ws[i].stack|
        ensures ws[i].stack[..k] in path + [p]
      {
        assert ws[i].stack[..k] in path;
      }
    }
  }

  lemma {:induction false} CoversExtend(path: seq<Stack>, q: Stack, key: Key)
    requires Covers(path, q) && q + [key] in path
    ensures Covers(path, q + [key])
  {
    forall k | 0 <= k <= |q + [key]|
      ensures (q + [key])[..k] in path
    {
      if k <= |q| {
        assert (q + [key])[..k] == q[..k];
      } else {
        assert (q + [key])[..k] == q + [key];
      }
    }
  }

  lemma {:induction false} PrefixExtend(p: Stack, q: Stack, key: Key)
    ensures p <= q + [key] <==> p <= q || p == q + [key]
  {
    if p <= q + [key] && |p| <= |q| {
      assert p == (q + [key])[..|p|] == q[..|p|];
    }
  }

  lemma {:induction false} JustifiedExtend(path: seq<Stack>, ws: seq<Weighted>, q: Stack, key: Key)
    requires Justified(path, ws, q)
    ensures Justified(path, ws, q + [key]) && Justified(path + [q + [key]], ws, q + [key])
  {
    forall i | 1 <= i < |path|
      ensures path[i] <= q + [key] || FromSample(path[i], ws)
    {
      PrefixExtend(path[i], q, key);
    }
  }

  lemma PrefixTake(p: Stack, q: Stack)
    ensures p <= q <==> |p| <= |q| && q[..|p|] == p
  {
  }

  /** No sample goes through a path that is not a row. */
  lemma {:induction false} UnseenIsZero(path: seq<Stack>, ws: seq<Weighted>, p: Stack)
    requires CoversAll(path, ws) && p !in path
    ensures Through(ws, p) == 0 && Ending(ws, p) == 0
  {
    forall i | 0 <= i < |ws|
      ensures !(p <= ws[i].stack)
    {
      assert Covers(path, ws[i].stack);
      PrefixTake(p, ws[i].stack);
    }
    NotTaken(ws, p);
  }

  lemma {:induction false} ValuesMerge(path: seq<Stack>, cum: seq<int>, flat: seq<int>, depth: seq<int>,
                    ws: seq<Weighted>, q: Stack, key: Key, v: int, leaf: bool, cr: int)
    requires Values(path, cum, flat, depth, ws, q, v, false)
    requires Distinct(path) && 1 <= cr < |path| && path[cr] == q + [key]
    ensures Values(path, cum[cr := cum[cr] + v], flat[cr := if leaf then flat[cr] + v else flat[cr]],
                   depth, ws, q + [key], v, leaf)
  {
    var cum', flat' := cum[cr := cum[cr] + v], flat[cr := if leaf then flat[cr] + v else flat[cr]];
    forall i | 1 <= i < |path|
      ensures RowValue(path[i], cum'[i], flat'[i], depth[i], ws, q + [key], v, leaf)
    {
      assert RowValue(path[i], cum[i], flat[i], depth[i], ws, q, v, false);
      PrefixExtend(path[i], q, key);
      if i != cr {
        assert path[i] != path[cr];
      }
    }
  }

  lemma {:induction false} ValuesAppend(path: seq<Stack>, cum: seq<int>, flat: seq<int>, depth: seq<int>,
                     ws: seq<Weighted>, q: Stack, key: Key, v: int, leaf: bool)
    requires Values(path, cum, flat, depth, ws, q, v, false)
    requires CoversAll(path, ws) && q + [key] !in path
    ensures Values(path + [q + [key]], cum + [v], flat + [if leaf then v else 0], depth + [|q| + 1],
                   ws, q + [key], v, leaf)
  {
    var path' := path + [q + [key]];
    var cum', flat', depth' := cum + [v], flat + [if leaf then v else 0], depth + [|q| + 1];
    UnseenIsZero(path, ws, q + [key]);
    forall i | 1 <= i < |path'|
      ensures RowValue(path'[i], cum'[i], flat'[i], depth'[i], ws, q + [key], v, leaf)
    {
      PrefixExtend(path'[i], q, key);
      if i < |path| {
        assert path[i] in path;
        assert RowValue(path[i], cum[i], flat[i], depth[i], ws, q, v, false);
      }
    }
  }

  /** Turning the pending stack into an added sample. */
  lemma {:induction false} ValuesCommit(path: seq<Stack>, cum: seq<int>, flat: seq<int>, depth: seq<int>,
                     ws: seq<Weighted>, q: Stack, v: int)
    requires Values(path, cum, flat, depth, ws, q, v, q != [])
    requires forall i :: 1 <= i < |path| ==> path[i] != []
    ensures forall v' :: Values(path, cum, flat, depth, ws + [Weighted(q, v)], [], v', false)
  {
    forall v', i | 1 <= i < |path|
      ensures RowValue(path[i], cum[i], flat[i], depth[i], ws + [Weighted(q, v)], [], v', false)
    {
      assert RowValue(path[i], cum[i], flat[i], depth[i], ws, q, v, q != []);
      ThroughSnoc(ws, Weighted(q, v), path[i]);
    }
  }

  lemma {:induction false} CoverageCommit(path: seq<Stack>, ws: seq<Weighted>, q: Stack, v: int)
    requires CoversAll(path, ws) && Covers(path, q) && Justified(path, ws, q)
    ensures CoversAll(path, ws + [Weighted(q, v)]) && Justified(path, ws + [Weighted(q, v)], [])
  {
    var ws' := ws + [Weighted(q, v)];
    forall i | 1 <= i < |path|
      ensures FromSample(path[i], ws')
    {
      if path[i] <= q {
        assert path[i] <= ws'[|ws|].stack;
      } else {
        assert FromSample(path[i], ws);
        var j :| 0 <= j < |ws| && path[i] <= ws[j].stack;
        assert path[i] <= ws'[j].stack;
      }
    }
  }

  ghost predicate InRange(rows: seq<int>, n: int) {
    forall a :: 0 <= a < |rows| ==> 0 <= rows[a] < n
  }

  /** The sum of a column over some rows. */
  ghost function SumOf(rows: seq<int>, column: seq<int>): int
    requires InRange(rows, |column|)
  {
    if rows == [] then 0
    else SumOf(rows[..|rows| - 1], column) + column[rows[|rows| - 1]]
  }

  ghost function SumThrough(ws: seq<Weighted>, path: seq<Stack>, rows: seq<int>): int
    requires InRange(rows, |path|)
  {
    if rows == [] then 0
    else SumThrough(ws, path, rows[..|rows| - 1]) + Through(ws, path[rows[|rows| - 1]])
  }

  /** What one more sample adds to the sum. */
  ghost function Hits(w: Weighted, path: seq<Stack>, rows: seq<int>): int
    requires InRange(rows, |path|)
  {
    if rows == [] then 0
    else Hits(w, path, rows[..|rows| - 1]) + (if path[rows[|rows| - 1]] <= w.stack then w.value else 0)
  }

  lemma {:induction false} SumThroughSnoc(ws: seq<Weighted>, w: Weighted, path: seq<Stack>, rows: seq<int>)
    requires InRange(rows, |path|)
    ensures SumThrough(ws + [w], path, rows) == SumThrough(ws, path, rows) + Hits(w, path, rows)
  {
    if rows != [] {
      SumThroughSnoc(ws, w, path, rows[..|rows| - 1]);
      ThroughSnoc(ws, w, path[rows[|rows| - 1]]);
    }
  }

  /** Rows that extend q by one key, each by a different one. */
  ghost predicate Branches(path: seq<Stack>, rows: seq<int>, q: Stack) {
    && InRange(rows, |path|)
    && (forall a :: 0 <= a < |rows| ==> |path[rows[a]]| == |q| + 1 && q <= path[rows[a]])
    && (forall a, b :: 0 <= a < b < |rows| ==> path[rows[a]] != path[rows[b]])
  }

  lemma {:induction false} HitsOnce(w: Weighted, path: seq<Stack>, rows: seq<int>, q: Stack, hit: bool)
    requires Branches(path, rows, q)
    requires hit <==> exists a :: 0 <= a < |rows| && path[rows[a]] <= w.stack
    ensures Hits(w, path, rows) == if hit then w.value else 0
  {
    if rows != [] {
      var init, last := rows[..|rows| - 1], rows[|rows| - 1];
      var hit' := exists a :: 0 <= a < |init| && path[init[a]] <= w.stack;
      assert hit' ==> hit;
      if path[last] <= w.stack {
        forall a | 0 <= a < |init|
          ensures !(path[init[a]] <= w.stack)
        {
          PrefixTake(path[rows[a]], w.stack);
          PrefixTake(path[last], w.stack);
          assert path[rows[a]] != path[rows[|rows| - 1]];
        }
      }
      HitsOnce(w, path, init, q, hit');
    }
  }

  /** Every stack that continues beyond q continues along one of the rows. */
  ghost predicate Branched(path: seq<Stack>, rows: seq<int>, q: Stack, stack: Stack) {
    q <= stack && |stack| > |q| ==>
      exists a :: 0 <= a < |rows| && 0 <= rows[a] < |path| && path[rows[a]] == stack[..|q| + 1]
  }

  /** What goes through q ends there or continues along one of its branches. */
  lemma {:induction false} ThroughSplits(ws: seq<Weighted>, path: seq<Stack>, rows: seq<int>, q: Stack)
    requires Branches(path, rows, q)
    requires forall i :: 0 <= i < |ws| ==> Branched(path, rows, q, ws[i].stack)
    ensures Through(ws, q) == Ending(ws, q) + SumThrough(ws, path, rows)
  {
    if ws == [] {
      SumThroughEmpty(path, rows);
    } else {
      var init, w := ws[..|ws| - 1], ws[|ws| - 1];
      assert ws == init + [w];
      ThroughSplits(init, path, rows, q);
      SumThroughSnoc(init, w, path, rows);
      assert Branched(path, rows, q, w.stack);
      HitIff(w, path, rows, q);
      HitsOnce(w, path, rows, q, q <= w.stack && |w.stack| > |q|);
    }
  }

  lemma {:induction false} HitIff(w: Weighted, path: seq<Stack>, rows: seq<int>, q: Stack)
    requires Branches(path, rows, q) && Branched(path, rows, q, w.stack)
    ensures q <= w.stack && |w.stack| > |q| <==> exists a :: 0 <= a < |rows| && path[rows[a]] <= w.stack
  {
    if a :| 0 <= a < |rows| && path[rows[a]] <= w.stack {
      var r := rows[a];
      PrefixTake(q, path[r]);
      PrefixTake(path[r], w.stack);
      assert w.stack[..|q|] == path[r][..|q|];
    }
    if q <= w.stack && |w.stack| > |q| {
      var a :| 0 <= a < |rows| && 0 <= rows[a] < |path| && path[rows[a]] == w.stack[..|q| + 1];
      PrefixTake(path[rows[a]], w.stack);
    }
  }

  lemma {:induction false} SumThroughEmpty(path: seq<Stack>, rows: seq<int>)
    requires InRange(rows, |path|)
    ensures SumThrough([], path, rows) == 0
  {
    if rows != [] {
      SumThroughEmpty(path, rows[..|rows| - 1]);
    }
  }

  lemma {:induction false} SumThroughIsSumOf(ws: seq<Weighted>, path: seq<Stack>, rows: seq<int>, column: seq<int>)
    requires InRange(rows, |path|) && InRange(rows, |column|)
    requires forall a :: 0 <= a < |rows| ==> column[rows[a]] == Through(ws, path[rows[a]])
    ensures SumThrough(ws, path, rows) == SumOf(rows, column)
  {
    if rows != [] {
      SumThroughIsSumOf(ws, path, rows[..|rows| - 1], column);
    }
  }

  /** The children list of row i branches off its path, and every continuing stack is covered. */
  lemma {:induction false} ListBranches(path: seq<Stack>, up: seq<int>, children: seq<map<Key, int>>,
      lists: seq<seq<int>>,
                     ws: seq<Weighted>, i: int)
    requires Shape(path, up, children, lists) && CoversAll(path, ws) && 0 <= i < |path|
    ensures Branches(path, lists[i], path[i])
    ensures forall j :: 0 <= j < |ws| ==> Branched(path, lists[i], path[i], ws[j].stack)
  {
    assert ListedAt(up, lists, i);
    forall a | 0 <= a < |lists[i]|
      ensures 0 <= lists[i][a] < |path| && |path[lists[i][a]]| == |path[i]| + 1 && path[i] <= path[lists[i][a]]
    {
      assert lists[i][a] in lists[i];
      assert LinkedAt(path, up, children, lists[i][a]);
    }
    forall a, b | 0 <= a < b < |lists[i]|
      ensures path[lists[i][a]] != path[lists[i][b]]
    {
      assert lists[i][a] in lists[i] && lists[i][b] in lists[i];
    }
    forall j | 0 <= j < |ws|
      ensures Branched(path, lists[i], path[i], ws[j].stack)
    {
      var stack, q := ws[j].stack, path[i];
      assert Covers(path, stack);
      if q <= stack && |stack| > |q| {
        assert stack[..|q| + 1] in path;
        var r :| 0 <= r < |path| && path[r] == stack[..|q| + 1];
        RowBelow(path, up, children, lists, i, r);
      }
    }
  }

  lemma {:induction false} RowBelow(path: seq<Stack>, up: seq<int>, children: seq<map<Key, int>>,
      lists: seq<seq<int>>, i: int, r: int)
    requires Shape(path, up, children, lists) && 0 <= i < |path| && 0 <= r < |path|
    requires |path[r]| == |path[i]| + 1 && path[i] <= path[r]
    ensures r in lists[i]
  {
    assert LinkedAt(path, up, children, r);
    PrefixTake(path[i], path[r]);
    PrefixTake(path[up[r]], path[r]);
    assert path[up[r]] == path[i];
    assert ListedAt(up, lists, i);
  }

  /**
   The rows of a flame graph for the stacks ws: in bijection with the distinct non-empty prefixes,
   with the value through each prefix, the value ending there and its length.
   */
  ghost predicate Faithful(ws: seq<Weighted>, path: seq<Stack>, cum: seq<int>, flat: seq<int>, depth: seq<int>) {
    && 1 <= |path| == |cum| == |flat| == |depth|
    && path[0] == [] && Distinct(path)
    && (forall i :: 1 <= i < |path| ==> path[i] != [] && FromSample(path[i], ws))
    && CoversAll(path, ws)
    && (forall i :: 1 <= i < |path| ==>
          cum[i] == Through(ws, path[i]) && flat[i] == Ending(ws, path[i]) && depth[i] == |path[i]|)
  }

  /** The value of the non-empty stacks. */
  ghost function NonEmptyValue(ws: seq<Weighted>): int {
    if ws == [] then 0
    else
      var w := ws[|ws| - 1];
      NonEmptyValue(ws[..|ws| - 1]) + (if w.stack != [] then w.value else 0)
  }

  ghost function GraphFlat(path: seq<Stack>, ws: seq<Weighted>, n: nat): int
    requires n <= |path|
  {
    if n == 0 then 0 else GraphFlat(path, ws, n - 1) + (if path[n - 1] != [] then Ending(ws, path[n - 1]) else 0)
  }

  lemma {:induction false} GraphFlatSnoc(path: seq<Stack>, ws: seq<Weighted>, w: Weighted, n: nat)
    requires n <= |path| && forall i, j :: 0 <= i < j < |path| ==> path[i] != path[j]
    ensures GraphFlat(path, ws + [w], n)
      == GraphFlat(path, ws, n) + (if w.stack in path[..n] && w.stack != [] then w.value else 0)
    decreases n
  {
    if n > 0 {
      GraphFlatSnoc(path, ws, w, n - 1);
      ThroughSnoc(ws, w, path[n - 1]);
      assert path[..n] == path[..n - 1] + [path[n - 1]];
    }
  }

  lemma {:induction false} GraphFlatNone(path: seq<Stack>, n: nat)
    requires n <= |path|
    ensures GraphFlat(path, [], n) == 0
  {
    if n > 0 {
      GraphFlatNone(path, n - 1);
    }
  }

  lemma {:induction false} GraphTotal(path: seq<Stack>, ws: seq<Weighted>)
    requires forall i, j :: 0 <= i < j < |path| ==> path[i] != path[j]
    requires forall i :: 0 <= i < |ws| ==> ws[i].stack in path
    ensures GraphFlat(path, ws, |path|) == NonEmptyValue(ws)
    decreases |ws|
  {
    if ws == [] {
      GraphFlatNone(path, |path|);
    } else {
      var init, w := ws[..|ws| - 1], ws[|ws| - 1];
      GraphTotal(path, init);
      GraphFlatSnoc(path, init, w, |path|);
      assert ws == init + [w] && path[..|path|] == path;
    }
  }

  /** The length of the longest stack. */
  ghost function MaxStack(ws: seq<Weighted>): nat {
    if ws == [] then 0
    else
      var rest := MaxStack(ws[..|ws| - 1]);
      if |ws[|ws| - 1].stack| > rest then |ws[|ws| - 1].stack| else rest
  }
}
