/** From stacks to the trimmed columns: the builder's rows satisfy what the trimmer relies on. */
module FlamegraphArrow {
  import opened Profiles
  import opened FlamegraphTrie
  import opened FlamegraphWalk
  import opened FlamegraphBuilders
  import opened Columns
  import opened TrimSpec
  import opened FlamegraphTrim

  ghost predicate NonNegativeSamples(ws: seq<Weighted>) {
    forall i :: 0 <= i < |ws| ==> ws[i].value >= 0
  }

  /** The tree of a builder's rows once the root's total is set. */
  ghost function TreeOf(fb: FlamegraphBuilder): Tree
    requires |fb.builderCumulative| > 0
    reads fb
  {
    Tree(fb.up, fb.childrenList, fb.builderCumulative[0 := fb.cumulative], fb.builderFlat, fb.builderDepth)
  }

  lemma {:induction false} SumOfSkipsRoot(rows: seq<int>, column: seq<int>, v: int)
    requires InRange(rows, |column|) && |column| > 0
    requires forall a :: 0 <= a < |rows| ==> rows[a] != 0
    ensures SumOf(rows, column[0 := v]) == SumOf(rows, column)
  {
    if rows != [] {
      SumOfSkipsRoot(rows[..|rows| - 1], column, v);
    }
  }

  /** The builder's rows form a tree whose depth grows by one per level. */
  lemma {:induction false} BuiltTree(fb: FlamegraphBuilder)
    requires fb.Valid()
    ensures WellFormed(TreeOf(fb))
  {
    var t := TreeOf(fb);
    forall i | 1 <= i < |t.up|
      ensures 0 <= t.up[i] < i && t.depth[i] == t.depth[t.up[i]] + 1
    {
      assert LinkedAt(fb.path, fb.up, fb.children, i);
      DepthIsLength(fb, i);
      DepthIsLength(fb, t.up[i]);
    }
    forall i | 0 <= i < |t.lists|
      ensures InRange(t.lists[i], |t.up|)
    {
      assert ListedAt(t.up, t.lists, i);
      assert forall a :: 0 <= a < |t.lists[i]| ==> t.lists[i][a] in t.lists[i];
    }
  }

  lemma {:induction false} DepthIsLength(fb: FlamegraphBuilder, i: int)
    requires fb.Valid() && 0 <= i < |fb.path|
    ensures fb.builderDepth[i] == |fb.path[i]|
  {
    RowsMatchStacks(fb.Contents(), fb.path, fb.up, fb.added);
  }

  /** The rows keep the value conservation the trimmer's layout needs. */
  lemma {:induction false} BuiltConserved(fb: FlamegraphBuilder)
    requires fb.Valid()
    ensures WellFormed(TreeOf(fb)) && Conserved(TreeOf(fb))
    ensures Total(fb.added) == Ending(fb.added, []) + SumOf(TreeOf(fb).lists[0], TreeOf(fb).cum)
  {
    BuiltTree(fb);
    var t := TreeOf(fb);
    forall i | 0 <= i < |t.up|
      ensures i > 0 ==> t.cum[i] == t.flat[i] + SumOf(t.lists[i], t.cum)
      ensures i == 0 ==> Total(fb.added) == Ending(fb.added, []) + SumOf(t.lists[i], t.cum)
    {
      RowConservation(fb.Contents(), fb.path, fb.up, fb.added, i);
      ListAboveRoot(fb.path, fb.up, fb.children, fb.childrenList, i);
      SumOfSkipsRoot(t.lists[i], fb.builderCumulative, fb.cumulative);
    }
  }

  /** Non-negative samples within 64 bits give the profile for which narrowing and layout are exact. */
  lemma {:induction false} BuiltProfile(fb: FlamegraphBuilder, rows: Rows)
    requires fb.Valid() && fb.cumulative == Total(fb.added) < INT64_LIMIT
    requires NonNegativeSamples(fb.added) && MaxStack(fb.added) < 0x1_0000_0000
    requires rows.tree == TreeOf(fb) && |rows.line| == |rows.startLine| == |fb.builderCumulative|
    ensures Profile(rows)
  {
    var t := rows.tree;
    BuiltConserved(fb);
    RowsMatchStacks(fb.Contents(), fb.path, fb.up, fb.added);
    forall i | 0 <= i < |t.up|
      ensures t.cum[i] >= 0 && t.flat[i] >= 0 && 0 <= t.depth[i] < 0x1_0000_0000
    {
      Profiles.NonNegative(fb.added, fb.path[i]);
      DepthIsLength(fb, i);
      StackBound(fb.added, fb.path[i]);
    }
    Profiles.NonNegative(fb.added, []);
  }

  lemma {:induction false} StackBound(ws: seq<Weighted>, p: Stack)
    ensures FromSample(p, ws) ==> |p| <= MaxStack(ws)
  {
    if FromSample(p, ws) {
      var i :| 0 <= i < |ws| && p <= ws[i].stack;
      StackAtMost(ws, i);
    }
  }

  lemma {:induction false} StackAtMost(ws: seq<Weighted>, i: int)
    requires 0 <= i < |ws|
    ensures |ws[i].stack| <= MaxStack(ws)
  {
    if i < |ws| - 1 {
      StackAtMost(ws[..|ws| - 1], i);
    }
  }

  /**
   Sets the root's total and trims. Without trimming losses the columns hold, row by row, the value
   through the row's stack, the value ending there and its length.
   */
  method TrimRecord(fb: FlamegraphBuilder, line: seq<Cell>, startLine: seq<Cell>, threshold: int -> int)
    returns (out: Trimmed, cumulative: seq<int>, trimmed: int, ghost all: seq<TrimmingElement>, ghost rows: Rows)
    requires fb.Valid() && fb.cumulative == Total(fb.added)
    requires |line| == |startLine| == |fb.builderCumulative|
    modifies fb`builderCumulative
    ensures rows.tree == old(TreeOf(fb)) && Finished(rows.tree, threshold, all)
    ensures KeptFlat(rows.tree, all) + trimmed == Total(fb.added) - Ending(fb.added, [])
    ensures NonNegativeSamples(fb.added) && Total(fb.added) < INT64_LIMIT && MaxStack(fb.added) < 0x1_0000_0000 ==>
      Profile(rows) && TrimmedRows(rows, out, cumulative, all) && HoldsStacks(fb.added, fb.path, out, cumulative, all)
  {
    BuiltConserved(fb);
    RowsMatchStacks(fb.Contents(), fb.path, fb.up, fb.added);
    ghost var cum0 := fb.builderCumulative;
    ghost var tree := TreeOf(fb);
    ghost var small := NonNegativeSamples(fb.added) && Total(fb.added) < INT64_LIMIT
      && MaxStack(fb.added) < 0x1_0000_0000;
    rows := Rows(tree, line, startLine);
    if small {
      BuiltProfile(fb, rows);
    }
    hide WellFormed, Conserved, Finished, TrimmedRows, ListedAt, Profile, Faithful, HoldsStacks;
    fb.builderCumulative := fb.builderCumulative[0 := fb.cumulative];
    var r := Rows(Tree(fb.up, fb.childrenList, fb.builderCumulative, fb.builderFlat, fb.builderDepth), line, startLine);
    assert r == rows;
    out, cumulative, trimmed, all := Trim(r, threshold);
    if small {
      TrimmedMeansStacks(fb.added, fb.path, cum0, fb.cumulative, rows, threshold, out, cumulative, all);
    }
  }

  /** Every row below the root shows the value through one stack prefix, the value ending there and its length. */
  ghost predicate HoldsStacks(ws: seq<Weighted>, path: seq<Stack>, out: Trimmed, cumulative: seq<int>,
      all: seq<TrimmingElement>) {
    && |all| == |cumulative| == |out.flat| == |out.depth|
    && forall i :: 1 <= i < |all| ==>
         && 1 <= all[i].row < |path|
         && cumulative[i] == Through(ws, path[all[i].row])
         && out.flat[i] == Ending(ws, path[all[i].row])
         && out.depth[i] == |path[all[i].row]|
  }

  lemma {:induction false} TrimmedMeansStacks(
    ws: seq<Weighted>, path: seq<Stack>, cum: seq<int>, total: int, rows: Rows, threshold: int -> int,
    out: Trimmed, cumulative: seq<int>, all: seq<TrimmingElement>)
    requires Faithful(ws, path, cum, rows.tree.flat, rows.tree.depth)
    requires rows.tree.cum == cum[0 := total]
    requires Profile(rows) && Finished(rows.tree, threshold, all) && TrimmedRows(rows, out, cumulative, all)
    ensures HoldsStacks(ws, path, out, cumulative, all)
  {
    forall i | 1 <= i < |all|
      ensures
        && 1 <= all[i].row < |path|
        && cumulative[i] == Through(ws, path[all[i].row])
        && out.flat[i] == Ending(ws, path[all[i].row])
        && out.depth[i] == |path[all[i].row]|
    {
      Element(rows.tree, threshold, all, i);
      ExactDepth(rows, out, cumulative, all, i);
      hide Finished, Profile, TrimmedRows, WellFormed;
    }
    assert |all| == |cumulative| == |out.flat| == |out.depth|;
  }
}
