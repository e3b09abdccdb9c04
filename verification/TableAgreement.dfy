/** The function table and the flame graph of one profile tell the same flat values. */
module TableAgreement {
  import opened Options
  import opened Profiles
  import opened TableSpec
  import opened FlamegraphTrie
  import QueryTables
  import FlamegraphWalk
  import FlamegraphBuilders

  /** The same location and sample as the flame graph sees them. */
  ghost function ToLines(lines: seq<Option<TableLine>>): seq<Option<Key>> {
    if lines == [] then [] else [if lines[0].Some? then lines[0].value.name else None] + ToLines(lines[1..])
  }

  ghost function ToLocation(l: TableLocation): Location {
    Location(l.address, if l.lines.Some? then Some(ToLines(l.lines.value)) else None)
  }

  ghost function ToLocations(locations: seq<Option<TableLocation>>): seq<Option<Location>> {
    if locations == [] then []
    else [if locations[0].Some? then Some(ToLocation(locations[0].value)) else None] + ToLocations(locations[1..])
  }

  ghost function ToSamples(samples: seq<TableSample>): seq<Sample> {
    if samples == [] then []
    else
      var s := samples[|samples| - 1];
      ToSamples(samples[..|samples| - 1]) + [Sample(ToLocations(s.locations), s.value)]
  }

  /** Every location that is left has lines, and every line that is left a function. */
  ghost predicate Symbolized(locations: seq<Option<TableLocation>>) {
    forall i :: 0 <= i < |locations| && locations[i].Some? ==> SymbolizedAt(locations[i].value)
  }

  ghost predicate SymbolizedAt(l: TableLocation) {
    l.lines.Some? && l.lines.value != [] && forall k :: 0 <= k < |l.lines.value| && l.lines.value[k].Some? ==>
      l.lines.value[k].value.name.Some?
  }

  /** The innermost location that is left has a frame, if any has. */
  ghost predicate FirstHasFrame(locations: seq<Option<Location>>) {
    Path(locations) != [] ==> forall i :: IsFirst(locations, i) ==> Frames(locations[i].value) != []
  }

  ghost predicate AllComparable(samples: seq<TableSample>) {
    forall i :: 0 <= i < |samples| ==>
      Symbolized(samples[i].locations) && FirstHasFrame(ToLocations(samples[i].locations))
  }

  ghost function LastOf(s: Stack): Option<Frame> {
    if s == [] then None else Some(Function(s[|s| - 1]))
  }

  lemma {:induction false} InnermostLine(lines: seq<Option<TableLine>>)
    requires forall k :: 0 <= k < |lines| && lines[k].Some? ==> lines[k].value.name.Some?
    ensures FirstName(lines) == LastOf(Reversed(ToLines(lines)))
  {
    if lines != [] {
      var k := ToLines(lines);
      assert k[1..] == ToLines(lines[1..]);
      InnermostLine(lines[1..]);
      if lines[0].None? {
        assert Reversed(k[1..]) + [] == Reversed(k[1..]);
      }
    }
  }

  lemma {:induction false} InnermostFrame(l: TableLocation)
    requires SymbolizedAt(l)
    ensures HasLines(ToLocation(l)) && InnermostOf(l) == LastOf(Frames(ToLocation(l)))
  {
    InnermostLine(l.lines.value);
  }

  /** The frame a sample ends in is the last one of its root-to-leaf stack. */
  lemma {:induction false} LeafIsLast(locations: seq<Option<TableLocation>>)
    requires Symbolized(locations) && FirstHasFrame(ToLocations(locations))
    ensures LeafOf(locations) == LastOf(Path(ToLocations(locations)))
  {
    if locations != [] {
      var all, rest := ToLocations(locations), ToLocations(locations[1..]);
      assert all[1..] == rest;
      if locations[0].None? {
        assert Path(rest) + [] == Path(rest);
        forall i | IsFirst(rest, i) ensures IsFirst(all, i + 1) {
          assert forall j :: 0 < j < i + 1 ==> all[j] == rest[j - 1];
        }
        assert FirstHasFrame(rest) by {
          forall i | Path(rest) != [] && IsFirst(rest, i) ensures Frames(rest[i].value) != [] {
            assert IsFirst(all, i + 1) && all[i + 1] == rest[i];
          }
        }
        LeafIsLast(locations[1..]);
      } else {
        var l := locations[0].value;
        InnermostFrame(l);
        assert IsFirst(all, 0);
        var frames := Frames(ToLocation(l));
        assert Path(all) == Path(rest) + frames;
      }
    }
  }

  /** The value of the stacks that end in a function. */
  ghost function EndsIn(ws: seq<Weighted>, f: Key): int {
    if ws == [] then 0
    else
      var w := ws[|ws| - 1];
      EndsIn(ws[..|ws| - 1], f) + (if LastOf(w.stack) == Some(Function(f)) then w.value else 0)
  }

  lemma {:induction false} LeafValueIsEndsIn(samples: seq<TableSample>, f: Key)
    requires AllComparable(samples)
    ensures LeafValue(samples, Function(f)) == EndsIn(Meaning(ToSamples(samples)), f)
    ensures |ToSamples(samples)| == |samples|
  {
    if samples != [] {
      hide LeafOf, Path, FirstHasFrame, Symbolized;
      var init, s := samples[..|samples| - 1], samples[|samples| - 1];
      LeafValueIsEndsIn(init, f);
      LeafIsLast(s.locations);
      var all, m := ToSamples(samples), Meaning(ToSamples(samples));
      assert all[..|all| - 1] == ToSamples(init);
      assert m[..|m| - 1] == Meaning(ToSamples(init));
    }
  }

  // The rows of the flame graph.

  /** The flat values of the first `n` rows that end in a function. */
  ghost function RowsFlat(path: seq<Stack>, flat: seq<int>, f: Key, n: nat): int
    requires n <= |path| == |flat|
  {
    if n == 0 then 0
    else RowsFlat(path, flat, f, n - 1) + (if LastOf(path[n - 1]) == Some(Function(f)) then flat[n - 1] else 0)
  }

  ghost function RowsEnding(path: seq<Stack>, ws: seq<Weighted>, f: Key, n: nat): int
    requires n <= |path|
  {
    if n == 0 then 0
    else RowsEnding(path, ws, f, n - 1) + (if LastOf(path[n - 1]) == Some(Function(f)) then Ending(ws, path[n - 1])
      else 0)
  }

  lemma {:induction false} RowsFlatIsEnding(ws: seq<Weighted>, path: seq<Stack>, flat: seq<int>, f: Key, n: nat)
    requires n <= |path| == |flat|
    requires forall i :: 0 <= i < |path| && path[i] != [] ==> flat[i] == Ending(ws, path[i])
    ensures RowsFlat(path, flat, f, n) == RowsEnding(path, ws, f, n)
  {
    if n > 0 {
      RowsFlatIsEnding(ws, path, flat, f, n - 1);
    }
  }

  lemma {:induction false} NothingEnds(path: seq<Stack>, f: Key, n: nat)
    requires n <= |path|
    ensures RowsEnding(path, [], f, n) == 0
  {
    if n > 0 {
      NothingEnds(path, f, n - 1);
    }
  }

  /** One more stack adds its value to the one row it ends in. */
  lemma {:induction false} RowsEndingSnoc(path: seq<Stack>, ws: seq<Weighted>, w: Weighted, f: Key, n: nat)
    requires n <= |path| && forall i, j :: 0 <= i < j < |path| ==> path[i] != path[j]
    ensures RowsEnding(path, ws + [w], f, n) ==
            RowsEnding(path, ws, f, n) + (if w.stack in path[..n] && LastOf(w.stack) == Some(Function(f)) then w.value
              else 0)
    decreases n
  {
    if n > 0 {
      RowsEndingSnoc(path, ws, w, f, n - 1);
      ThroughSnoc(ws, w, path[n - 1]);
      assert path[..n] == path[..n - 1] + [path[n - 1]];
    }
  }

  lemma {:induction false} RowsEndingIsEndsIn(path: seq<Stack>, ws: seq<Weighted>, f: Key)
    requires forall i, j :: 0 <= i < j < |path| ==> path[i] != path[j]
    requires forall i :: 0 <= i < |ws| ==> ws[i].stack in path
    ensures RowsEnding(path, ws, f, |path|) == EndsIn(ws, f)
    decreases |ws|
  {
    if ws == [] {
      NothingEnds(path, f, |path|);
    } else {
      var init, w := ws[..|ws| - 1], ws[|ws| - 1];
      RowsEndingIsEndsIn(path, init, f);
      RowsEndingSnoc(path, init, w, f, |path|);
      assert ws == init + [w] && path[..|path|] == path;
    }
  }

  /**
   For a symbolized profile the flat value the table gives a function is the sum of the flat values of
   all rows of that function in the untrimmed flame graph.
   */
  lemma {:induction false} TableMatchesFlamegraph(samples: seq<TableSample>, f: Key,
      path: seq<Stack>, cum: seq<int>, flat: seq<int>, depth: seq<int>)
    requires AllComparable(samples) && Faithful(Meaning(ToSamples(samples)), path, cum, flat, depth)
    ensures FlatOf(AllEvents(samples), Function(f)) == RowsFlat(path, flat, f, |path|)
  {
    hide AllComparable, Faithful, Meaning, ToSamples, FlatOf, RowsFlat;
    var ws := Meaning(ToSamples(samples));
    FlatIsLeafValue(samples, Function(f));
    LeafValueIsEndsIn(samples, f);
    StacksHaveRows(ws, path, cum, flat, depth);
    RowsEndingIsEndsIn(path, ws, f);
    RowsFlatIsEnding(ws, path, flat, f, |path|);
  }

  lemma {:induction false} StacksHaveRows(ws: seq<Weighted>, path: seq<Stack>, cum: seq<int>, flat: seq<int>,
      depth: seq<int>)
    requires Faithful(ws, path, cum, flat, depth)
    ensures forall i :: 0 <= i < |ws| ==> ws[i].stack in path
    ensures forall i, j :: 0 <= i < j < |path| ==> path[i] != path[j]
    ensures |flat| == |path| && forall i :: 0 <= i < |path| && path[i] != [] ==> flat[i] == Ending(ws, path[i])
  {
    forall i | 0 <= i < |ws| ensures ws[i].stack in path {
      assert Covers(path, ws[i].stack);
      assert ws[i].stack[..|ws[i].stack|] == ws[i].stack;
    }
  }

  // Totals.

  /** The sum of the first `n` rows' flat values in the table. */
  ghost function TableFlat(rows: seq<Frame>, samples: seq<TableSample>, n: nat): int
    requires n <= |rows|
  {
    if n == 0 then 0 else TableFlat(rows, samples, n - 1) + FlatOf(AllEvents(samples), rows[n - 1])
  }

  ghost function TableLeaves(rows: seq<Frame>, samples: seq<TableSample>, n: nat): int
    requires n <= |rows|
  {
    if n == 0 then 0 else TableLeaves(rows, samples, n - 1) + LeafValue(samples, rows[n - 1])
  }

  /** The value of the samples that end in some frame. */
  ghost function FramedValue(samples: seq<TableSample>): int {
    if samples == [] then 0
    else
      var s := samples[|samples| - 1];
      FramedValue(samples[..|samples| - 1]) + (if LeafOf(s.locations).Some? then s.value else 0)
  }

  lemma {:induction false} TableFlatIsLeaves(rows: seq<Frame>, samples: seq<TableSample>, n: nat)
    requires n <= |rows|
    ensures TableFlat(rows, samples, n) == TableLeaves(rows, samples, n)
  {
    if n > 0 {
      TableFlatIsLeaves(rows, samples, n - 1);
      FlatIsLeafValue(samples, rows[n - 1]);
    }
  }

  lemma {:induction false} TableLeavesSnoc(rows: seq<Frame>, samples: seq<TableSample>, s: TableSample, n: nat)
    requires n <= |rows| && forall i, j :: 0 <= i < j < |rows| ==> rows[i] != rows[j]
    ensures
      var leaf := LeafOf(s.locations);
      TableLeaves(rows, samples + [s], n) ==
      TableLeaves(rows, samples, n) + (if leaf.Some? && leaf.value in rows[..n] then s.value else 0)
    decreases n
  {
    if n > 0 {
      TableLeavesSnoc(rows, samples, s, n - 1);
      assert (samples + [s])[..|samples|] == samples;
      assert rows[..n] == rows[..n - 1] + [rows[n - 1]];
    }
  }

  lemma {:induction false} NoLeaves(rows: seq<Frame>, n: nat)
    requires n <= |rows|
    ensures TableLeaves(rows, [], n) == 0
  {
    if n > 0 {
      NoLeaves(rows, n - 1);
    }
  }

  lemma {:induction false} LeafVisited(visits: seq<Visit>, f: Frame, value: int)
    requires Leaves(visits, f, 1) != 0
    ensures exists e :: e in EventsOf(visits, value) && e.frame == f
  {
    var n := |visits| - 1;
    if visits[n].frame == f {
      var e := EventsOf(visits, value)[|EventsOf(visits[..n], value)|];
      assert e in EventsOf(visits, value) && e.frame == f;
    } else {
      LeafVisited(visits[..n], f, value);
      var e :| e in EventsOf(visits[..n], value) && e.frame == f;
      assert e in EventsOf(visits, value);
    }
  }

  /** The frame a sample ends in is among the rows of the table that holds its events. */
  lemma {:induction false} LeafHasRow(rows: seq<Frame>, samples: seq<TableSample>, i: nat)
    requires i < |samples| && forall e :: e in AllEvents(samples) ==> e.frame in rows
    ensures LeafOf(samples[i].locations).Some? ==> LeafOf(samples[i].locations).value in rows
    decreases |samples|
  {
    var init, s := samples[..|samples| - 1], samples[|samples| - 1];
    if i < |init| {
      assert forall e :: e in AllEvents(init) ==> e in AllEvents(samples);
      LeafHasRow(rows, init, i);
    } else if LeafOf(s.locations).Some? {
      var visits, f := Visits(s.locations, |s.locations|), LeafOf(s.locations).value;
      SampleLeaves(s.locations, |s.locations|, f, 1);
      if !FirstBelow(s.locations, |s.locations|) {
        NoLeaf(s.locations);
      }
      LeafVisited(visits, f, s.value);
      var e :| e in EventsOf(visits, s.value) && e.frame == f;
      assert e in AllEvents(samples);
    }
  }

  lemma {:induction false} LeavesAreFramed(rows: seq<Frame>, samples: seq<TableSample>)
    requires forall i, j :: 0 <= i < j < |rows| ==> rows[i] != rows[j]
    requires forall i :: 0 <= i < |samples| && LeafOf(samples[i].locations).Some? ==>
      LeafOf(samples[i].locations).value in rows
    ensures TableLeaves(rows, samples, |rows|) == FramedValue(samples)
    decreases |samples|
  {
    if samples == [] {
      NoLeaves(rows, |rows|);
    } else {
      var init, s := samples[..|samples| - 1], samples[|samples| - 1];
      LeavesAreFramed(rows, init);
      TableLeavesSnoc(rows, init, s, |rows|);
      assert samples == init + [s] && rows[..|rows|] == rows;
    }
  }

  /** The flat column of the table adds up to the value of the samples that end in a frame. */
  lemma {:induction false} TableTotal(rows: seq<Frame>, samples: seq<TableSample>)
    requires forall i, j :: 0 <= i < j < |rows| ==> rows[i] != rows[j]
    requires forall e :: e in AllEvents(samples) ==> e.frame in rows
    ensures TableFlat(rows, samples, |rows|) == FramedValue(samples)
  {
    TableFlatIsLeaves(rows, samples, |rows|);
    forall i | 0 <= i < |samples|
      && LeafOf(samples[i].locations).Some? ensures LeafOf(samples[i].locations).value in rows {
      LeafHasRow(rows, samples, i);
    }
    LeavesAreFramed(rows, samples);
  }

  lemma {:induction false} FramedIsNonEmpty(samples: seq<TableSample>)
    requires AllComparable(samples)
    ensures FramedValue(samples) == NonEmptyValue(Meaning(ToSamples(samples)))
    ensures |ToSamples(samples)| == |samples|
  {
    if samples != [] {
      hide LeafOf, Path, FirstHasFrame, Symbolized;
      var init, s := samples[..|samples| - 1], samples[|samples| - 1];
      FramedIsNonEmpty(init);
      LeafIsLast(s.locations);
      var all, m := ToSamples(samples), Meaning(ToSamples(samples));
      assert all[..|all| - 1] == ToSamples(init);
      assert m[..|m| - 1] == Meaning(ToSamples(init));
    }
  }

  /** Both reports' flat values add up to the value of the samples with a non-empty stack. */
  lemma {:induction false} TotalsAgree(rows: seq<Frame>, samples: seq<TableSample>,
      path: seq<Stack>, cum: seq<int>, flat: seq<int>, depth: seq<int>)
    requires AllComparable(samples) && Faithful(Meaning(ToSamples(samples)), path, cum, flat, depth)
    requires forall i, j :: 0 <= i < j < |rows| ==> rows[i] != rows[j]
    requires forall e :: e in AllEvents(samples) ==> e.frame in rows
    ensures TableFlat(rows, samples, |rows|) == GraphFlat(path, Meaning(ToSamples(samples)), |path|)
    ensures TableFlat(rows, samples, |rows|) == NonEmptyValue(Meaning(ToSamples(samples)))
  {
    var ws := Meaning(ToSamples(samples));
    TableTotal(rows, samples);
    FramedIsNonEmpty(samples);
    forall i | 0 <= i < |ws| ensures ws[i].stack in path {
      assert Covers(path, ws[i].stack);
      assert ws[i].stack[..|ws[i].stack|] == ws[i].stack;
    }
    GraphTotal(path, ws);
  }

  // The two builders.

  /** The flat value that the table built so far shows for a function. */
  ghost function TableFlatOf(tb: QueryTables.TableBuilder, f: Key): int
    requires tb.Valid()
    reads tb
  {
    FlatInRange(tb, Function(f));
    match QueryTables.RowOf(tb.functions, tb.addresses, Function(f))
    case None => 0
    case Some(i) => tb.builderFlat[i]
  }

  lemma {:induction false} FlatInRange(tb: QueryTables.TableBuilder, f: Frame)
    requires tb.Valid()
    ensures
      var row := QueryTables.RowOf(tb.functions, tb.addresses, f);
      && (row.Some? ==> 0 <= row.value < |tb.builderFlat| && tb.builderFlat[row.value] == FlatOf(tb.events, f))
      && (row.None? ==> FlatOf(tb.events, f) == 0)
  {
    hide QueryTables.Related;
    if QueryTables.RowOf(tb.functions, tb.addresses, f).None? {
      assert f !in tb.rows;
      NoEvents(tb.events, f);
    }
  }

  /** The flat values that the flame graph built so far shows in the rows of a function. */
  ghost function GraphFlatOf(fb: FlamegraphBuilders.FlamegraphBuilder, f: Key): int
    requires |fb.path| == |fb.builderFlat|
    reads fb
  {
    RowsFlat(fb.path, fb.builderFlat, f, |fb.path|)
  }

  /** A table builder and a flame graph builder that were given the same samples. */
  ghost predicate SameSamples(tb: QueryTables.TableBuilder, fb: FlamegraphBuilders.FlamegraphBuilder,
      samples: seq<TableSample>)
    reads tb, fb
  {
    && tb.Valid() && tb.events == AllEvents(samples)
    && fb.Valid() && fb.added == Meaning(ToSamples(samples))
  }

  /** Given the same symbolized samples, both builders' columns hold the same flat value for every function. */
  lemma {:induction false} BuildersAgree(tb: QueryTables.TableBuilder, fb: FlamegraphBuilders.FlamegraphBuilder,
      samples: seq<TableSample>, f: Key)
    requires SameSamples(tb, fb, samples) && AllComparable(samples)
    ensures |fb.path| == |fb.builderFlat| && TableFlatOf(tb, f) == GraphFlatOf(fb, f)
  {
    FlamegraphWalk.RowsMatchStacks(fb.Contents(), fb.path, fb.up, fb.added);
    FlatInRange(tb, Function(f));
    assert Faithful(fb.added, fb.path, fb.builderCumulative, fb.builderFlat, fb.builderDepth);
    TableMatchesFlamegraph(samples, f, fb.path, fb.builderCumulative, fb.builderFlat, fb.builderDepth);
  }

  /** And both flat columns add up to the value of the samples with a non-empty stack. */
  lemma {:induction false} BuilderTotalsAgree(tb: QueryTables.TableBuilder, fb: FlamegraphBuilders.FlamegraphBuilder,
      samples: seq<TableSample>)
    requires SameSamples(tb, fb, samples) && AllComparable(samples)
    ensures FlamegraphWalk.SumAll(tb.builderFlat) == FlamegraphWalk.SumAll(fb.builderFlat) == NonEmptyValue(fb.added)
  {
    FlamegraphWalk.FlatTotal(fb.Contents(), fb.path, fb.up, fb.added);
    FlamegraphWalk.RowsMatchStacks(fb.Contents(), fb.path, fb.up, fb.added);
    QueryTables.IndexedDistinct(tb.rows, tb.functions, tb.addresses);
    TotalsAgree(tb.rows, samples, fb.path, fb.builderCumulative, fb.builderFlat, fb.builderDepth);
    SumIsTableFlat(tb.rows, samples, tb.builderFlat, |tb.rows|);
    assert tb.builderFlat[..|tb.rows|] == tb.builderFlat;
  }

  lemma {:induction false} SumIsTableFlat(rows: seq<Frame>, samples: seq<TableSample>, flat: seq<int>, n: nat)
    requires n <= |rows| == |flat| && forall i :: 0 <= i < n ==> flat[i] == FlatOf(AllEvents(samples), rows[i])
    ensures FlamegraphWalk.SumAll(flat[..n]) == TableFlat(rows, samples, n)
  {
    if n > 0 {
      SumIsTableFlat(rows, samples, flat, n - 1);
      assert flat[..n][..n - 1] == flat[..n - 1];
    }
  }
}
