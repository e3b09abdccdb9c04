/** The two reports of a filtered query: what the filter leaves, both builders add exactly. */
module FilteredReports {
  import opened Options
  import opened Profiles
  import opened TableSpec
  import opened FrameFilters
  import opened TableAgreement
  import FlamegraphTrie
  import QueryTables
  import FlamegraphWalk
  import FlamegraphBuilders

  ghost predicate RowsIn(r: Record, rows: seq<int>) {
    forall k :: 0 <= k < |rows| ==> 0 <= rows[k] < |r.values|
  }

  /** The given rows of a record, as the flame graph reads them. */
  ghost function FrameRows(r: Record, b: Bits, rows: seq<int>): (s: seq<Sample>)
    requires WellFormed(r) && Fits(r, b) && RowsIn(r, rows)
    ensures |s| == |rows| && forall k :: 0 <= k < |s| ==> s[k] == FrameSample(r, b, rows[k])
  {
    seq(|rows|, k requires 0 <= k < |rows| => FrameSample(r, b, rows[k]))
  }

  /** The given rows of a record, as the table reads them. */
  ghost function NamedRows(r: Record, b: Bits, rows: seq<int>): (s: seq<TableSample>)
    requires WellFormed(r) && Fits(r, b) && RowsIn(r, rows)
    ensures |s| == |rows| && forall k :: 0 <= k < |s| ==> s[k] == NamedSample(r, b, rows[k])
  {
    seq(|rows|, k requires 0 <= k < |rows| => NamedSample(r, b, rows[k]))
  }

  lemma {:induction false} SliceRows(r: Record, b: Bits, lo: nat, hi: nat)
    requires WellFormed(r) && Fits(r, b) && lo <= hi <= |r.values|
    ensures WellFormed(Slice(r, lo, hi)) && Fits(Slice(r, lo, hi), b)
    ensures FrameSamples(Slice(r, lo, hi), b) == FrameRows(r, b, Range(lo, hi))
    ensures NamedSamples(Slice(r, lo, hi), b) == NamedRows(r, b, Range(lo, hi))
  {
    SliceWellFormed(r, lo, hi);
    var s := Slice(r, lo, hi);
    forall i | 0 <= i < hi - lo
      ensures FrameSample(s, b, i) == FrameSample(r, b, lo + i) && NamedSample(s, b, i) == NamedSample(r, b, lo + i)
    {
      SliceRow(r, b, lo, hi, i);
    }
    hide FrameSample, NamedSample;
  }

  lemma {:induction false} SliceRow(r: Record, b: Bits, lo: nat, hi: nat, i: nat)
    requires WellFormed(r) && Fits(r, b) && lo <= hi <= |r.values| && i < hi - lo
    requires WellFormed(Slice(r, lo, hi))
    ensures FrameSample(Slice(r, lo, hi), b, i) == FrameSample(r, b, lo + i)
    ensures NamedSample(Slice(r, lo, hi), b, i) == NamedSample(r, b, lo + i)
  {
    var s := Slice(r, lo, hi);
    OffsetsInRange(r, lo + i, 0);
    forall j | 0 <= j < |r.addresses|
      ensures FrameLocation(s, b, j) == FrameLocation(r, b, j) && NamedLocation(s, b, j) == NamedLocation(r, b, j)
    {
    }
    hide FrameLocation, NamedLocation;
    assert FrameSample(s, b, i).locations == FrameSample(r, b, lo + i).locations;
    assert NamedSample(s, b, i).locations == NamedSample(r, b, lo + i).locations;
  }

  lemma {:induction false} MeaningConcat(a: seq<Sample>, b: seq<Sample>)
    ensures Meaning(a + b) == Meaning(a) + Meaning(b)
  {
    var c := a + b;
    assert forall i :: 0 <= i < |c| ==> Meaning(c)[i] == (Meaning(a) + Meaning(b))[i];
  }

  lemma {:induction false} TotalConcat(a: seq<Weighted>, b: seq<Weighted>)
    ensures Total(a + b) == Total(a) + Total(b)
    decreases |b|
  {
    if b == [] {
      assert a + b == a;
    } else {
      TotalConcat(a, b[..|b| - 1]);
      assert (a + b)[..|a + b| - 1] == a + b[..|b| - 1];
    }
  }

  lemma {:induction false} AllEventsConcat(a: seq<TableSample>, b: seq<TableSample>)
    ensures AllEvents(a + b) == AllEvents(a) + AllEvents(b)
    decreases |b|
  {
    hide AllEvents, EventsOf, Visits;
    QueryTables.NoSamples();
    if b == [] {
      assert a + b == a && b == [];
    } else {
      var init, last := b[..|b| - 1], b[|b| - 1];
      AllEventsConcat(a, init);
      AllEventsSnoc(a + init, last);
      AllEventsSnoc(init, last);
      assert a + b == (a + init) + [last] && b == init + [last];
      Regroup(AllEvents(a), AllEvents(init), EventsOf(Visits(last.locations, |last.locations|), last.value));
    }
  }

  lemma RowsConcat(r: Record, b: Bits, x: seq<int>, y: seq<int>)
    requires WellFormed(r) && Fits(r, b) && RowsIn(r, x) && RowsIn(r, y)
    ensures RowsIn(r, x + y)
    ensures FrameRows(r, b, x + y) == FrameRows(r, b, x) + FrameRows(r, b, y)
    ensures NamedRows(r, b, x + y) == NamedRows(r, b, x) + NamedRows(r, b, y)
  {
  }

  /** The samples of one slice, behind those of the slices before. */
  lemma {:induction false} SliceAdded(r: Record, b: Bits, ranges: seq<(nat, nat)>, stack: int -> bool, k: nat)
    requires WellFormed(r) && KeptRanges(r, b, ranges, stack) && k < |ranges| && ranges[k].0 < ranges[k].1
    requires Ascends(ranges[..k]) && RowsIn(r, Flatten(ranges[..k]))
    ensures ranges[k].1 <= |r.values| < |r.locationOffsets|
    ensures
      var s := Slice(r, ranges[k].0, ranges[k].1);
      && WellFormed(s) && Fits(s, b) && AllAnchored(FrameSamples(s, b))
      && Ascends(ranges[..k + 1]) && RowsIn(r, Flatten(ranges[..k + 1]))
      && FrameRows(r, b, Flatten(ranges[..k + 1])) == FrameRows(r, b, Flatten(ranges[..k])) + FrameSamples(s, b)
      && NamedRows(r, b, Flatten(ranges[..k + 1])) == NamedRows(r, b, Flatten(ranges[..k])) + NamedSamples(s, b)
  {
    KeptRange(r, b, ranges, stack, k);
    var (lo, hi) := ranges[k];
    SliceRows(r, b, lo, hi);
    RangeAnchored(r, b, ranges, stack, lo, hi);
    hide FrameSample, NamedSample, FrameSamples, NamedSamples, WellFormed, Fits, KeptRanges;
    assert ranges[..k + 1] == ranges[..k] + [ranges[k]];
    FlattenSnoc(ranges[..k], ranges[k]);
    RowsConcat(r, b, Flatten(ranges[..k]), Range(lo, hi));
  }

  lemma {:induction false} RangeAnchored(r: Record, b: Bits, ranges: seq<(nat, nat)>, stack: int -> bool,
      lo: nat, hi: nat)
    requires WellFormed(r) && KeptRanges(r, b, ranges, stack) && lo <= hi <= |r.values|
    requires forall i :: lo <= i < hi ==> stack(i)
    ensures AllAnchored(FrameRows(r, b, Range(lo, hi)))
  {
    forall i | 0 <= i < hi - lo ensures Anchored(FrameRows(r, b, Range(lo, hi))[i].locations) {
      ShownIsAnchored(r, b, lo + i);
    }
  }

  // Symbolized records.

  /** Every location has lines, and every line a function whose name is its key. */
  ghost predicate SymbolizedRecord(r: Record)
    requires WellFormed(r)
  {
    && (forall j :: 0 <= j < |r.addresses| ==> r.hasLines[j] && r.lineOffsets[j] < r.lineOffsets[j + 1])
    && (forall k :: 0 <= k < |r.keys| ==> r.names[k] == Some(r.keys[k]))
  }

  lemma {:induction false} ToLinesAt(lines: seq<Option<TableLine>>)
    ensures |ToLines(lines)| == |lines|
    ensures forall k :: 0 <= k < |lines| ==>
      ToLines(lines)[k] == if lines[k].Some? then lines[k].value.name else None
  {
    if lines != [] {
      ToLinesAt(lines[1..]);
    }
  }

  lemma {:induction false} ToLocationsAt(locations: seq<Option<TableLocation>>)
    ensures |ToLocations(locations)| == |locations|
    ensures forall k :: 0 <= k < |locations| ==>
      ToLocations(locations)[k] == if locations[k].Some? then Some(ToLocation(locations[k].value)) else None
  {
    hide ToLocation;
    if locations != [] {
      ToLocationsAt(locations[1..]);
    }
  }

  lemma {:induction false} ToSamplesAt(samples: seq<TableSample>)
    ensures |ToSamples(samples)| == |samples|
    ensures forall k :: 0 <= k < |samples| ==>
      ToSamples(samples)[k] == Sample(ToLocations(samples[k].locations), samples[k].value)
  {
    hide ToLocations;
    if samples != [] {
      ToSamplesAt(samples[..|samples| - 1]);
    }
  }

  lemma {:induction false} SameLocation(r: Record, b: Bits, j: nat)
    requires WellFormed(r) && Fits(r, b) && SymbolizedRecord(r) && j < |r.addresses|
    ensures ToLocation(NamedLocation(r, b, j)) == FrameLocation(r, b, j) && SymbolizedAt(NamedLocation(r, b, j))
  {
    OffsetsInRange(r, 0, j);
    var named, frame := NamedLocation(r, b, j), FrameLocation(r, b, j);
    ToLinesAt(named.lines.value);
    assert ToLines(named.lines.value) == frame.lines.value;
  }

  /** Both reports read the same sample. */
  lemma {:induction false} SameSample(r: Record, b: Bits, i: nat)
    requires WellFormed(r) && Fits(r, b) && SymbolizedRecord(r) && i < |r.values|
    ensures ToLocations(NamedSample(r, b, i).locations) == FrameSample(r, b, i).locations
    ensures Symbolized(NamedSample(r, b, i).locations)
  {
    OffsetsInRange(r, i, 0);
    var named, frame, lo := NamedSample(r, b, i).locations, FrameSample(r, b, i).locations, r.locationOffsets[i];
    ToLocationsAt(named);
    forall j | 0 <= j < |named| && named[j].Some?
      ensures Some(ToLocation(named[j].value)) == frame[j] && SymbolizedAt(named[j].value)
    {
      SameLocation(r, b, lo + j);
    }
    hide ToLocation, ToLocations, SymbolizedAt;
    assert ToLocations(named) == frame;
  }

  /** Rows that show their frames can be compared in the two reports. */
  lemma {:induction false} RowsComparable(r: Record, b: Bits, rows: seq<int>)
    requires WellFormed(r) && Fits(r, b) && SymbolizedRecord(r) && RowsIn(r, rows)
    requires forall k :: 0 <= k < |rows| ==> RowShown(r, b, rows[k])
    ensures AllComparable(NamedRows(r, b, rows)) && ToSamples(NamedRows(r, b, rows)) == FrameRows(r, b, rows)
  {
    var named, frames := NamedRows(r, b, rows), FrameRows(r, b, rows);
    ToSamplesAt(named);
    forall k | 0 <= k < |rows|
      ensures Symbolized(named[k].locations) && FirstHasFrame(ToLocations(named[k].locations))
      ensures ToLocations(named[k].locations) == frames[k].locations && named[k].value == frames[k].value
    {
      SameSample(r, b, rows[k]);
      ShownIsAnchored(r, b, rows[k]);
      hide Path, Frames, Symbolized;
    }
    hide Symbolized, FirstHasFrame, ToLocations, NamedSample, FrameSample, WellFormed, RowShown;
    assert ToSamples(named) == frames;
  }

  /** The rows that a query keeps. */
  function Kept(stack: int -> bool, sandwich: Option<int -> bool>): int -> bool {
    if sandwich.Some? then Both(stack, sandwich.value) else stack
  }

  /** The builder was given exactly these samples, and its rows and its total say what they say. */
  ghost predicate GraphOf(fb: FlamegraphBuilders.FlamegraphBuilder, samples: seq<Sample>)
    reads fb
  {
    fb.Valid() && fb.added == Meaning(samples) && fb.cumulative == Total(fb.added)
  }

  ghost predicate TableOf(tb: QueryTables.TableBuilder, samples: seq<TableSample>)
    reads tb
  {
    tb.Valid() && tb.events == AllEvents(samples)
  }

  /** What the filter left of the rows that a query keeps is what both builders were given. */
  ghost predicate Built(r: Record, b: Bits, rows: seq<int>, fb: FlamegraphBuilders.FlamegraphBuilder,
      tb: QueryTables.TableBuilder)
    requires WellFormed(r)
    reads fb, tb
  {
    && Fits(r, b) && RowsIn(r, rows)
    && GraphOf(fb, FrameRows(r, b, rows)) && TableOf(tb, NamedRows(r, b, rows))
  }

  /** Adds the slices of a filtered record to both builders. */
  method AddSlices(r: Record, b: Bits, ranges: seq<(nat, nat)>, stack: int -> bool)
    returns (fb: FlamegraphBuilders.FlamegraphBuilder, tb: QueryTables.TableBuilder)
    requires WellFormed(r) && KeptRanges(r, b, ranges, stack)
    requires forall k :: 0 <= k < |ranges| ==> ranges[k].0 < ranges[k].1
    ensures fresh(fb) && fresh(tb)
    ensures Built(r, b, Matching(Range(0, |r.values|), stack), fb, tb)
  {
    fb := new FlamegraphBuilders.FlamegraphBuilder(|r.values|);
    tb := new QueryTables.TableBuilder(|r.values|);
    KeptFlatten(r, b, ranges, stack);
    NothingBuilt(r, b, ranges, fb, tb);
    hide WellFormed, KeptRanges, Flatten, Matching, Built, Ascends;
    for k := 0 to |ranges|
      invariant Ascends(ranges[..k]) && Built(r, b, Flatten(ranges[..k]), fb, tb) && fresh(fb) && fresh(tb)
    {
      AddSlice(r, b, ranges, stack, k, fb, tb);
    }
    assert ranges[..|ranges|] == ranges;
  }

  /** Adds the k-th slice, with its samples as each report reads them. */
  method AddSlice(r: Record, b: Bits, ranges: seq<(nat, nat)>, stack: int -> bool, k: nat,
      fb: FlamegraphBuilders.FlamegraphBuilder, tb: QueryTables.TableBuilder)
    requires WellFormed(r) && KeptRanges(r, b, ranges, stack) && k < |ranges| && ranges[k].0 < ranges[k].1
    requires Ascends(ranges[..k]) && Built(r, b, Flatten(ranges[..k]), fb, tb)
    modifies fb, tb
    ensures Ascends(ranges[..k + 1]) && Built(r, b, Flatten(ranges[..k + 1]), fb, tb)
  {
    hide *;
    BuiltParts(r, b, Flatten(ranges[..k]), fb, tb);
    SliceAdded(r, b, ranges, stack, k);
    var slice := Slice(r, ranges[k].0, ranges[k].1);
    AddToGraph(fb, FrameRows(r, b, Flatten(ranges[..k])), FrameSamples(slice, b));
    AddToTable(tb, NamedRows(r, b, Flatten(ranges[..k])), NamedSamples(slice, b));
    BuiltParts(r, b, Flatten(ranges[..k + 1]), fb, tb);
  }

  lemma BuiltParts(r: Record, b: Bits, rows: seq<int>, fb: FlamegraphBuilders.FlamegraphBuilder,
      tb: QueryTables.TableBuilder)
    requires WellFormed(r)
    ensures Built(r, b, rows, fb, tb) <==>
      && Fits(r, b) && RowsIn(r, rows)
      && GraphOf(fb, FrameRows(r, b, rows)) && TableOf(tb, NamedRows(r, b, rows))
  {
    hide GraphOf, TableOf;
  }

  method AddToGraph(fb: FlamegraphBuilders.FlamegraphBuilder, ghost before: seq<Sample>, samples: seq<Sample>)
    requires GraphOf(fb, before) && AllAnchored(samples)
    modifies fb
    ensures GraphOf(fb, before + samples)
  {
    MeaningConcat(before, samples);
    TotalConcat(Meaning(before), Meaning(samples));
    GraphSound(fb, before);
    hide FlamegraphWalk.Sound, FlamegraphWalk.Exact, FlamegraphBuilders.AddedSamples, Meaning, Total, AllAnchored;
    fb.AddRecord(samples);
  }

  lemma GraphSound(fb: FlamegraphBuilders.FlamegraphBuilder, samples: seq<Sample>)
    requires GraphOf(fb, samples)
    ensures FlamegraphWalk.Sound(fb.Contents())
  {
  }

  method AddToTable(tb: QueryTables.TableBuilder, ghost before: seq<TableSample>, samples: seq<TableSample>)
    requires TableOf(tb, before)
    modifies tb
    ensures TableOf(tb, before + samples)
  {
    AllEventsConcat(before, samples);
    hide QueryTables.Indexed, QueryTables.Columns, QueryTables.Related, AllEvents;
    tb.AddRecord(samples);
  }

  lemma NothingBuilt(r: Record, b: Bits, ranges: seq<(nat, nat)>, fb: FlamegraphBuilders.FlamegraphBuilder,
      tb: QueryTables.TableBuilder)
    requires WellFormed(r) && Fits(r, b)
    requires fb.Valid() && fb.added == [] && fb.cumulative == 0 && tb.Valid() && tb.events == []
    ensures Ascends(ranges[..0]) && Built(r, b, Flatten(ranges[..0]), fb, tb)
  {
  }

  /** Both reports show the same flat value for every function. */
  ghost predicate ReportsAgree(fb: FlamegraphBuilders.FlamegraphBuilder, tb: QueryTables.TableBuilder)
    requires tb.Valid()
    reads fb, tb
  {
    && |fb.path| == |fb.builderFlat|
    && (forall f :: TableFlatOf(tb, f) == GraphFlatOf(fb, f))
    && FlamegraphWalk.SumAll(tb.builderFlat) == FlamegraphWalk.SumAll(fb.builderFlat)
  }

  lemma {:induction false} KeptShown(r: Record, b: Bits, ranges: seq<(nat, nat)>, stack: int -> bool)
    requires WellFormed(r) && KeptRanges(r, b, ranges, stack)
    ensures
      var rows := Matching(Range(0, |r.values|), stack);
      Fits(r, b) && RowsIn(r, rows) && forall k :: 0 <= k < |rows| ==> RowShown(r, b, rows[k])
  {
    var rows := Matching(Range(0, |r.values|), stack);
    MatchingIn(Range(0, |r.values|), stack);
    hide RowShown;
    forall k | 0 <= k < |rows| ensures 0 <= rows[k] < |r.values| && stack(rows[k]) {
      assert rows[k] in rows;
    }
  }

  lemma {:induction false} BuiltAgree(r: Record, b: Bits, ranges: seq<(nat, nat)>, stack: int -> bool,
      fb: FlamegraphBuilders.FlamegraphBuilder, tb: QueryTables.TableBuilder)
    requires WellFormed(r) && KeptRanges(r, b, ranges, stack) && SymbolizedRecord(r)
    requires Built(r, b, Matching(Range(0, |r.values|), stack), fb, tb)
    ensures tb.Valid() && ReportsAgree(fb, tb)
  {
    KeptShown(r, b, ranges, stack);
    var rows := Matching(Range(0, |r.values|), stack);
    hide WellFormed, KeptRanges, RowShown, SymbolizedRecord, Matching, Range, RowsIn, AllComparable, GraphOf, TableOf,
         ReportsAgree;
    RowsComparable(r, b, rows);
    AllAgree(NamedRows(r, b, rows), fb, tb);
  }

  lemma {:induction false} AllAgree(samples: seq<TableSample>, fb: FlamegraphBuilders.FlamegraphBuilder,
      tb: QueryTables.TableBuilder)
    requires AllComparable(samples) && GraphOf(fb, ToSamples(samples)) && TableOf(tb, samples)
    ensures tb.Valid() && ReportsAgree(fb, tb)
  {
    hide AllComparable, Meaning, AllEvents, FlamegraphWalk.Exact, QueryTables.Indexed, QueryTables.Columns,
         QueryTables.Related, TableFlatOf, GraphFlatOf, FlamegraphWalk.SumAll;
    BuildersAgree(tb, fb, samples, 0);
    forall f ensures TableFlatOf(tb, f) == GraphFlatOf(fb, f) {
      BuildersAgree(tb, fb, samples, f);
    }
    BuilderTotalsAgree(tb, fb, samples);
  }

  /**
   Filters a record as it was written and builds both reports of what is left. Every sample is added
   exactly, without any assumption about the filter; both reports of a symbolized record agree.
   */
  method BuildReports(r: Record, locationValid: array<bool>, lineValid: array<bool>, stack: int -> bool,
      sandwich: Option<int -> bool>, frame: (int, int) -> bool)
    returns (fb: FlamegraphBuilders.FlamegraphBuilder, tb: QueryTables.TableBuilder)
    requires WellFormed(r) && locationValid != lineValid
    requires locationValid.Length == |r.addresses| && lineValid.Length == |r.keys|
    requires Complete(r, Bits(locationValid[..], lineValid[..]))
    modifies locationValid, lineValid
    ensures fresh(fb) && fresh(tb)
    ensures Filtered(r, old(Bits(locationValid[..], lineValid[..])), Bits(locationValid[..], lineValid[..]),
                     stack, frame, |r.values|)
    ensures Built(r, Bits(locationValid[..], lineValid[..]), Matching(Range(0, |r.values|), Kept(stack, sandwich)),
                  fb, tb)
    ensures tb.Valid() && (SymbolizedRecord(r) ==> ReportsAgree(fb, tb))
  {
    CompleteIsIntact(r, Bits(locationValid[..], lineValid[..]), frame);
    var ranges := FilterQuery(r, locationValid, lineValid, stack, sandwich, frame);
    var b := Bits(locationValid[..], lineValid[..]);
    hide WellFormed, Complete, Filtered, Intact, KeptRanges, Matching, SymbolizedRecord, ReportsAgree;
    fb, tb := AddSlices(r, b, ranges, Kept(stack, sandwich));
    if SymbolizedRecord(r) {
      BuiltAgree(r, b, ranges, Kept(stack, sandwich), fb, tb);
    }
  }
}
