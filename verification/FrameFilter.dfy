/**
 The filter of a query, on the validity bits of a record: a row is kept if its stack matches, and in the
 kept rows every line and every location without a matching frame becomes null.
 */
module FrameFilters {
  import opened Options
  import opened Profiles
  import opened TableSpec
  import opened StackWalk

  /**
   The columns of a record. Row i has the locations from locationOffsets[i] on and below the next offset;
   location j has the lines from lineOffsets[j] on and below the next one.
   */
  datatype Record = Record(
    values: seq<int>, locationOffsets: seq<nat>,
    buildIds: seq<string>, addresses: seq<Key>, hasLines: seq<bool>, lineOffsets: seq<nat>,
    keys: seq<Key>, names: seq<Option<Key>>)

  /** Which locations and lines are not null. */
  datatype Bits = Bits(locations: seq<bool>, lines: seq<bool>)

  ghost predicate Ascending(s: seq<nat>) {
    forall i, j :: 0 <= i <= j < |s| ==> s[i] <= s[j]
  }

  ghost predicate WellFormed(r: Record) {
    && |r.locationOffsets| == |r.values| + 1 && Ascending(r.locationOffsets)
    && r.locationOffsets[|r.values|] <= |r.addresses| == |r.buildIds| == |r.hasLines|
    && |r.lineOffsets| == |r.addresses| + 1 && Ascending(r.lineOffsets)
    && r.lineOffsets[|r.addresses|] <= |r.keys| == |r.names|
    && (forall j :: 0 <= j < |r.addresses| && !r.hasLines[j] ==> r.lineOffsets[j] == r.lineOffsets[j + 1])
  }

  ghost predicate Fits(r: Record, b: Bits) {
    |b.locations| == |r.addresses| && |b.lines| == |r.keys|
  }

  ghost predicate LineOf(r: Record, j: int, k: int)
    requires WellFormed(r) && 0 <= j < |r.addresses|
  {
    r.lineOffsets[j] <= k < r.lineOffsets[j + 1]
  }

  lemma OffsetsInRange(r: Record, i: nat, j: nat)
    requires WellFormed(r)
    ensures i < |r.values| ==> r.locationOffsets[i] <= r.locationOffsets[i + 1] <= |r.addresses|
    ensures j < |r.addresses| ==> r.lineOffsets[j] <= r.lineOffsets[j + 1] <= |r.keys|
  {
  }

  /** A line belongs to one location. */
  lemma OwnerIsUnique(r: Record, i: nat, j: nat, k: nat)
    requires WellFormed(r) && i < |r.addresses| && j < |r.addresses| && LineOf(r, i, k) && LineOf(r, j, k)
    ensures i == j
  {
  }

  // What one pass leaves.

  /** Some frame of the location matches; without lines it is asked for the location alone. */
  ghost predicate Passes(r: Record, j: int, frame: (int, int) -> bool)
    requires WellFormed(r) && 0 <= j < |r.addresses|
  {
    if r.lineOffsets[j] == r.lineOffsets[j + 1] then frame(j, -1) else exists k :: LineOf(r, j, k) && frame(j, k)
  }

  ghost predicate LocationStays(r: Record, frame: (int, int) -> bool, a: int, b: int, j: int)
    requires WellFormed(r) && 0 <= j < |r.addresses|
  {
    a <= j < b ==> Passes(r, j, frame)
  }

  ghost predicate LineStays(r: Record, frame: (int, int) -> bool, a: int, b: int, k: int)
    requires WellFormed(r) && 0 <= a <= b <= |r.addresses|
  {
    forall j :: a <= j < b && LineOf(r, j, k) ==> frame(j, k)
  }

  /** The bits after the locations from a up to b were filtered. */
  ghost predicate RangeFiltered(r: Record, before: Bits, after: Bits, frame: (int, int) -> bool, a: int, b: int)
    requires WellFormed(r) && 0 <= a <= b <= |r.addresses|
  {
    && Fits(r, before) && Fits(r, after)
    && (forall j :: 0 <= j < |r.addresses| ==>
          (after.locations[j] <==> before.locations[j] && LocationStays(r, frame, a, b, j)))
    && (forall k :: 0 <= k < |r.keys| ==> (after.lines[k] <==> before.lines[k] && LineStays(r, frame, a, b, k)))
  }

  /** Location j is in one of the kept rows below n. */
  ghost predicate InKept(r: Record, stack: int -> bool, n: int, j: int)
    requires WellFormed(r) && n <= |r.values|
  {
    exists i :: 0 <= i < n && stack(i) && r.locationOffsets[i] <= j < r.locationOffsets[i + 1]
  }

  /** The bits after the first n rows were filtered: kept rows lose what does not match, nothing else changes. */
  ghost predicate Filtered(r: Record, before: Bits, after: Bits, stack: int -> bool, frame: (int, int) -> bool, n: int)
    requires WellFormed(r) && n <= |r.values|
  {
    && Fits(r, before) && Fits(r, after)
    && (forall j :: 0 <= j < |r.addresses| ==>
          (after.locations[j] <==> before.locations[j] && (InKept(r, stack, n, j) ==> Passes(r, j, frame))))
    && (forall k :: 0 <= k < |r.keys| ==>
          (after.lines[k] <==> before.lines[k] && LineKept(r, stack, frame, n, k)))
  }

  ghost predicate LineKept(r: Record, stack: int -> bool, frame: (int, int) -> bool, n: int, k: int)
    requires WellFormed(r) && n <= |r.values|
  {
    forall j :: 0 <= j < |r.addresses| && LineOf(r, j, k) && InKept(r, stack, n, j) ==> frame(j, k)
  }

  /** The rows of a list that match, in order. */
  function Matching(rows: seq<int>, stack: int -> bool): seq<int> {
    if rows == [] then []
    else
      var last := rows[|rows| - 1];
      Matching(rows[..|rows| - 1], stack) + (if stack(last) then [last] else [])
  }

  lemma {:induction false} MatchingRows(n: nat, stack: int -> bool)
    ensures
      var kept := Matching(Range(0, n), stack);
      && (forall i :: i in kept <==> 0 <= i < n && stack(i))
      && (forall x, y :: 0 <= x < y < |kept| ==> kept[x] < kept[y])
  {
    if n > 0 {
      MatchingRows(n - 1, stack);
      var before := Matching(Range(0, n - 1), stack);
      assert Range(0, n)[..n - 1] == Range(0, n - 1);
      assert forall x :: 0 <= x < |before| ==> before[x] in before;
    }
  }

  function Range(a: int, b: int): (s: seq<int>)
    requires a <= b
    ensures |s| == b - a && forall i :: 0 <= i < |s| ==> s[i] == a + i
  {
    seq(b - a, i => a + i)
  }

  lemma {:induction false} RangeStep(r: Record, before: Bits, now: Bits, after: Bits, frame: (int, int) -> bool,
      a: int, b: int)
    requires WellFormed(r) && 0 <= a <= b < |r.addresses|
    requires RangeFiltered(r, before, now, frame, a, b) && RangeFiltered(r, now, after, frame, b, b + 1)
    ensures RangeFiltered(r, before, after, frame, a, b + 1)
  {
    hide WellFormed, Passes;
    assert forall k :: LineStays(r, frame, a, b + 1, k) <==>
        LineStays(r, frame, a, b, k) && LineStays(r, frame, b, b + 1, k);
  }

  lemma NothingFiltered(r: Record, b: Bits, stack: int -> bool, frame: (int, int) -> bool, a: int)
    requires WellFormed(r) && Fits(r, b) && 0 <= a <= |r.addresses|
    ensures RangeFiltered(r, b, b, frame, a, a) && Filtered(r, b, b, stack, frame, 0)
  {
  }

  lemma {:induction false} RowStep(r: Record, before: Bits, now: Bits, after: Bits, stack: int -> bool,
      frame: (int, int) -> bool, n: nat)
    requires WellFormed(r) && n < |r.values| && Filtered(r, before, now, stack, frame, n)
    requires r.locationOffsets[n] <= r.locationOffsets[n + 1] <= |r.addresses|
    requires if stack(n) then RangeFiltered(r, now, after, frame, r.locationOffsets[n], r.locationOffsets[n + 1])
             else after == now
    ensures Filtered(r, before, after, stack, frame, n + 1)
  {
    var a, b := r.locationOffsets[n], r.locationOffsets[n + 1];
    hide WellFormed, Passes;
    forall j ensures InKept(r, stack, n + 1, j) <==> InKept(r, stack, n, j) || (stack(n) && a <= j < b) {
    }
    assert forall k :: LineKept(r, stack, frame, n + 1, k) <==>
        LineKept(r, stack, frame, n, k) && (stack(n) ==> LineStays(r, frame, a, b, k));
  }

  lemma LocationFiltered(r: Record, before: Bits, after: Bits, frame: (int, int) -> bool, j: nat)
    requires WellFormed(r) && j < |r.addresses| && Fits(r, before) && Fits(r, after)
    requires forall x :: 0 <= x < |r.addresses| ==>
      (after.locations[x] <==> before.locations[x] && (x == j ==> Passes(r, j, frame)))
    requires forall k :: 0 <= k < |r.keys| ==>
      (after.lines[k] <==> before.lines[k] && (LineOf(r, j, k) ==> frame(j, k)))
    ensures RangeFiltered(r, before, after, frame, j, j + 1)
  {
  }

  /** Nulls the lines of location j that do not match, and the location if none does. */
  method FilterLocation(r: Record, locationValid: array<bool>, lineValid: array<bool>, frame: (int, int) -> bool,
      j: nat)
    requires WellFormed(r) && j < |r.addresses| && locationValid != lineValid
    requires locationValid.Length == |r.addresses| && lineValid.Length == |r.keys|
    modifies locationValid, lineValid
    ensures RangeFiltered(r, old(Bits(locationValid[..], lineValid[..])), Bits(locationValid[..], lineValid[..]),
                          frame, j, j + 1)
  {
    OffsetsInRange(r, 0, j);
    ghost var before := Bits(locationValid[..], lineValid[..]);
    hide RangeFiltered, Ascending;
    var keepLocation := false;
    var lineStart, lineEnd := r.lineOffsets[j], r.lineOffsets[j + 1];
    if lineStart >= lineEnd {
      if frame(j, -1) {
        keepLocation := true;
      }
    } else {
      for lineIdx := lineStart to lineEnd
        modifies lineValid
        invariant keepLocation <==> exists k :: lineStart <= k < lineIdx && frame(j, k)
        invariant forall k :: 0 <= k < |r.keys| ==>
          (lineValid[k] <==> old(lineValid[k]) && (lineStart <= k < lineIdx ==> frame(j, k)))
      {
        if frame(j, lineIdx) {
          keepLocation := true;
        } else {
          lineValid[lineIdx] := false;
        }
      }
    }
    if !keepLocation {
      locationValid[j] := false;
    }
    LocationFiltered(r, before, Bits(locationValid[..], lineValid[..]), frame, j);
  }

  /** Filters the rows of a record in place and answers those whose stack matches. */
  method FilterRecord(r: Record, locationValid: array<bool>, lineValid: array<bool>, stack: int -> bool,
      frame: (int, int) -> bool) returns (rowsToKeep: seq<int>)
    requires WellFormed(r) && locationValid != lineValid
    requires locationValid.Length == |r.addresses| && lineValid.Length == |r.keys|
    modifies locationValid, lineValid
    ensures rowsToKeep == Matching(Range(0, |r.values|), stack)
    ensures forall i :: i in rowsToKeep <==> 0 <= i < |r.values| && stack(i)
    ensures forall x, y :: 0 <= x < y < |rowsToKeep| ==> rowsToKeep[x] < rowsToKeep[y]
    ensures Filtered(r, old(Bits(locationValid[..], lineValid[..])), Bits(locationValid[..], lineValid[..]),
                     stack, frame, |r.values|)
  {
    rowsToKeep := [];
    ghost var before := Bits(locationValid[..], lineValid[..]);
    NothingFiltered(r, before, stack, frame, 0);
    for i := 0 to |r.values|
      invariant rowsToKeep == Matching(Range(0, i), stack)
      invariant Filtered(r, before, Bits(locationValid[..], lineValid[..]), stack, frame, i)
    {
      hide WellFormed, Filtered, RangeFiltered, Ascending;
      ghost var now := Bits(locationValid[..], lineValid[..]);
      assert Range(0, i + 1)[..i] == Range(0, i);
      OffsetsInRange(r, i, 0);
      if stack(i) {
        rowsToKeep := rowsToKeep + [i];
        FilterRow(r, locationValid, lineValid, frame, i);
      }
      RowStep(r, before, now, Bits(locationValid[..], lineValid[..]), stack, frame, i);
    }
    MatchingRows(|r.values|, stack);
  }

  method FilterRow(r: Record, locationValid: array<bool>, lineValid: array<bool>, frame: (int, int) -> bool, i: nat)
    requires WellFormed(r) && i < |r.values| && locationValid != lineValid
    requires locationValid.Length == |r.addresses| && lineValid.Length == |r.keys|
    modifies locationValid, lineValid
    ensures r.locationOffsets[i] <= r.locationOffsets[i + 1] <= |r.addresses|
    ensures RangeFiltered(r, old(Bits(locationValid[..], lineValid[..])), Bits(locationValid[..], lineValid[..]),
                          frame, r.locationOffsets[i], r.locationOffsets[i + 1])
  {
    OffsetsInRange(r, i, 0);
    ghost var before := Bits(locationValid[..], lineValid[..]);
    var lOffsetStart, lOffsetEnd := r.locationOffsets[i], r.locationOffsets[i + 1];
    NothingFiltered(r, before, _ => true, frame, lOffsetStart);
    for j := lOffsetStart to lOffsetEnd
      invariant RangeFiltered(r, before, Bits(locationValid[..], lineValid[..]), frame, lOffsetStart, j)
    {
      hide WellFormed, RangeFiltered;
      ghost var now := Bits(locationValid[..], lineValid[..]);
      FilterLocation(r, locationValid, lineValid, frame, j);
      RangeStep(r, before, now, Bits(locationValid[..], lineValid[..]), frame, lOffsetStart, j);
    }
  }

  // What is left has a frame.

  /** No line that matches is null in a location that is not. */
  ghost predicate Intact(r: Record, b: Bits, frame: (int, int) -> bool)
    requires WellFormed(r) && Fits(r, b)
  {
    forall j, k :: 0 <= j < |r.addresses| && b.locations[j] && LineOf(r, j, k) && frame(j, k) ==> b.lines[k]
  }

  /** As the records are written: no location and no line is null. */
  ghost predicate Complete(r: Record, b: Bits) {
    && Fits(r, b)
    && (forall j :: 0 <= j < |r.addresses| ==> b.locations[j]) && (forall k :: 0 <= k < |r.keys| ==> b.lines[k])
  }

  lemma CompleteIsIntact(r: Record, b: Bits, frame: (int, int) -> bool)
    requires WellFormed(r) && Complete(r, b)
    ensures Intact(r, b, frame)
  {
  }

  /** A location that is not null has no lines at all or one that is not null. */
  ghost predicate Shown(r: Record, b: Bits, j: int)
    requires WellFormed(r) && Fits(r, b) && 0 <= j < |r.addresses|
  {
    b.locations[j] ==> r.lineOffsets[j] == r.lineOffsets[j + 1] || exists k :: LineOf(r, j, k) && b.lines[k]
  }

  ghost predicate RowShown(r: Record, b: Bits, i: int)
    requires WellFormed(r) && Fits(r, b) && 0 <= i < |r.values|
  {
    forall j :: r.locationOffsets[i] <= j < r.locationOffsets[i + 1] ==> Shown(r, b, j)
  }

  lemma {:induction false} CompleteShows(r: Record, b: Bits, i: int)
    requires WellFormed(r) && Complete(r, b) && 0 <= i < |r.values|
    ensures RowShown(r, b, i)
  {
    forall j | r.locationOffsets[i] <= j < r.locationOffsets[i + 1] ensures Shown(r, b, j) {
      OffsetsInRange(r, 0, j);
      assert r.lineOffsets[j] < r.lineOffsets[j + 1] ==> LineOf(r, j, r.lineOffsets[j]);
    }
  }

  /** A matching line of a location that is not null stays. */
  lemma {:induction false} MatchingLineStays(r: Record, before: Bits, after: Bits, stack: int -> bool,
      frame: (int, int) -> bool, j: nat, k: nat)
    requires WellFormed(r) && Filtered(r, before, after, stack, frame, |r.values|) && Intact(r, before, frame)
    requires j < |r.addresses| && after.locations[j] && LineOf(r, j, k) && frame(j, k)
    ensures k < |r.keys| && after.lines[k]
  {
    OffsetsInRange(r, 0, j);
    forall x | 0 <= x < |r.addresses| && LineOf(r, x, k) ensures x == j {
      OwnerIsUnique(r, x, j, k);
    }
    hide WellFormed, Passes, InKept;
  }

  /** After a pass no kept row has a location whose lines are all null. */
  lemma {:induction false} FilterShows(r: Record, before: Bits, after: Bits, stack: int -> bool,
      frame: (int, int) -> bool)
    requires WellFormed(r) && Filtered(r, before, after, stack, frame, |r.values|) && Intact(r, before, frame)
    ensures Intact(r, after, frame)
    ensures forall i :: 0 <= i < |r.values| && stack(i) ==> RowShown(r, after, i)
  {
    hide Filtered, Intact;
    FilteredFits(r, before, after, stack, frame);
    forall j, k | 0 <= j < |r.addresses| && after.locations[j] && LineOf(r, j, k) && frame(j, k)
      ensures after.lines[k]
    {
      MatchingLineStays(r, before, after, stack, frame, j, k);
    }
    IntactIf(r, after, frame);
    forall i, j | 0 <= i < |r.values| && stack(i) && r.locationOffsets[i] <= j < r.locationOffsets[i + 1]
      ensures Shown(r, after, j)
    {
      OffsetsInRange(r, i, j);
      KeptPasses(r, before, after, stack, frame, i, j);
      if after.locations[j] && r.lineOffsets[j] != r.lineOffsets[j + 1] {
        var k :| LineOf(r, j, k) && frame(j, k);
        MatchingLineStays(r, before, after, stack, frame, j, k);
      }
    }
  }

  lemma FilteredFits(r: Record, before: Bits, after: Bits, stack: int -> bool, frame: (int, int) -> bool)
    requires WellFormed(r) && Filtered(r, before, after, stack, frame, |r.values|)
    ensures Fits(r, before) && Fits(r, after)
  {
  }

  lemma IntactIf(r: Record, b: Bits, frame: (int, int) -> bool)
    requires WellFormed(r) && Fits(r, b)
    requires forall j, k ::
      0 <= j < |r.addresses| && b.locations[j] && LineOf(r, j, k) && frame(j, k) ==> b.lines[k]
    ensures Intact(r, b, frame)
  {
  }

  lemma {:induction false} KeptPasses(r: Record, before: Bits, after: Bits, stack: int -> bool,
      frame: (int, int) -> bool, i: nat, j: nat)
    requires WellFormed(r) && Filtered(r, before, after, stack, frame, |r.values|)
    requires i < |r.values| && stack(i) && r.locationOffsets[i] <= j < r.locationOffsets[i + 1] <= |r.addresses|
    ensures Fits(r, after) && (after.locations[j] ==> Passes(r, j, frame))
  {
    assert InKept(r, stack, |r.values|, j);
    hide Passes, WellFormed;
  }

  // The records of the kept rows.

  /** The rows from a up to b; the columns of locations and lines are shared. */
  function Slice(r: Record, a: nat, b: nat): Record
    requires a <= b <= |r.values| < |r.locationOffsets|
  {
    r.(values := r.values[a..b], locationOffsets := r.locationOffsets[a..b + 1])
  }

  lemma SliceWellFormed(r: Record, a: nat, b: nat)
    requires WellFormed(r) && a <= b <= |r.values|
    ensures WellFormed(Slice(r, a, b))
  {
  }

  ghost predicate Ascends(ranges: seq<(nat, nat)>) {
    forall i :: 0 <= i < |ranges| ==> ranges[i].0 <= ranges[i].1
  }

  /** The rows of the ranges, in order. */
  ghost function Flatten(ranges: seq<(nat, nat)>): seq<int>
    requires Ascends(ranges)
  {
    if ranges == [] then []
    else
      var last := ranges[|ranges| - 1];
      Flatten(ranges[..|ranges| - 1]) + Range(last.0, last.1)
  }

  lemma {:induction false} FlattenSnoc(ranges: seq<(nat, nat)>, last: (nat, nat))
    requires Ascends(ranges)
    requires last.0 <= last.1
    ensures Ascends(ranges + [last]) && Flatten(ranges + [last]) == Flatten(ranges) + Range(last.0, last.1)
  {
    assert (ranges + [last])[..|ranges|] == ranges;
  }

  lemma Regroup<T>(x: seq<T>, y: seq<T>, z: seq<T>)
    ensures (x + y) + z == x + (y + z)
  {
  }

  lemma NoRanges()
    ensures Flatten([]) == []
  {
  }

  lemma RangeOne(a: int)
    ensures Range(a, a + 1) == [a]
  {
  }

  lemma RangeSnoc(a: int, b: int)
    requires a <= b
    ensures Range(a, b + 1) == Range(a, b) + [b]
  {
  }

  /** Each range ends where the next does not begin, nor the one that comes then. */
  ghost predicate Apart(ranges: seq<(nat, nat)>, next: int) {
    && (forall k :: 0 <= k < |ranges| - 1 ==> ranges[k].1 != ranges[k + 1].0)
    && (ranges != [] ==> ranges[|ranges| - 1].1 != next)
  }

  lemma ApartStart(next: int)
    ensures Apart([], next)
  {
  }

  lemma ApartSnoc(ranges: seq<(nat, nat)>, start: nat, end: nat, next: int)
    requires Apart(ranges, start) && end != next
    ensures Apart(ranges + [(start, end)], next)
  {
  }

  lemma ApartRuns(ranges: seq<(nat, nat)>, next: int)
    requires Apart(ranges, next)
    ensures forall k :: 0 <= k < |ranges| - 1 ==> ranges[k].1 != ranges[k + 1].0
  {
  }

  /** The runs of consecutive rows, in order and as long as they go. */
  method SliceRecord(indices: seq<int>) returns (slices: seq<(nat, nat)>)
    requires forall i :: 0 <= i < |indices| ==> 0 <= indices[i]
    ensures forall i :: 0 <= i < |slices| ==> slices[i].0 < slices[i].1
    ensures forall i :: 0 <= i < |slices| - 1 ==> slices[i].1 != slices[i + 1].0
    ensures Flatten(slices) == indices
  {
    ApartStart(if |indices| == 0 then 0 else indices[0]);
    hide Flatten, Range, Apart;
    slices := [];
    NoRanges();
    if |indices| == 0 {
      return;
    }
    var start: nat, end: nat := indices[0], indices[0] + 1;
    RangeOne(start);
    assert indices[..1] == [indices[0]];
    for i := 1 to |indices|
      invariant start < end && forall k :: 0 <= k < |slices| ==> slices[k].0 < slices[k].1
      invariant Apart(slices, start)
      invariant Flatten(slices) + Range(start, end) == indices[..i]
    {
      if indices[i] == end {
        RangeSnoc(start, end);
        Regroup(Flatten(slices), Range(start, end), [indices[i]]);
        end := end + 1;
      } else {
        FlattenSnoc(slices, (start, end));
        ApartSnoc(slices, start, end, indices[i]);
        slices := slices + [(start, end)];
        start, end := indices[i], indices[i] + 1;
        RangeOne(start);
      }
      assert indices[..i + 1] == indices[..i] + [indices[i]];
    }
    FlattenSnoc(slices, (start, end));
    ApartSnoc(slices, start, end, end + 1);
    slices := slices + [(start, end)];
    ApartRuns(slices, end + 1);
    assert indices[..|indices|] == indices;
  }

  /** Filtering the rows of a slice again by the same frames changes nothing. */
  lemma {:induction false} SecondPassChangesNothing(r: Record, before: Bits, now: Bits, after: Bits,
      stack: int -> bool, again: int -> bool, frame: (int, int) -> bool, a: nat, b: nat)
    requires WellFormed(r) && a <= b <= |r.values| && (forall i :: a <= i < b ==> stack(i))
    requires Filtered(r, before, now, stack, frame, |r.values|)
    requires WellFormed(Slice(r, a, b)) && Filtered(Slice(r, a, b), now, after, again, frame, b - a)
    ensures after == now
  {
    var s := Slice(r, a, b);
    forall j | 0 <= j < |r.addresses| && InKept(s, again, b - a, j) ensures InKept(r, stack, |r.values|, j) {
      var i :| 0 <= i < b - a && again(i) && s.locationOffsets[i] <= j < s.locationOffsets[i + 1];
      assert r.locationOffsets[a + i] <= j < r.locationOffsets[a + i + 1];
    }
    forall j | 0 <= j < |r.addresses| ensures Passes(s, j, frame) <==> Passes(r, j, frame) {
    }
    forall k | 0 <= k < |r.keys| && LineKept(r, stack, frame, |r.values|, k)
      ensures LineKept(s, again, frame, b - a, k)
    {
    }
    hide InKept, Passes, LineKept;
    assert after.locations == now.locations;
    assert after.lines == now.lines;
  }

  // A query: the filter, and the filter again with the stacks of the sandwich view.

  /** The ranges moved up by a. */
  function Shifted(ranges: seq<(nat, nat)>, a: nat): (s: seq<(nat, nat)>)
    ensures |s| == |ranges| && forall i :: 0 <= i < |s| ==> s[i] == (a + ranges[i].0, a + ranges[i].1)
  {
    if ranges == [] then []
    else
      var last := ranges[|ranges| - 1];
      Shifted(ranges[..|ranges| - 1], a) + [(a + last.0, a + last.1)]
  }

  ghost function Plus(rows: seq<int>, a: int): (s: seq<int>)
    ensures |s| == |rows| && forall i :: 0 <= i < |s| ==> s[i] == rows[i] + a
  {
    seq(|rows|, i requires 0 <= i < |rows| => rows[i] + a)
  }

  lemma {:induction false} FlattenShifted(ranges: seq<(nat, nat)>, a: nat)
    requires Ascends(ranges)
    ensures Ascends(Shifted(ranges, a)) && Flatten(Shifted(ranges, a)) == Plus(Flatten(ranges), a)
  {
    if ranges != [] {
      var init, last := ranges[..|ranges| - 1], ranges[|ranges| - 1];
      assert ranges == init + [last];
      hide Flatten, Plus, Range;
      FlattenShifted(init, a);
      FlattenSnoc(Shifted(init, a), (a + last.0, a + last.1));
      FlattenSnoc(init, last);
      PlusConcat(Flatten(init), Range(last.0, last.1), a);
      PlusRange(last.0, last.1, a);
    }
  }

  lemma PlusConcat(s: seq<int>, t: seq<int>, a: int)
    ensures Plus(s + t, a) == Plus(s, a) + Plus(t, a)
  {
  }

  lemma PlusRange(b: int, c: int, a: int)
    requires b <= c
    ensures Plus(Range(b, c), a) == Range(a + b, a + c)
  {
  }

  lemma {:induction false} FlattenConcat(a: seq<(nat, nat)>, b: seq<(nat, nat)>)
    requires Ascends(a) && Ascends(b)
    ensures Ascends(a + b) && Flatten(a + b) == Flatten(a) + Flatten(b)
    decreases |b|
  {
    hide Flatten, Range;
    NoRanges();
    if b == [] {
      assert a + b == a && b == [];
    } else {
      var init, last := b[..|b| - 1], b[|b| - 1];
      FlattenConcat(a, init);
      FlattenSnoc(a + init, last);
      FlattenSnoc(init, last);
      Regroup(a, init, [last]);
      assert b == init + [last];
      Regroup(Flatten(a), Flatten(init), Range(last.0, last.1));
    }
  }

  lemma {:induction false} MatchingConcat(a: seq<int>, b: seq<int>, stack: int -> bool)
    ensures Matching(a + b, stack) == Matching(a, stack) + Matching(b, stack)
    decreases |b|
  {
    if b == [] {
      assert a + b == a;
    } else {
      MatchingConcat(a, b[..|b| - 1], stack);
      assert (a + b)[..|a + b| - 1] == a + b[..|b| - 1];
    }
  }

  lemma {:induction false} MatchingPlus(rows: seq<int>, a: int, stack: int -> bool)
    ensures Matching(Plus(rows, a), stack) == Plus(Matching(rows, From(a, stack)), a)
    decreases |rows|
  {
    if rows != [] {
      MatchingPlus(rows[..|rows| - 1], a, stack);
      assert Plus(rows, a)[..|rows| - 1] == Plus(rows[..|rows| - 1], a);
    }
  }

  lemma {:induction false} MatchingTwice(rows: seq<int>, stack: int -> bool, again: int -> bool)
    ensures Matching(Matching(rows, stack), Both(stack, again)) == Matching(rows, Both(stack, again))
  {
    if rows != [] {
      var init, last := rows[..|rows| - 1], rows[|rows| - 1];
      MatchingTwice(init, stack, again);
      if stack(last) {
        MatchingConcat(Matching(init, stack), [last], Both(stack, again));
        assert Matching([last][..0], Both(stack, again)) == [];
      } else {
        assert Matching(init, stack) + [] == Matching(init, stack);
        assert Matching(init, Both(stack, again)) + [] == Matching(init, Both(stack, again));
      }
    }
  }

  lemma {:induction false} MatchingIn(rows: seq<int>, stack: int -> bool)
    ensures forall i :: i in Matching(rows, stack) <==> i in rows && stack(i)
  {
    if rows != [] {
      MatchingIn(rows[..|rows| - 1], stack);
      assert rows == rows[..|rows| - 1] + [rows[|rows| - 1]];
    }
  }

  /** The same question about the rows of a slice. */
  function From(a: int, stack: int -> bool): int -> bool {
    i => stack(a + i)
  }

  function Both(a: int -> bool, b: int -> bool): int -> bool {
    i => a(i) && b(i)
  }

  lemma {:induction false} InFlatten(ranges: seq<(nat, nat)>, k: nat, i: int)
    requires Ascends(ranges) && k < |ranges| && ranges[k].0 <= i < ranges[k].1
    ensures i in Flatten(ranges)
  {
    var init, last := ranges[..|ranges| - 1], ranges[|ranges| - 1];
    if k < |init| {
      InFlatten(init, k, i);
    } else {
      assert Range(last.0, last.1)[i - last.0] == i;
    }
  }

  /** The rows of a list of ranges that are kept, none with a location whose lines are all null. */
  ghost predicate KeptRanges(r: Record, b: Bits, ranges: seq<(nat, nat)>, stack: int -> bool)
    requires WellFormed(r)
  {
    && Fits(r, b) && Ascends(ranges) && Flatten(ranges) == Matching(Range(0, |r.values|), stack)
    && (forall i :: 0 <= i < |r.values| && stack(i) ==> RowShown(r, b, i))
  }

  lemma {:induction false} KeptRange(r: Record, b: Bits, ranges: seq<(nat, nat)>, stack: int -> bool, k: nat)
    requires WellFormed(r) && KeptRanges(r, b, ranges, stack) && k < |ranges| && ranges[k].0 < ranges[k].1
    ensures ranges[k].1 <= |r.values| && forall i :: ranges[k].0 <= i < ranges[k].1 ==> stack(i)
  {
    MatchingIn(Range(0, |r.values|), stack);
    forall i | ranges[k].0 <= i < ranges[k].1 ensures 0 <= i < |r.values| && stack(i) {
      InFlatten(ranges, k, i);
      hide Flatten, Matching, RowShown, WellFormed;
    }
    assert stack(ranges[k].1 - 1);
  }

  /** The rows of the records a filtered query leaves, as ranges of the record's rows. */
  method FilterRanges(r: Record, locationValid: array<bool>, lineValid: array<bool>, stack: int -> bool,
      frame: (int, int) -> bool) returns (ranges: seq<(nat, nat)>)
    requires WellFormed(r) && locationValid != lineValid
    requires locationValid.Length == |r.addresses| && lineValid.Length == |r.keys|
    requires Intact(r, Bits(locationValid[..], lineValid[..]), frame)
    modifies locationValid, lineValid
    ensures Filtered(r, old(Bits(locationValid[..], lineValid[..])), Bits(locationValid[..], lineValid[..]),
                     stack, frame, |r.values|)
    ensures KeptRanges(r, Bits(locationValid[..], lineValid[..]), ranges, stack)
    ensures forall k :: 0 <= k < |ranges| ==> ranges[k].0 < ranges[k].1
  {
    ghost var before := Bits(locationValid[..], lineValid[..]);
    var rowsToKeep := FilterRecord(r, locationValid, lineValid, stack, frame);
    hide WellFormed, Filtered, Intact, RowShown;
    FilterShows(r, before, Bits(locationValid[..], lineValid[..]), stack, frame);
    FilteredFits(r, before, Bits(locationValid[..], lineValid[..]), stack, frame);
    MatchingIn(Range(0, |r.values|), stack);
    forall i | 0 <= i < |rowsToKeep| ensures 0 <= rowsToKeep[i] {
      assert rowsToKeep[i] in rowsToKeep;
    }
    ranges := SliceRecord(rowsToKeep);
  }

  /** One slice, filtered again: its rows that match, as ranges of the whole record's rows. */
  lemma {:induction false} SliceAgain(ranges: seq<(nat, nat)>, again: seq<(nat, nat)>, first: seq<(nat, nat)>,
      k: nat, both: int -> bool)
    requires k < |first| && Ascends(first) && Ascends(first[..k]) && Ascends(ranges) && Ascends(again)
    requires Flatten(ranges) == Matching(Flatten(first[..k]), both)
    requires Flatten(again) == Matching(Range(0, first[k].1 - first[k].0), From(first[k].0, both))
    ensures Ascends(ranges + Shifted(again, first[k].0)) && Ascends(first[..k + 1])
    ensures Flatten(ranges + Shifted(again, first[k].0)) == Matching(Flatten(first[..k + 1]), both)
  {
    var (a, b) := first[k];
    hide Flatten, Matching, Plus, From, Range, Shifted;
    FlattenShifted(again, a);
    FlattenConcat(ranges, Shifted(again, a));
    assert first[..k + 1] == first[..k] + [first[k]];
    FlattenSnoc(first[..k], first[k]);
    PlusRange(0, b - a, a);
    MatchingPlus(Range(0, b - a), a, both);
    MatchingConcat(Flatten(first[..k]), Range(a, b), both);
  }

  lemma NothingAgain(first: seq<(nat, nat)>, both: int -> bool)
    ensures Ascends([]) && Ascends(first[..0]) && Flatten([]) == Matching(Flatten(first[..0]), both)
  {
  }

  /** A kept range of the first pass, as a record of its own. */
  lemma {:induction false} SliceReady(r: Record, now: Bits, first: seq<(nat, nat)>, stack: int -> bool,
      frame: (int, int) -> bool, k: nat)
    requires WellFormed(r) && KeptRanges(r, now, first, stack) && Intact(r, now, frame)
    requires k < |first| && first[k].0 < first[k].1
    ensures first[k].1 <= |r.values| < |r.locationOffsets| && WellFormed(Slice(r, first[k].0, first[k].1))
    ensures Fits(Slice(r, first[k].0, first[k].1), now) && Intact(Slice(r, first[k].0, first[k].1), now, frame)
    ensures forall i :: first[k].0 <= i < first[k].1 ==> stack(i)
  {
    KeptRange(r, now, first, stack, k);
    SliceWellFormed(r, first[k].0, first[k].1);
    hide KeptRanges;
  }

  /** Filters the k-th slice again; the bits are already as they stay. */
  method FilterSlice(r: Record, locationValid: array<bool>, lineValid: array<bool>, ghost stack: int -> bool,
      both: int -> bool, frame: (int, int) -> bool, first: seq<(nat, nat)>, k: nat, ghost ranges: seq<(nat, nat)>,
      ghost before: Bits) returns (more: seq<(nat, nat)>)
    requires WellFormed(r) && locationValid != lineValid
    requires locationValid.Length == |r.addresses| && lineValid.Length == |r.keys|
    requires KeptRanges(r, Bits(locationValid[..], lineValid[..]), first, stack)
    requires Filtered(r, before, Bits(locationValid[..], lineValid[..]), stack, frame, |r.values|)
    requires Intact(r, Bits(locationValid[..], lineValid[..]), frame)
    requires k < |first| && forall x :: 0 <= x < |first| ==> first[x].0 < first[x].1
    requires Ascends(first[..k]) && Ascends(ranges) && Flatten(ranges) == Matching(Flatten(first[..k]), both)
    modifies locationValid, lineValid
    ensures Bits(locationValid[..], lineValid[..]) == old(Bits(locationValid[..], lineValid[..]))
    ensures forall x :: 0 <= x < |more| ==> more[x].0 < more[x].1
    ensures Ascends(first[..k + 1]) && Ascends(ranges + more)
    ensures Flatten(ranges + more) == Matching(Flatten(first[..k + 1]), both)
  {
    hide WellFormed, Filtered, Intact, KeptRanges, Flatten, Matching, Fits, Ascends;
    ghost var now := Bits(locationValid[..], lineValid[..]);
    SliceReady(r, now, first, stack, frame, k);
    var (a, b) := first[k];
    var slice := Slice(r, a, b);
    var again := FilterRanges(slice, locationValid, lineValid, From(a, both), frame);
    SecondPassChangesNothing(r, before, now, Bits(locationValid[..], lineValid[..]), stack, From(a, both), frame, a, b);
    KeptFlatten(slice, now, again, From(a, both));
    AscendsIf(first);
    SliceAgain(ranges, again, first, k, both);
    more := Shifted(again, a);
  }

  /**
   Filters a record for a query, and its slices again for the sandwich view if there is one: by then every
   location and line is as it stays, and only rows fall out.
   */
  method FilterQuery(r: Record, locationValid: array<bool>, lineValid: array<bool>, stack: int -> bool,
      sandwich: Option<int -> bool>, frame: (int, int) -> bool) returns (ranges: seq<(nat, nat)>)
    requires WellFormed(r) && locationValid != lineValid
    requires locationValid.Length == |r.addresses| && lineValid.Length == |r.keys|
    requires Intact(r, Bits(locationValid[..], lineValid[..]), frame)
    modifies locationValid, lineValid
    ensures Filtered(r, old(Bits(locationValid[..], lineValid[..])), Bits(locationValid[..], lineValid[..]),
                     stack, frame, |r.values|)
    ensures KeptRanges(r, Bits(locationValid[..], lineValid[..]), ranges,
                       if sandwich.Some? then Both(stack, sandwich.value) else stack)
    ensures forall k :: 0 <= k < |ranges| ==> ranges[k].0 < ranges[k].1
    ensures forall i :: InSome(ranges, i) <==>
      0 <= i < |r.values| && stack(i) && (sandwich.Some? ==> sandwich.value(i))
    ensures forall k, l :: 0 <= k < l < |ranges| ==> ranges[k].1 <= ranges[l].0
  {
    ghost var before := Bits(locationValid[..], lineValid[..]);
    var first := FilterRanges(r, locationValid, lineValid, stack, frame);
    if sandwich.None? {
      KeptExactly(r, Bits(locationValid[..], lineValid[..]), first, stack);
      return first;
    }
    ghost var now := Bits(locationValid[..], lineValid[..]);
    FilterShows(r, before, now, stack, frame);
    var both := Both(stack, sandwich.value);
    ranges := [];
    NothingAgain(first, both);
    hide WellFormed, Filtered, Intact, KeptRanges, Flatten, Matching, Fits, Ascends;
    for k := 0 to |first|
      invariant Bits(locationValid[..], lineValid[..]) == now
      invariant Ascends(first[..k]) && Ascends(ranges) && Flatten(ranges) == Matching(Flatten(first[..k]), both)
      invariant forall k :: 0 <= k < |ranges| ==> ranges[k].0 < ranges[k].1
    {
      var more := FilterSlice(r, locationValid, lineValid, stack, both, frame, first, k, ranges, before);
      ranges := ranges + more;
    }
    assert first[..|first|] == first;
    KeptAgain(r, now, first, ranges, stack, sandwich.value);
    KeptExactly(r, now, ranges, both);
  }

  /** The row lies in one of the ranges. */
  ghost predicate InSome(ranges: seq<(nat, nat)>, i: int) {
    exists k :: 0 <= k < |ranges| && ranges[k].0 <= i < ranges[k].1
  }

  lemma {:induction false} InSomeSnoc(ranges: seq<(nat, nat)>, last: (nat, nat), i: int)
    ensures InSome(ranges + [last], i) <==> InSome(ranges, i) || last.0 <= i < last.1
  {
    var more := ranges + [last];
    assert more[|ranges|] == last;
    if k :| 0 <= k < |ranges| && ranges[k].0 <= i < ranges[k].1 {
      assert more[k] == ranges[k];
    }
    if k :| 0 <= k < |more| && more[k].0 <= i < more[k].1 {
      assert k < |ranges| ==> more[k] == ranges[k];
    }
  }

  lemma RangeMember(a: int, b: int, i: int)
    requires a <= b
    ensures i in Range(a, b) <==> a <= i < b
  {
    assert a <= i < b ==> Range(a, b)[i - a] == i;
  }

  lemma {:induction false} FlattenMembers(ranges: seq<(nat, nat)>, i: int)
    requires Ascends(ranges)
    ensures i in Flatten(ranges) <==> InSome(ranges, i)
  {
    if ranges != [] {
      var init, last := ranges[..|ranges| - 1], ranges[|ranges| - 1];
      FlattenMembers(init, i);
      RangeMember(last.0, last.1, i);
      InSomeSnoc(init, last, i);
      assert ranges == init + [last];
      hide InSome, Range;
    }
  }

  /** Ranges with ascending rows follow each other. */
  lemma {:induction false} AscendingRanges(ranges: seq<(nat, nat)>, k: nat, l: nat)
    requires Ascends(ranges) && (forall m :: 0 <= m < |ranges| ==> ranges[m].0 < ranges[m].1)
    requires forall x, y :: 0 <= x < y < |Flatten(ranges)| ==> Flatten(ranges)[x] < Flatten(ranges)[y]
    requires k < l < |ranges|
    ensures ranges[k].1 <= ranges[l].0
    decreases |ranges|
  {
    var init, last := ranges[..|ranges| - 1], ranges[|ranges| - 1];
    var rows := Flatten(ranges);
    assert rows == Flatten(init) + Range(last.0, last.1);
    if l < |init| {
      assert forall x :: 0 <= x < |Flatten(init)| ==> Flatten(init)[x] == rows[x];
      AscendingRanges(init, k, l);
    } else {
      InFlatten(init, k, ranges[k].1 - 1);
      var x :| 0 <= x < |Flatten(init)| && Flatten(init)[x] == ranges[k].1 - 1;
      assert rows[x] < rows[|Flatten(init)|];
    }
  }

  lemma {:induction false} KeptExactly(r: Record, b: Bits, ranges: seq<(nat, nat)>, stack: int -> bool)
    requires WellFormed(r) && KeptRanges(r, b, ranges, stack)
    requires forall k :: 0 <= k < |ranges| ==> ranges[k].0 < ranges[k].1
    ensures forall i :: InSome(ranges, i) <==> 0 <= i < |r.values| && stack(i)
    ensures forall k, l :: 0 <= k < l < |ranges| ==> ranges[k].1 <= ranges[l].0
  {
    KeptFlatten(r, b, ranges, stack);
    MatchingRows(|r.values|, stack);
    hide KeptRanges, WellFormed, Matching, Flatten, InSome;
    forall i ensures InSome(ranges, i) <==> 0 <= i < |r.values| && stack(i) {
      FlattenMembers(ranges, i);
    }
    forall k, l | 0 <= k < l < |ranges| ensures ranges[k].1 <= ranges[l].0 {
      AscendingRanges(ranges, k, l);
    }
  }

  lemma AscendsIf(ranges: seq<(nat, nat)>)
    requires forall k :: 0 <= k < |ranges| ==> ranges[k].0 < ranges[k].1
    ensures Ascends(ranges)
  {
  }

  lemma KeptFlatten(r: Record, b: Bits, ranges: seq<(nat, nat)>, stack: int -> bool)
    requires WellFormed(r) && KeptRanges(r, b, ranges, stack)
    ensures Ascends(ranges) && Flatten(ranges) == Matching(Range(0, |r.values|), stack)
  {
  }

  lemma {:induction false} KeptAgain(r: Record, b: Bits, first: seq<(nat, nat)>, ranges: seq<(nat, nat)>,
      stack: int -> bool, again: int -> bool)
    requires WellFormed(r) && KeptRanges(r, b, first, stack) && Ascends(first) && Ascends(ranges)
    requires Flatten(ranges) == Matching(Flatten(first), Both(stack, again))
    ensures KeptRanges(r, b, ranges, Both(stack, again))
  {
    MatchingTwice(Range(0, |r.values|), stack, again);
  }

  // What the reports read.

  /** A location as the flame graph reads it. */
  function FrameLocation(r: Record, b: Bits, j: int): Location
    requires WellFormed(r) && Fits(r, b) && 0 <= j < |r.addresses|
  {
    OffsetsInRange(r, 0, j);
    var lo, hi := r.lineOffsets[j], r.lineOffsets[j + 1];
    Location(r.addresses[j],
      if !r.hasLines[j] then None
      else Some(seq(hi - lo, k requires 0 <= k < hi - lo => if b.lines[lo + k] then Some(r.keys[lo + k]) else None)))
  }

  /** A row as the flame graph reads it. */
  function FrameSample(r: Record, b: Bits, i: int): Sample
    requires WellFormed(r) && Fits(r, b) && 0 <= i < |r.values|
  {
    OffsetsInRange(r, i, 0);
    var lo, hi := r.locationOffsets[i], r.locationOffsets[i + 1];
    Sample(seq(hi - lo, j requires 0 <= j < hi - lo =>
                 if b.locations[lo + j] then Some(FrameLocation(r, b, lo + j)) else None), r.values[i])
  }

  function FrameSamples(r: Record, b: Bits): seq<Sample>
    requires WellFormed(r) && Fits(r, b)
  {
    seq(|r.values|, i requires 0 <= i < |r.values| => FrameSample(r, b, i))
  }

  /** A location as the table reads it. */
  function NamedLocation(r: Record, b: Bits, j: int): TableLocation
    requires WellFormed(r) && Fits(r, b) && 0 <= j < |r.addresses|
  {
    OffsetsInRange(r, 0, j);
    var lo, hi := r.lineOffsets[j], r.lineOffsets[j + 1];
    TableLocation(r.buildIds[j], r.addresses[j],
      if !r.hasLines[j] then None
      else Some(seq(hi - lo, k requires 0 <= k < hi - lo =>
                      if b.lines[lo + k] then Some(TableLine(r.names[lo + k])) else None)))
  }

  /** A row as the table reads it. */
  function NamedSample(r: Record, b: Bits, i: int): TableSample
    requires WellFormed(r) && Fits(r, b) && 0 <= i < |r.values|
  {
    OffsetsInRange(r, i, 0);
    var lo, hi := r.locationOffsets[i], r.locationOffsets[i + 1];
    TableSample(seq(hi - lo, j requires 0 <= j < hi - lo =>
                      if b.locations[lo + j] then Some(NamedLocation(r, b, lo + j)) else None), r.values[i])
  }

  function NamedSamples(r: Record, b: Bits): seq<TableSample>
    requires WellFormed(r) && Fits(r, b)
  {
    seq(|r.values|, i requires 0 <= i < |r.values| => NamedSample(r, b, i))
  }

  /** What both reports read of a location: of its lines those that are not null, and no lines if it has none. */
  lemma LocationRead(r: Record, b: Bits, j: nat, y: nat)
    requires WellFormed(r) && Fits(r, b) && j < |r.addresses|
    ensures
      var (l, m) := (FrameLocation(r, b, j), NamedLocation(r, b, j));
      && l.address == m.address == r.addresses[j] && m.buildId == r.buildIds[j]
      && (l.lines.None? <==> !r.hasLines[j]) && (m.lines.None? <==> !r.hasLines[j])
      && (r.hasLines[j] ==>
            var k := r.lineOffsets[j] + y;
            && |l.lines.value| == |m.lines.value| == r.lineOffsets[j + 1] - r.lineOffsets[j]
            && (k < r.lineOffsets[j + 1] && !b.lines[k] ==> l.lines.value[y].None? && m.lines.value[y].None?)
            && (k < r.lineOffsets[j + 1] && b.lines[k] ==>
                  l.lines.value[y] == Some(r.keys[k]) && m.lines.value[y] == Some(TableLine(r.names[k]))))
  {
    OffsetsInRange(r, 0, j);
    hide Ascending;
  }

  /** What both reports read of a row: its value, and its locations, null where they are. */
  lemma RowRead(r: Record, b: Bits, i: nat, x: nat)
    requires WellFormed(r) && Fits(r, b) && i < |r.values|
    ensures
      var (f, n, j) := (FrameSample(r, b, i), NamedSample(r, b, i), r.locationOffsets[i] + x);
      && f.value == n.value == r.values[i]
      && |f.locations| == |n.locations| == r.locationOffsets[i + 1] - r.locationOffsets[i]
      && (j < r.locationOffsets[i + 1] && !b.locations[j] ==> f.locations[x].None? && n.locations[x].None?)
      && (j < r.locationOffsets[i + 1] && b.locations[j] ==>
            f.locations[x] == Some(FrameLocation(r, b, j)) && n.locations[x] == Some(NamedLocation(r, b, j)))
  {
    OffsetsInRange(r, i, 0);
    hide Ascending;
  }

  lemma {:induction false} ShownHasFrame(r: Record, b: Bits, j: nat)
    requires WellFormed(r) && Fits(r, b) && j < |r.addresses| && b.locations[j] && Shown(r, b, j)
    ensures Frames(FrameLocation(r, b, j)) != []
  {
    var l := FrameLocation(r, b, j);
    if HasLines(l) {
      var k :| LineOf(r, j, k) && b.lines[k];
      assert l.lines.value[k - r.lineOffsets[j]].Some?;
      ReversedEmpty(l.lines.value);
    }
  }

  /** Where every location that is left shows a frame, the sample is anchored. */
  lemma {:induction false} ShownIsAnchored(r: Record, b: Bits, i: nat)
    requires WellFormed(r) && Fits(r, b) && i < |r.values| && RowShown(r, b, i)
    ensures Anchored(FrameSample(r, b, i).locations)
  {
    var locations, lo := FrameSample(r, b, i).locations, r.locationOffsets[i];
    OffsetsInRange(r, i, 0);
    forall j | 0 <= j < |locations| && locations[j].Some? ensures Frames(locations[j].value) != [] {
      ShownHasFrame(r, b, lo + j);
    }
  }

  /** Every sample of a record as it is written is anchored. */
  lemma {:induction false} CompleteIsAnchored(r: Record, b: Bits)
    requires WellFormed(r) && Complete(r, b)
    ensures AllAnchored(FrameSamples(r, b))
  {
    forall i | 0 <= i < |r.values| ensures Anchored(FrameSamples(r, b)[i].locations) {
      CompleteShows(r, b, i);
      ShownIsAnchored(r, b, i);
    }
  }

  /** And so is every sample that a filter leaves. */
  lemma {:induction false} FilteredIsAnchored(r: Record, before: Bits, after: Bits, stack: int -> bool,
      frame: (int, int) -> bool, i: nat)
    requires WellFormed(r) && Complete(r, before) && Filtered(r, before, after, stack, frame, |r.values|)
    requires i < |r.values| && stack(i)
    ensures Anchored(FrameSample(r, after, i).locations)
  {
    CompleteIsIntact(r, before, frame);
    FilterShows(r, before, after, stack, frame);
    ShownIsAnchored(r, after, i);
  }
}
