/**
 What the function table of a profile says: per frame the value of the samples it leads and the value
 of those it takes part in, and who calls whom.
 */
module TableSpec {
  import opened Options
  import opened Profiles

  /** What a row of the table stands for. */
  datatype Frame = Function(name: Key) | Address(buildId: string, address: Key)

  datatype TableLine = TableLine(name: Option<Key>)
  datatype TableLocation = TableLocation(buildId: string, address: Key, lines: Option<seq<Option<TableLine>>>)
  datatype TableSample = TableSample(locations: seq<Option<TableLocation>>, value: int)

  /** A frame of a sample that counts for a row, and the frame before it, which it calls. */
  datatype Event = Event(frame: Frame, leaf: bool, value: int, callee: Option<Frame>)

  /** A frame passed, leaf first, and whether it is the innermost one. */
  datatype Visit = Visit(frame: Frame, leaf: bool)

  ghost function LineVisits(lines: seq<Option<TableLine>>, n: nat, innermost: bool): seq<Visit>
    requires n <= |lines|
  {
    if n == 0 then []
    else
      LineVisits(lines, n - 1, innermost)
      + (if lines[n - 1].Some? && lines[n - 1].value.name.Some?
         then [Visit(Function(lines[n - 1].value.name.value), innermost && IsFirst(lines, n - 1))] else [])
  }

  ghost function VisitsAt(l: TableLocation, innermost: bool): seq<Visit> {
    if l.lines.None? then [Visit(Address(l.buildId, l.address), innermost)]
    else LineVisits(l.lines.value, |l.lines.value|, innermost)
  }

  ghost function Visits(locations: seq<Option<TableLocation>>, n: nat): seq<Visit>
    requires n <= |locations|
  {
    if n == 0 then []
    else
      Visits(locations, n - 1)
      + (if locations[n - 1].Some? then VisitsAt(locations[n - 1].value, IsFirst(locations, n - 1)) else [])
  }

  ghost function EventsOf(visits: seq<Visit>, value: int): seq<Event> {
    if visits == [] then []
    else
      var n := |visits| - 1;
      EventsOf(visits[..n], value)
      + [Event(visits[n].frame, visits[n].leaf, value, if n == 0 then None else Some(visits[n - 1].frame))]
  }

  ghost function AllEvents(samples: seq<TableSample>): seq<Event> {
    if samples == [] then []
    else
      var s := samples[|samples| - 1];
      AllEvents(samples[..|samples| - 1]) + EventsOf(Visits(s.locations, |s.locations|), s.value)
  }

  /** The value of the passages through a frame. */
  ghost function CumulativeOf(events: seq<Event>, f: Frame): int {
    if events == [] then 0
    else
      var e := events[|events| - 1];
      CumulativeOf(events[..|events| - 1], f) + (if e.frame == f then e.value else 0)
  }

  /** The value of the samples that end in a frame. */
  ghost function FlatOf(events: seq<Event>, f: Frame): int {
    if events == [] then 0
    else
      var e := events[|events| - 1];
      FlatOf(events[..|events| - 1], f) + (if e.frame == f && e.leaf then e.value else 0)
  }

  /** The value of all samples that end in some frame. */
  ghost function LeafTotal(events: seq<Event>): int {
    if events == [] then 0
    else
      var e := events[|events| - 1];
      LeafTotal(events[..|events| - 1]) + (if e.leaf then e.value else 0)
  }

  ghost predicate Calls(events: seq<Event>, caller: Frame, callee: Frame) {
    exists e :: e in events && e.frame == caller && e.callee == Some(callee)
  }

  lemma {:induction false} EventsSnoc(events: seq<Event>, e: Event, f: Frame)
    ensures CumulativeOf(events + [e], f) == CumulativeOf(events, f) + (if e.frame == f then e.value else 0)
    ensures FlatOf(events + [e], f) == FlatOf(events, f) + (if e.frame == f && e.leaf then e.value else 0)
    ensures LeafTotal(events + [e]) == LeafTotal(events) + (if e.leaf then e.value else 0)
  {
    assert (events + [e])[..|events|] == events;
  }

  lemma {:induction false} FlatConcat(a: seq<Event>, b: seq<Event>, f: Frame)
    ensures FlatOf(a + b, f) == FlatOf(a, f) + FlatOf(b, f)
    ensures LeafTotal(a + b) == LeafTotal(a) + LeafTotal(b)
    decreases |b|
  {
    if b == [] {
      assert a + b == a;
    } else {
      var init, e := b[..|b| - 1], b[|b| - 1];
      FlatConcat(a, init, f);
      assert (a + b)[..|a + b| - 1] == a + init;
    }
  }

  lemma {:induction false} NoEvents(events: seq<Event>, f: Frame)
    requires forall e :: e in events ==> e.frame != f
    ensures CumulativeOf(events, f) == 0 && FlatOf(events, f) == 0
  {
    if events != [] {
      NoEvents(events[..|events| - 1], f);
    }
  }

  // The order of the frames.

  /** The named functions of a list of lines, innermost first. */
  ghost function NamedFrom(lines: seq<Option<TableLine>>): seq<Frame> {
    if lines == [] then []
    else
      (if lines[0].Some? && lines[0].value.name.Some? then [Function(lines[0].value.name.value)] else [])
      + NamedFrom(lines[1..])
  }

  /** The frames of a leaf-first list of locations, leaf first; a location without lines counts by its address. */
  ghost function FramesFrom(locations: seq<Option<TableLocation>>): seq<Frame> {
    if locations == [] then []
    else
      var l := locations[0];
      (if l.None? then []
       else if l.value.lines.None? then [Address(l.value.buildId, l.value.address)]
       else NamedFrom(l.value.lines.value))
      + FramesFrom(locations[1..])
  }

  /** The visits pass exactly these frames in this order. */
  ghost predicate Passes(visits: seq<Visit>, frames: seq<Frame>) {
    |visits| == |frames| && forall i :: 0 <= i < |visits| ==> visits[i].frame == frames[i]
  }

  lemma {:induction false} NamedSnoc(lines: seq<Option<TableLine>>, l: Option<TableLine>)
    ensures NamedFrom(lines + [l])
      == NamedFrom(lines) + (if l.Some? && l.value.name.Some? then [Function(l.value.name.value)] else [])
  {
    if lines == [] {
      assert [l][1..] == [];
    } else {
      NamedSnoc(lines[1..], l);
      assert (lines + [l])[1..] == lines[1..] + [l];
    }
  }

  lemma {:induction false} FramesSnoc(locations: seq<Option<TableLocation>>, l: Option<TableLocation>)
    ensures FramesFrom(locations + [l]) == FramesFrom(locations) + FramesFrom([l])
  {
    if locations == [] {
      assert [] + [l] == [l];
    } else {
      FramesSnoc(locations[1..], l);
      assert (locations + [l])[1..] == locations[1..] + [l];
    }
  }

  lemma {:induction false} LinesPassed(lines: seq<Option<TableLine>>, n: nat, innermost: bool)
    requires n <= |lines|
    ensures Passes(LineVisits(lines, n, innermost), NamedFrom(lines[..n]))
  {
    if n > 0 {
      LinesPassed(lines, n - 1, innermost);
      assert lines[..n] == lines[..n - 1] + [lines[n - 1]];
      NamedSnoc(lines[..n - 1], lines[n - 1]);
    }
  }

  /** A sample passes all its frames, leaf first. */
  lemma {:induction false} FramesPassed(locations: seq<Option<TableLocation>>, n: nat)
    requires n <= |locations|
    ensures Passes(Visits(locations, n), FramesFrom(locations[..n]))
  {
    if n > 0 {
      var l := locations[n - 1];
      FramesPassed(locations, n - 1);
      assert locations[..n] == locations[..n - 1] + [l];
      FramesSnoc(locations[..n - 1], l);
      assert [l][1..] == [];
      if l.Some? && l.value.lines.Some? {
        var lines := l.value.lines.value;
        LinesPassed(lines, |lines|, IsFirst(locations, n - 1));
        assert lines[..|lines|] == lines;
      }
    }
  }

  // The frame a sample ends in.

  /** The innermost frame of a location: none if its first line has no function name. */
  ghost function InnermostOf(l: TableLocation): Option<Frame> {
    if l.lines.None? then Some(Address(l.buildId, l.address)) else FirstName(l.lines.value)
  }

  ghost function FirstName(lines: seq<Option<TableLine>>): Option<Frame> {
    if lines == [] then None
    else if lines[0].None? then FirstName(lines[1..])
    else if lines[0].value.name.Some? then Some(Function(lines[0].value.name.value)) else None
  }

  ghost function LeafOf(locations: seq<Option<TableLocation>>): Option<Frame> {
    if locations == [] then None
    else if locations[0].None? then LeafOf(locations[1..])
    else InnermostOf(locations[0].value)
  }

  /** The value that a list of visits of a sample counts as flat for the frame. */
  ghost function Leaves(visits: seq<Visit>, f: Frame, value: int): int {
    if visits == [] then 0
    else
      var v := visits[|visits| - 1];
      Leaves(visits[..|visits| - 1], f, value) + (if v.leaf && v.frame == f then value else 0)
  }

  lemma {:induction false} LeavesConcat(a: seq<Visit>, b: seq<Visit>, f: Frame, value: int)
    ensures Leaves(a + b, f, value) == Leaves(a, f, value) + Leaves(b, f, value)
    decreases |b|
  {
    if b == [] {
      assert a + b == a;
    } else {
      LeavesConcat(a, b[..|b| - 1], f, value);
      assert (a + b)[..|a + b| - 1] == a + b[..|b| - 1];
    }
  }

  /** The first non-null entry, if there is one among the first `n`. */
  ghost predicate FirstBelow<T>(s: seq<Option<T>>, n: nat) {
    exists i :: 0 <= i < n && IsFirst(s, i)
  }

  lemma {:induction false} FirstBelowStep<T>(s: seq<Option<T>>, n: nat)
    requires 0 < n <= |s|
    ensures FirstBelow(s, n) <==> FirstBelow(s, n - 1) || IsFirst(s, n - 1)
    ensures FirstBelow(s, n - 1) ==> !IsFirst(s, n - 1)
  {
    if i :| 0 <= i < n - 1 && IsFirst(s, i) {
      assert s[i].Some?;
    }
  }

  lemma {:induction false} FirstNameAt(lines: seq<Option<TableLine>>, i: nat)
    requires IsFirst(lines, i)
    ensures FirstName(lines) == if lines[i].value.name.Some? then Some(Function(lines[i].value.name.value)) else None
    decreases i
  {
    if i > 0 {
      assert lines[0].None?;
      FirstNameAt(lines[1..], i - 1);
    }
  }

  lemma {:induction false} NoFirstName(lines: seq<Option<TableLine>>)
    requires !FirstBelow(lines, |lines|)
    ensures FirstName(lines) == None
    decreases |lines|
  {
    if lines != [] {
      assert lines[0].None? by { if lines[0].Some? { assert IsFirst(lines, 0); } }
      if i :| 0 <= i < |lines[1..]| && IsFirst(lines[1..], i) {
        assert forall j :: 0 < j < i + 1 ==> lines[j] == lines[1..][j - 1];
        assert IsFirst(lines, i + 1);
      }
      NoFirstName(lines[1..]);
    }
  }

  lemma {:induction false} LineLeaves(lines: seq<Option<TableLine>>, n: nat, innermost: bool, f: Frame, value: int)
    requires n <= |lines|
    ensures Leaves(LineVisits(lines, n, innermost), f, value) ==
            if innermost && FirstBelow(lines, n) && FirstName(lines) == Some(f) then value else 0
    decreases n
  {
    if n > 0 {
      LineLeaves(lines, n - 1, innermost, f, value);
      FirstBelowStep(lines, n);
      var before := LineVisits(lines, n - 1, innermost);
      if IsFirst(lines, n - 1) {
        FirstNameAt(lines, n - 1);
      }
      if lines[n - 1].Some? && lines[n - 1].value.name.Some? {
        var v := Visit(Function(lines[n - 1].value.name.value), innermost && IsFirst(lines, n - 1));
        assert (before + [v])[..|before|] == before;
      } else {
        assert before + [] == before;
      }
    }
  }

  lemma {:induction false} VisitsAtLeaves(l: TableLocation, innermost: bool, f: Frame, value: int)
    ensures Leaves(VisitsAt(l, innermost), f, value) == if innermost && InnermostOf(l) == Some(f) then value else 0
  {
    if l.lines.None? {
      var v := Visit(Address(l.buildId, l.address), innermost);
      assert [v][..0] == [];
    } else {
      var lines := l.lines.value;
      LineLeaves(lines, |lines|, innermost, f, value);
      if !FirstBelow(lines, |lines|) {
        NoFirstName(lines);
      }
    }
  }

  lemma {:induction false} LeafAt(locations: seq<Option<TableLocation>>, i: nat)
    requires IsFirst(locations, i)
    ensures LeafOf(locations) == InnermostOf(locations[i].value)
    decreases i
  {
    if i > 0 {
      assert locations[0].None?;
      LeafAt(locations[1..], i - 1);
    }
  }

  lemma {:induction false} NoLeaf(locations: seq<Option<TableLocation>>)
    requires !FirstBelow(locations, |locations|)
    ensures LeafOf(locations) == None
    decreases |locations|
  {
    if locations != [] {
      assert locations[0].None? by { if locations[0].Some? { assert IsFirst(locations, 0); } }
      if i :| 0 <= i < |locations[1..]| && IsFirst(locations[1..], i) {
        assert forall j :: 0 < j < i + 1 ==> locations[j] == locations[1..][j - 1];
        assert IsFirst(locations, i + 1);
      }
      NoLeaf(locations[1..]);
    }
  }

  lemma {:induction false} SampleLeaves(locations: seq<Option<TableLocation>>, n: nat, f: Frame, value: int)
    requires n <= |locations|
    ensures Leaves(Visits(locations, n), f, value) == if FirstBelow(locations, n)
      && LeafOf(locations) == Some(f) then value else 0
    decreases n
  {
    hide IsFirst, VisitsAt;
    if n > 0 {
      SampleLeaves(locations, n - 1, f, value);
      FirstBelowStep(locations, n);
      if IsFirst(locations, n - 1) {
        LeafAt(locations, n - 1);
      }
      var before := Visits(locations, n - 1);
      if locations[n - 1].Some? {
        VisitsAtLeaves(locations[n - 1].value, IsFirst(locations, n - 1), f, value);
        LeavesConcat(before, VisitsAt(locations[n - 1].value, IsFirst(locations, n - 1)), f, value);
      } else {
        FirstIsSome(locations, n - 1);
        assert before + [] == before;
      }
    }
  }

  lemma FirstIsSome<T>(s: seq<Option<T>>, i: nat)
    requires i < |s| && s[i].None?
    ensures !IsFirst(s, i)
  {
  }

  /** A sample counts once, for the frame its leaf is in. */
  lemma {:induction false} EventsFlat(visits: seq<Visit>, value: int, f: Frame)
    ensures FlatOf(EventsOf(visits, value), f) == Leaves(visits, f, value)
    decreases |visits|
  {
    if visits != [] {
      var n := |visits| - 1;
      EventsFlat(visits[..n], value, f);
      var before := EventsOf(visits[..n], value);
      EventsSnoc(before, EventsOf(visits, value)[|before|], f);
    }
  }

  ghost function LeafValue(samples: seq<TableSample>, f: Frame): int {
    if samples == [] then 0
    else
      var s := samples[|samples| - 1];
      LeafValue(samples[..|samples| - 1], f) + (if LeafOf(s.locations) == Some(f) then s.value else 0)
  }

  lemma {:induction false} SampleFlat(s: TableSample, f: Frame)
    ensures FlatOf(EventsOf(Visits(s.locations, |s.locations|), s.value), f) ==
            if LeafOf(s.locations) == Some(f) then s.value else 0
  {
    hide Visits, LeafOf, EventsOf, FlatOf, Leaves, FirstBelow;
    EventsFlat(Visits(s.locations, |s.locations|), s.value, f);
    SampleLeaves(s.locations, |s.locations|, f, s.value);
    if !FirstBelow(s.locations, |s.locations|) {
      NoLeaf(s.locations);
    }
  }

  lemma {:induction false} AllEventsSnoc(samples: seq<TableSample>, s: TableSample)
    ensures AllEvents(samples + [s]) == AllEvents(samples) + EventsOf(Visits(s.locations, |s.locations|), s.value)
  {
    assert (samples + [s])[..|samples|] == samples;
  }

  /** The flat value of a frame is the value of the samples whose leaf it is. */
  lemma {:induction false} FlatIsLeafValue(samples: seq<TableSample>, f: Frame)
    ensures FlatOf(AllEvents(samples), f) == LeafValue(samples, f)
    decreases |samples|
  {
    if samples != [] {
      hide Visits, LeafOf, EventsOf, FlatOf;
      var init, s := samples[..|samples| - 1], samples[|samples| - 1];
      FlatIsLeafValue(init, f);
      FlatConcat(AllEvents(init), EventsOf(Visits(s.locations, |s.locations|), s.value), f);
      SampleFlat(s, f);
    }
  }
}
