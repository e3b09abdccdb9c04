/** Optional values, used for null entries of Arrow columns and for missing messages. */
module Options {
  datatype Option<+T> = None | Some(value: T)
}

/**
 The input of a report: samples whose stacks are lists of nullable locations, each with a nullable
 list of nullable lines, stored leaf first. A line is represented by the key it is merged by.
 */
module Profiles {
  import opened Options

  /** A 64-bit merge key: an address, or a function name index combined with the grouping columns. */
  newtype Key = k: int | 0 <= k < 0x1_0000_0000_0000_0000

  /** The keys of a stack, root first. */
  type Stack = seq<Key>

  datatype Location = Location(address: Key, lines: Option<seq<Option<Key>>>)
  datatype Sample = Sample(locations: seq<Option<Location>>, value: int)

  /** The meaning of a sample: a root-to-leaf stack and its value. */
  datatype Weighted = Weighted(stack: Stack, value: int)

  /** The non-null entries of a leaf-first list, last entry first. */
  function Reversed<T>(s: seq<Option<T>>): seq<T> {
    if s == [] then [] else Reversed(s[1..]) + (if s[0].Some? then [s[0].value] else [])
  }

  predicate HasLines(l: Location) {
    l.lines.Some? && l.lines.value != []
  }

  /** The keys one location contributes, outermost inlined frame first. */
  function Frames(l: Location): Stack {
    if HasLines(l) then Reversed(l.lines.value) else [l.address]
  }

  /** The root-to-leaf stack of a list of locations. */
  function Path(locations: seq<Option<Location>>): Stack {
    if locations == [] then []
    else Path(locations[1..]) + (if locations[0].Some? then Frames(locations[0].value) else [])
  }

  ghost predicate IsLastNonNil<T>(s: seq<Option<T>>, i: int) {
    0 <= i < |s| && s[i].Some? && forall j :: i < j < |s| ==> s[j].None?
  }

  ghost predicate IsFirst<T>(s: seq<Option<T>>, i: int) {
    0 <= i < |s| && s[i].Some? && forall j :: 0 <= j < i ==> s[j].None?
  }

  /**
   A stack whose outermost and innermost non-null locations have a visible frame, unless no frame is
   visible at all. Records as they are written and as a filter leaves them have only such stacks.
   */
  ghost predicate Anchored(locations: seq<Option<Location>>) {
    Path(locations) != [] ==>
      && (forall i :: IsLastNonNil(locations, i) ==> Frames(locations[i].value) != [])
      && (forall i :: IsFirst(locations, i) ==> Frames(locations[i].value) != [])
  }

  ghost predicate AllAnchored(samples: seq<Sample>) {
    forall i :: 0 <= i < |samples| ==> Anchored(samples[i].locations)
  }

  function Meaning(samples: seq<Sample>): (r: seq<Weighted>)
    ensures |r| == |samples|
    ensures forall i :: 0 <= i < |samples| ==> r[i] == Weighted(Path(samples[i].locations), samples[i].value)
  {
    if samples == [] then []
    else
      var last := samples[|samples| - 1];
      Meaning(samples[..|samples| - 1]) + [Weighted(Path(last.locations), last.value)]
  }

  /** Whether the entry at i is the last non-null one: the root of a leaf-first list. */
  method IsLocationRoot<T>(list: seq<Option<T>>, i: int) returns (root: bool)
    ensures root <==> IsLastNonNil(list, i)
  {
    var j := |list| - 1;
    while j >= 0
      invariant -1 <= j < |list|
      invariant forall k :: j < k < |list| ==> list[k].None?
    {
      if list[j].Some? {
        return j == i;
      }
      j := j - 1;
    }
    return false;
  }

  /** Whether the entry at i is the first non-null one: the leaf of a leaf-first list. */
  method IsFirstNonNil<T>(list: seq<Option<T>>, i: int) returns (first: bool)
    ensures first <==> IsFirst(list, i)
  {
    var j := 0;
    while j < |list|
      invariant 0 <= j <= |list|
      invariant forall k :: 0 <= k < j ==> list[k].None?
    {
      if list[j].Some? {
        return j == i;
      }
      j := j + 1;
    }
    return false;
  }

  /** The value of the samples whose stack goes through q. */
  ghost function Through(ws: seq<Weighted>, q: Stack): int {
    if ws == [] then 0
    else
      var w := ws[|ws| - 1];
      Through(ws[..|ws| - 1], q) + (if q <= w.stack then w.value else 0)
  }

  /** The value of the samples whose stack is exactly q. */
  ghost function Ending(ws: seq<Weighted>, q: Stack): int {
    if ws == [] then 0
    else
      var w := ws[|ws| - 1];
      Ending(ws[..|ws| - 1], q) + (if q == w.stack then w.value else 0)
  }

  /** The value of all samples. */
  ghost function Total(ws: seq<Weighted>): int {
    if ws == [] then 0 else Total(ws[..|ws| - 1]) + ws[|ws| - 1].value
  }

  lemma {:induction false} ThroughSnoc(ws: seq<Weighted>, w: Weighted, q: Stack)
    ensures Through(ws + [w], q) == Through(ws, q) + (if q <= w.stack then w.value else 0)
    ensures Ending(ws + [w], q) == Ending(ws, q) + (if q == w.stack then w.value else 0)
    ensures Total(ws + [w]) == Total(ws) + w.value
  {
    assert (ws + [w])[..|ws|] == ws;
  }

  lemma {:induction false} NotTaken(ws: seq<Weighted>, q: Stack)
    requires forall i :: 0 <= i < |ws| ==> !(q <= ws[i].stack)
    ensures Through(ws, q) == 0 && Ending(ws, q) == 0
  {
    if ws != [] {
      NotTaken(ws[..|ws| - 1], q);
    }
  }

  lemma {:induction false} NonNegative(ws: seq<Weighted>, q: Stack)
    requires forall i :: 0 <= i < |ws| ==> ws[i].value >= 0
    ensures 0 <= Ending(ws, q) <= Through(ws, q) <= Total(ws)
  {
    if ws != [] {
      NonNegative(ws[..|ws| - 1], q);
    }
  }

  lemma {:induction false} ThroughRoot(ws: seq<Weighted>)
    ensures Through(ws, []) == Total(ws)
  {
    if ws != [] {
      ThroughRoot(ws[..|ws| - 1]);
    }
  }
}
