/** Facts about the loops that walk a leaf-first list of locations from the root to the leaf. */
module StackWalk {
  import opened Options
  import opened Profiles

  lemma {:induction false} ReversedEmpty<T>(s: seq<Option<T>>)
    ensures Reversed(s) == [] <==> forall i :: 0 <= i < |s| ==> s[i].None?
  {
    if s != [] {
      ReversedEmpty(s[1..]);
      assert forall i :: 1 <= i < |s| ==> s[i] == s[1..][i - 1];
    }
  }

  lemma {:induction false} PathStep(locations: seq<Option<Location>>, j: int)
    requires 0 <= j < |locations|
    ensures Path(locations[j..]) == Path(locations[j + 1..])
      + (if locations[j].Some? then Frames(locations[j].value) else [])
  {
    assert locations[j..][1..] == locations[j + 1..];
  }

  lemma {:induction false} ReversedStep<T>(s: seq<Option<T>>, k: int)
    requires 0 <= k < |s|
    ensures Reversed(s[k..]) == Reversed(s[k + 1..]) + (if s[k].Some? then [s[k].value] else [])
  {
    assert s[k..][1..] == s[k + 1..];
  }

  lemma {:induction false} PathEmpty(locations: seq<Option<Location>>)
    ensures Path(locations) == [] <==>
      forall i :: 0 <= i < |locations| && locations[i].Some? ==> Frames(locations[i].value) == []
  {
    if locations != [] {
      PathEmpty(locations[1..]);
      assert forall i :: 1 <= i < |locations| ==> locations[i] == locations[1..][i - 1];
    }
  }

  lemma {:induction false} FirstNonNilExists<T>(s: seq<Option<T>>, i: int) returns (f: int)
    requires 0 <= i < |s| && s[i].Some?
    ensures IsFirst(s, f) && f <= i
  {
    f := 0;
    while s[f].None?
      invariant 0 <= f <= i && forall j :: 0 <= j < f ==> s[j].None?
      decreases i - f
    {
      f := f + 1;
    }
  }

  lemma {:induction false} LastNonNilExists<T>(s: seq<Option<T>>, i: int) returns (f: int)
    requires 0 <= i < |s| && s[i].Some?
    ensures IsLastNonNil(s, f) && i <= f
  {
    f := |s| - 1;
    while s[f].None?
      invariant i <= f < |s| && forall j :: f < j < |s| ==> s[j].None?
      decreases f
    {
      f := f - 1;
    }
  }

  // The order of the frames.

  /** The non-null lines from the first to the last. */
  ghost function Visible(lines: seq<Option<Key>>): seq<Key> {
    if lines == [] then []
    else
      var n := |lines| - 1;
      Visible(lines[..n]) + (if lines[n].Some? then [lines[n].value] else [])
  }

  /** The frames of a list of locations from the leaf to the root; one without lines counts by its address. */
  ghost function LeafToRoot(locations: seq<Option<Location>>): seq<Key> {
    if locations == [] then []
    else
      var n := |locations| - 1;
      var l := locations[n];
      LeafToRoot(locations[..n])
      + (if l.None? then []
         else if l.value.lines.None? || |l.value.lines.value| == 0 then [l.value.address]
         else Visible(l.value.lines.value))
  }

  ghost predicate Backwards<T>(a: seq<T>, b: seq<T>) {
    |a| == |b| && forall i :: 0 <= i < |a| ==> a[i] == b[|b| - 1 - i]
  }

  lemma {:induction false} BackwardsConcat<T>(a: seq<T>, a': seq<T>, b: seq<T>, b': seq<T>)
    requires Backwards(a, a') && Backwards(b, b')
    ensures Backwards(a + b, b' + a')
  {
  }

  lemma {:induction false} ReversedSnoc<T>(s: seq<Option<T>>, x: Option<T>)
    ensures Reversed(s + [x]) == (if x.Some? then [x.value] else []) + Reversed(s)
  {
    if s == [] {
      assert [x][1..] == [];
    } else {
      ReversedSnoc(s[1..], x);
      assert (s + [x])[1..] == s[1..] + [x];
    }
  }

  lemma {:induction false} ReversedIsBackwards(lines: seq<Option<Key>>)
    ensures Backwards(Reversed(lines), Visible(lines))
  {
    if lines != [] {
      var n := |lines| - 1;
      ReversedIsBackwards(lines[..n]);
      assert lines == lines[..n] + [lines[n]];
      ReversedSnoc(lines[..n], lines[n]);
    }
  }

  lemma {:induction false} PathSnoc(locations: seq<Option<Location>>, l: Option<Location>)
    ensures Path(locations + [l]) == (if l.Some? then Frames(l.value) else []) + Path(locations)
  {
    if locations == [] {
      assert [l][1..] == [];
    } else {
      PathSnoc(locations[1..], l);
      assert (locations + [l])[1..] == locations[1..] + [l];
    }
  }

  /** The root-to-leaf stack is the leaf-first list of frames from back to front. */
  lemma {:induction false} PathIsBackwards(locations: seq<Option<Location>>)
    ensures Backwards(Path(locations), LeafToRoot(locations))
  {
    if locations != [] {
      var n := |locations| - 1;
      PathIsBackwards(locations[..n]);
      assert locations == locations[..n] + [locations[n]];
      PathSnoc(locations[..n], locations[n]);
      if locations[n].Some? {
        var l := locations[n].value;
        if HasLines(l) {
          ReversedIsBackwards(l.lines.value);
        }
        var own := if HasLines(l) then Visible(l.lines.value) else [l.address];
        BackwardsConcat(Frames(l), own, Path(locations[..n]), LeafToRoot(locations[..n]));
      }
    }
  }
}
