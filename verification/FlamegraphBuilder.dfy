/** The builder of the Arrow flame graph: columns and children maps updated frame by frame. */
module FlamegraphBuilders {
  import opened Options
  import opened Profiles
  import opened FlamegraphTrie
  import opened FlamegraphWalk

  class FlamegraphBuilder {
    // The total of all samples; it becomes the root's cumulative value at the end.
    var cumulative: int
    var maxHeight: int
    var height: int
    // The row below which the next row goes, or -1.
    var parent: int
    // The row whose children the next frame is compared with; None once a row was appended.
    var compareRows: Option<int>
    var children: seq<map<Key, int>>
    var childrenList: seq<seq<int>>
    var builderCumulative: seq<int>
    var builderFlat: seq<int>
    var builderDepth: seq<int>

    // The samples added so far, the path of each row and the row above it.
    ghost var added: seq<Weighted>
    ghost var path: seq<Stack>
    ghost var up: seq<int>

    ghost function Contents(): Book
      reads this`maxHeight, this`height, this`parent, this`compareRows, this`children, this`childrenList,
            this`builderCumulative, this`builderFlat, this`builderDepth
    {
      Book(maxHeight, height, parent, compareRows, children, childrenList, builderCumulative, builderFlat, builderDepth)
    }

    /** The rows say exactly what the added samples say. */
    ghost predicate Valid()
      reads this`maxHeight, this`height, this`parent, this`compareRows, this`children, this`childrenList,
            this`builderCumulative, this`builderFlat, this`builderDepth, this`path, this`up, this`added
    {
      Exact(Contents(), path, up, added)
    }

    constructor (rows: nat)
      ensures Valid() && added == [] && cumulative == 0
    {
      var n := if rows > 1 then rows else 1;
      cumulative, maxHeight, height, parent, compareRows := 0, 0, 0, -1, None;
      children := seq(n, _ => map[]);
      childrenList := seq(n, _ => []);
      builderCumulative, builderFlat, builderDepth := [0], [0], [0];
      added, path, up := [], [[]], [-1];
    }

    /** Adds the value to the row the frame merges into, if there is one. */
    method MergeRows(key: Key, leaf: bool, value: int) returns (merged: bool)
      requires compareRows.Some? ==> 0 <= compareRows.value < |children|
      requires Found(Contents(), key).Some? ==>
        0 <= Found(Contents(), key).value < |builderCumulative| == |builderFlat|
      modifies this`builderCumulative, this`builderFlat, this`parent, this`compareRows
      ensures merged <==> old(Found(Contents(), key)).Some?
      ensures merged ==>
        Contents() == Merged(old(Contents()), old(Found(Contents(), key)).value, leaf, value).(height := height)
      ensures !merged ==> Contents() == old(Contents()).(compareRows := None)
    {
      if compareRows.Some? && key in children[compareRows.value] {
        var cr := children[compareRows.value][key];
        builderCumulative := builderCumulative[cr := builderCumulative[cr] + value];
        if leaf {
          builderFlat := builderFlat[cr := builderFlat[cr] + value];
        }
        parent := cr;
        compareRows := Some(cr);
        return true;
      }
      compareRows := None;
      return false;
    }

    /** Appends a row for the frame, doubling the children slices when they are full. */
    method AppendRow(row: int, key: Key, leaf: bool, value: int)
      requires row == |builderCumulative| <= |children| == |childrenList| && -1 <= parent < row
      modifies this`height, this`children, this`childrenList,
               this`builderCumulative, this`builderFlat, this`builderDepth
      ensures Contents() == Appended(old(Contents()), key, leaf, value)
    {
      height := height + 1;
      children := Grown(children, row, map[]);
      childrenList := Grown(childrenList, row, []);
      if parent >= 0 {
        children := children[parent := children[parent][key := row]];
        childrenList := childrenList[parent := childrenList[parent] + [row]];
      }
      builderDepth := builderDepth + [height];
      builderCumulative := builderCumulative + [value];
      builderFlat := builderFlat + [if leaf then value else 0];
    }

    /** The root of a stack: the next frame is compared with the rows below the root. */
    method StartStack()
      modifies this`maxHeight, this`height, this`parent, this`compareRows
      ensures Contents() == Started(old(Contents()), true)
    {
      compareRows := Some(0);
      parent := -1;
      maxHeight := if height > maxHeight then height else maxHeight;
      height := 0;
    }

    /** One frame: resets at a root, merges into the matching child or appends a row. */
    method AddFrame(key: Key, isRoot: bool, leaf: bool, value: int)
      requires Sound(Contents())
      modifies this`maxHeight, this`height, this`parent, this`compareRows, this`children, this`childrenList,
               this`builderCumulative, this`builderFlat, this`builderDepth
      ensures Sound(Contents()) && Contents() == Step(old(Contents()), Mark(key, isRoot, leaf), value)
    {
      ghost var b, m := Contents(), Mark(key, isRoot, leaf);
      FoundInRange(b, isRoot, key);
      StepIs(b, m, value);
      hide Sound, Found, Merged, NewRow, Step;
      if isRoot {
        StartStack();
      }
      assert Contents() == Started(b, isRoot);
      hide Started;
      var merged := MergeRows(key, leaf, value);
      if merged {
        height := height + 1;
      } else {
        AddRow(key, isRoot, leaf, value);
      }
    }

    /** A frame with no matching child: a new row below the current one, which then is the current one. */
    method AddRow(key: Key, isRoot: bool, leaf: bool, value: int)
      requires 1 <= |builderCumulative| <= |children| == |childrenList| && -1 <= parent < |builderCumulative|
      requires compareRows == None
      modifies this`height, this`parent, this`children, this`childrenList,
               this`builderCumulative, this`builderFlat, this`builderDepth
      ensures Contents() == NewRow(old(Contents()), Mark(key, isRoot, leaf), value)
    {
      hide Appended;
      var row := |builderCumulative|;
      if isRoot {
        children := children[0 := children[0][key := row]];
        childrenList := childrenList[0 := childrenList[0] + [row]];
      }
      assert Contents() == if isRoot then Linked(old(Contents()), 0, key, row) else old(Contents());
      AppendRow(row, key, leaf, value);
      parent := row;
      AppendedForgets(if isRoot then Linked(old(Contents()), 0, key, row) else old(Contents()), key, leaf, value);
    }

    /** Adds the frames of location j, which has lines. */
    method AddLines(locations: seq<Option<Location>>, j: int, value: int)
      requires Sound(Contents())
      requires 0 <= j < |locations| && locations[j].Some? && HasLines(locations[j].value)
      modifies this`maxHeight, this`height, this`parent, this`compareRows, this`children, this`childrenList,
               this`builderCumulative, this`builderFlat, this`builderDepth
      ensures Sound(Contents()) && Contents() == Run(old(Contents()), LocationMarks(locations, j), value)
    {
      hide Sound, Step;
      var lines := locations[j].value.lines.value;
      ghost var outermost, innermost := IsLastNonNil(locations, j), IsFirst(locations, j);
      var k := |lines|;
      while k > 0
        invariant 0 <= k <= |lines| && Sound(Contents())
        invariant Contents() == Run(old(Contents()), LineMarks(lines, k, outermost, innermost), value)
      {
        k := k - 1;
        ghost var above := LineMarks(lines, k + 1, outermost, innermost);
        assert above + [] == above;
        if lines[k].Some? {
          var locationRoot := IsLocationRoot(locations, j);
          var inlineRoot := IsLocationRoot(lines, k);
          var leafLocation := IsFirstNonNil(locations, j);
          var leafLine := IsFirstNonNil(lines, k);
          AddFrame(lines[k].value, locationRoot && inlineRoot, leafLocation && leafLine, value);
          RunSnoc(old(Contents()), above,
            Mark(lines[k].value, locationRoot && inlineRoot, leafLocation && leafLine), value);
        }
      }
    }

    /** Adds the frames of location j, if it is there. */
    method AddLocation(locations: seq<Option<Location>>, j: int, value: int)
      requires Sound(Contents()) && 0 <= j < |locations|
      modifies this`maxHeight, this`height, this`parent, this`compareRows, this`children, this`childrenList,
               this`builderCumulative, this`builderFlat, this`builderDepth
      ensures Sound(Contents()) && Contents() == Run(old(Contents()), LocationMarks(locations, j), value)
    {
      hide Sound, Step;
      if locations[j].Some? {
        if HasLines(locations[j].value) {
          AddLines(locations, j, value);
        } else {
          var isRoot := IsLocationRoot(locations, j);
          var isLeaf := IsFirstNonNil(locations, j);
          AddFrame(locations[j].value.address, isRoot, isLeaf, value);
          RunSnoc(old(Contents()), [], Mark(locations[j].value.address, isRoot, isLeaf), value);
          assert [] + LocationMarks(locations, j) == LocationMarks(locations, j);
        }
      }
    }

    /** Walks one stack from its root to its leaf; an anchored one is added exactly. */
    method AddSample(sample: Sample)
      requires Sound(Contents())
      modifies this`maxHeight, this`height, this`parent, this`compareRows, this`children, this`childrenList,
               this`builderCumulative, this`builderFlat, this`builderDepth, this`path, this`up, this`added
      ensures Sound(Contents()) && Contents() == AddedSample(old(Contents()), sample)
      ensures old(Valid()) && Anchored(sample.locations) ==>
        Valid() && added == old(added) + [Weighted(Path(sample.locations), sample.value)]
    {
      hide Sound, Exact, Anchored, LocationMarks;
      var locations := sample.locations;
      var j := |locations|;
      while j > 0
        invariant 0 <= j <= |locations| && Sound(Contents())
        invariant Contents() == Run(old(Contents()), MarksFrom(locations, j), sample.value)
        invariant path == old(path) && up == old(up) && added == old(added)
      {
        j := j - 1;
        RunConcat(old(Contents()), MarksFrom(locations, j + 1), LocationMarks(locations, j), sample.value);
        AddLocation(locations, j, sample.value);
      }
      MarkedExactly(locations);
      if old(Valid()) && Anchored(locations) {
        ghost var p, u := RunExact(old(Contents()), path, up, added, MarksFrom(locations, 0), sample.value);
        path, up, added := p, u, added + [Weighted(Path(locations), sample.value)];
      }
    }

    /** Adds the total of a record. */
    method AddTotal(samples: seq<Sample>)
      modifies this`cumulative
      ensures cumulative == old(cumulative) + Total(Meaning(samples))
    {
      var sum := SumValues(samples);
      cumulative := cumulative + sum;
    }

    /** Adds the total and the samples of one record. */
    method AddRecord(samples: seq<Sample>)
      requires Sound(Contents())
      modifies this
      ensures Sound(Contents()) && Contents() == AddedSamples(old(Contents()), samples)
      ensures old(Valid()) && AllAnchored(samples) ==> Valid() && added == old(added) + Meaning(samples)
      ensures cumulative == old(cumulative) + Total(Meaning(samples))
    {
      hide Valid, Sound, AddedSample, AddedSamples, Meaning, Anchored, Path, Total, Contents;
      ghost var b, good := Contents(), Valid() && AllAnchored(samples);
      AddTotal(samples);
      NoSamples(b);
      for i := 0 to |samples|
        invariant Sound(Contents()) && Contents() == AddedSamples(b, samples[..i])
        invariant good ==> Valid() && added == old(added) + Meaning(samples[..i])
        invariant cumulative == old(cumulative) + Total(Meaning(samples))
      {
        AddSample(samples[i]);
        SamplesStep(b, samples, i);
      }
      assert samples[..|samples|] == samples;
    }
  }

  lemma NoSamples(b: Book)
    requires Sound(b)
    ensures AddedSamples(b, []) == b && Meaning([]) == []
  {
  }

  lemma {:induction false} SamplesStep(b: Book, samples: seq<Sample>, i: nat)
    requires Sound(b) && i < |samples|
    ensures AddedSamples(b, samples[..i + 1]) == AddedSample(AddedSamples(b, samples[..i]), samples[i])
    ensures Meaning(samples[..i + 1])
         == Meaning(samples[..i]) + [Weighted(Path(samples[i].locations), samples[i].value)]
  {
    assert samples[..i + 1][..i] == samples[..i];
  }

  lemma {:induction false} FoundInRange(b: Book, root: bool, key: Key)
    requires Sound(b)
    ensures
      var s := Started(b, root);
      && (s.compareRows.Some? ==> 0 <= s.compareRows.value < |s.children|)
      && (Found(s, key).Some? ==> 0 <= Found(s, key).value < |s.cumulative| == |s.flat|)
      && 1 <= |s.cumulative| <= |s.children| == |s.childrenList| && -1 <= s.parent < |s.cumulative|
  {
    var s := Started(b, root);
    if Found(s, key).Some? {
      assert EntriesBelow(b, s.compareRows.value);
    }
  }

  /** A step as the builder takes it: the rows compared with are forgotten before a new row is made. */
  lemma {:induction false} StepIs(b: Book, m: Mark, value: int)
    requires Sound(b)
    ensures Sound(Step(b, m, value))
    ensures
      var s := Started(b, m.root);
      && (s.compareRows.Some? ==> 0 <= s.compareRows.value < |s.children|)
      && (Found(s, m.key).Some? ==>
            && 0 <= Found(s, m.key).value < |s.cumulative| == |s.flat|
            && Merged(s, Found(s, m.key).value, m.leaf, value).height == s.height + 1
            && Step(b, m, value) == Merged(s, Found(s, m.key).value, m.leaf, value))
      && 1 <= |s.cumulative| <= |s.children| == |s.childrenList| && -1 <= s.parent < |s.cumulative|
      && (Found(s, m.key).None? ==> Step(b, m, value) == NewRow(s.(compareRows := None), m, value))
  {
    StepSound(b, m, value);
    FoundInRange(b, m.root, m.key);
    hide Sound, Grown;
  }

  lemma AppendedForgets(b: Book, key: Key, leaf: bool, value: int)
    requires 1 <= |b.cumulative| <= |b.children| == |b.childrenList| && -1 <= b.parent < |b.cumulative|
    ensures Appended(b, key, leaf, value).compareRows == b.compareRows
  {
  }

  ghost function AddedSample(b: Book, sample: Sample): (r: Book)
    requires Sound(b)
    ensures Sound(r)
  {
    Run(b, MarksFrom(sample.locations, 0), sample.value)
  }

  ghost function AddedSamples(b: Book, samples: seq<Sample>): (r: Book)
    requires Sound(b)
    ensures Sound(r)
  {
    if samples == [] then b
    else AddedSample(AddedSamples(b, samples[..|samples| - 1]), samples[|samples| - 1])
  }

  /** The sum over the value column. */
  method SumValues(samples: seq<Sample>) returns (sum: int)
    ensures sum == Total(Meaning(samples))
  {
    sum := 0;
    for i := 0 to |samples|
      invariant sum == Total(Meaning(samples[..i]))
    {
      assert samples[..i + 1][..i] == samples[..i];
      ThroughSnoc(Meaning(samples[..i]), Weighted(Path(samples[i].locations), samples[i].value), []);
      sum := sum + samples[i].value;
    }
    assert samples[..|samples|] == samples;
  }
}
