/**
 What walking one stack does to the columns of the flame graph: a frame taken for the root of its stack
 starts at the top, every other one goes below the frame before it, of whichever stack that was.
 */
module FlamegraphWalk {
  import opened Options
  import opened Profiles
  import opened FlamegraphTrie
  import opened StackWalk

  /** The columns, the heights, the row the next one goes below, and the row its children are compared with. */
  datatype Book = Book(
    maxHeight: int, height: int, parent: int, compareRows: Option<int>,
    children: seq<map<Key, int>>, childrenList: seq<seq<int>>,
    cumulative: seq<int>, flat: seq<int>, depth: seq<int>)

  /** A frame, and whether it is taken for the root or for the leaf of its stack. */
  datatype Mark = Mark(key: Key, root: bool, leaf: bool)

  // The frames of a stack.

  ghost function LineMarks(lines: seq<Option<Key>>, k: nat, outermost: bool, innermost: bool): seq<Mark>
    requires k <= |lines|
    decreases |lines| - k
  {
    if k == |lines| then []
    else
      LineMarks(lines, k + 1, outermost, innermost)
      + (if lines[k].None? then []
         else [Mark(lines[k].value, outermost && IsLastNonNil(lines, k), innermost && IsFirst(lines, k))])
  }

  ghost function LocationMarks(locations: seq<Option<Location>>, j: nat): seq<Mark>
    requires j < |locations|
  {
    var outermost, innermost := IsLastNonNil(locations, j), IsFirst(locations, j);
    if locations[j].None? then []
    else if !HasLines(locations[j].value) then [Mark(locations[j].value.address, outermost, innermost)]
    else LineMarks(locations[j].value.lines.value, 0, outermost, innermost)
  }

  /** The frames from the outermost one to those of location j. */
  ghost function MarksFrom(locations: seq<Option<Location>>, j: nat): seq<Mark>
    requires j <= |locations|
    decreases |locations| - j
  {
    if j == |locations| then [] else MarksFrom(locations, j + 1) + LocationMarks(locations, j)
  }

  ghost function Keys(marks: seq<Mark>): Stack {
    if marks == [] then [] else Keys(marks[..|marks| - 1]) + [marks[|marks| - 1].key]
  }

  lemma {:induction false} KeysConcat(a: seq<Mark>, b: seq<Mark>)
    ensures Keys(a + b) == Keys(a) + Keys(b)
    decreases |b|
  {
    if b == [] {
      assert a + b == a;
    } else {
      KeysConcat(a, b[..|b| - 1]);
      assert (a + b)[..|a + b| - 1] == a + b[..|b| - 1];
    }
  }

  lemma {:induction false} KeysLength(marks: seq<Mark>)
    ensures |Keys(marks)| == |marks|
  {
    if marks != [] {
      KeysLength(marks[..|marks| - 1]);
    }
  }

  lemma {:induction false} LineKeys(lines: seq<Option<Key>>, k: nat, outermost: bool, innermost: bool)
    requires k <= |lines|
    ensures Keys(LineMarks(lines, k, outermost, innermost)) == Reversed(lines[k..])
    decreases |lines| - k
  {
    if k < |lines| {
      LineKeys(lines, k + 1, outermost, innermost);
      ReversedStep(lines, k);
      var above := LineMarks(lines, k + 1, outermost, innermost);
      if lines[k].Some? {
        var m := Mark(lines[k].value, outermost && IsLastNonNil(lines, k), innermost && IsFirst(lines, k));
        assert (above + [m])[..|above|] == above;
      } else {
        assert above + [] == above;
      }
    }
  }

  /** The keys of the frames are the root-to-leaf stack. */
  lemma {:induction false} MarkKeys(locations: seq<Option<Location>>, j: nat)
    requires j <= |locations|
    ensures Keys(MarksFrom(locations, j)) == Path(locations[j..])
    decreases |locations| - j
  {
    if j < |locations| {
      MarkKeys(locations, j + 1);
      PathStep(locations, j);
      KeysConcat(MarksFrom(locations, j + 1), LocationMarks(locations, j));
      LocationKeys(locations, j);
    }
  }

  lemma {:induction false} LocationKeys(locations: seq<Option<Location>>, j: nat)
    requires j < |locations|
    ensures Keys(LocationMarks(locations, j))
         == if locations[j].Some? then Frames(locations[j].value) else []
  {
    if locations[j].Some? {
      if HasLines(locations[j].value) {
        var lines := locations[j].value.lines.value;
        LineKeys(lines, 0, IsLastNonNil(locations, j), IsFirst(locations, j));
        assert lines[0..] == lines;
      } else {
        var m := LocationMarks(locations, j)[0];
        assert [m][..0] == [];
      }
    }
  }

  // Which frames are taken for root and leaf.

  /** Exactly the first frame is taken for the root, exactly the last one for the leaf. */
  ghost predicate WellMarked(marks: seq<Mark>) {
    RootsAt(marks, true) && LeavesAt(marks, true)
  }

  ghost predicate RootsAt(marks: seq<Mark>, root: bool) {
    forall i :: 0 <= i < |marks| ==> (marks[i].root <==> root && i == 0)
  }

  ghost predicate LeavesAt(marks: seq<Mark>, leaf: bool) {
    forall i :: 0 <= i < |marks| ==> (marks[i].leaf <==> leaf && i == |marks| - 1)
  }

  lemma {:induction false} LineFlagsAt(lines: seq<Option<Key>>, k: nat, outermost: bool, innermost: bool)
    requires k <= |lines|
    ensures RootsAt(LineMarks(lines, k, outermost, innermost), outermost)
    ensures LeavesAt(LineMarks(lines, k, outermost, innermost), innermost && exists f :: k <= f && IsFirst(lines, f))
    decreases |lines| - k
  {
    if k < |lines| {
      LineFlagsAt(lines, k + 1, outermost, innermost);
      LineKeys(lines, k + 1, outermost, innermost);
      KeysLength(LineMarks(lines, k + 1, outermost, innermost));
      ReversedEmpty(lines[k + 1..]);
      assert forall i :: k < i < |lines| ==> lines[i] == lines[k + 1..][i - k - 1];
    }
  }

  lemma {:induction false} LocationFlagsAt(locations: seq<Option<Location>>, j: nat)
    requires j < |locations|
    ensures RootsAt(LocationMarks(locations, j), IsLastNonNil(locations, j))
    ensures LeavesAt(LocationMarks(locations, j), IsFirst(locations, j))
    ensures LocationMarks(locations, j) != [] <==> locations[j].Some? && Frames(locations[j].value) != []
  {
    LocationKeys(locations, j);
    KeysLength(LocationMarks(locations, j));
    if locations[j].Some? && HasLines(locations[j].value) {
      var lines := locations[j].value.lines.value;
      LineFlagsAt(lines, 0, IsLastNonNil(locations, j), IsFirst(locations, j));
      ReversedEmpty(lines);
      if i :| 0 <= i < |lines| && lines[i].Some? {
        var f := FirstNonNilExists(lines, i);
      }
    }
  }

  /** The outermost location that is there has a frame. */
  ghost predicate RootShown(locations: seq<Option<Location>>) {
    exists f :: IsLastNonNil(locations, f) && Frames(locations[f].value) != []
  }

  /** The innermost location that is there has a frame. */
  ghost predicate LeafShown(locations: seq<Option<Location>>) {
    LeafShownFrom(locations, 0)
  }

  ghost predicate LeafShownFrom(locations: seq<Option<Location>>, j: nat) {
    exists f :: j <= f && IsFirst(locations, f) && Frames(locations[f].value) != []
  }

  lemma {:induction false} NothingShownAbove(locations: seq<Option<Location>>, j: nat)
    requires j < |locations|
    ensures MarksFrom(locations, j + 1) == [] <==>
      forall i :: j < i < |locations| && locations[i].Some? ==> Frames(locations[i].value) == []
  {
    MarkKeys(locations, j + 1);
    KeysLength(MarksFrom(locations, j + 1));
    PathEmpty(locations[j + 1..]);
    var above := locations[j + 1..];
    hide MarksFrom, Frames, Path;
    assert forall i :: 0 <= i < |above| ==> above[i] == locations[j + 1 + i];
    assert forall i :: j < i < |locations| ==> locations[i] == above[i - j - 1];
  }

  lemma {:induction false} RootIsLast(locations: seq<Option<Location>>, j: nat)
    requires j < |locations| && LocationMarks(locations, j) != []
    ensures MarksFrom(locations, j + 1) != [] ==> !IsLastNonNil(locations, j)
    ensures MarksFrom(locations, j + 1) == [] ==> (IsLastNonNil(locations, j) <==> RootShown(locations))
  {
    hide MarksFrom, LocationMarks, Frames, Path, RootShown;
    LocationFlagsAt(locations, j);
    NothingShownAbove(locations, j);
    var f := LastNonNilExists(locations, j);
    LastShown(locations, f);
  }

  lemma {:induction false} RootMarks(locations: seq<Option<Location>>, j: nat)
    requires j <= |locations|
    ensures RootsAt(MarksFrom(locations, j), RootShown(locations))
    decreases |locations| - j
  {
    if j < |locations| {
      RootMarks(locations, j + 1);
      LocationFlagsAt(locations, j);
      if LocationMarks(locations, j) != [] {
        RootIsLast(locations, j);
      }
      hide LocationMarks, RootShown, IsLastNonNil;
    }
  }

  lemma {:induction false} LeafAbove(locations: seq<Option<Location>>, j: nat)
    requires j < |locations|
    ensures locations[j].None? ==> (LeafShownFrom(locations, j) <==> LeafShownFrom(locations, j + 1))
    ensures locations[j].Some? ==> !LeafShownFrom(locations, j + 1)
    ensures locations[j].Some? ==>
      (LeafShownFrom(locations, j) <==> IsFirst(locations, j) && Frames(locations[j].value) != [])
  {
    hide Frames;
  }

  lemma {:induction false} LeafMarks(locations: seq<Option<Location>>, j: nat)
    requires j <= |locations|
    ensures LeavesAt(MarksFrom(locations, j), LeafShownFrom(locations, j))
    decreases |locations| - j
  {
    hide LocationMarks, Frames, LeafShownFrom, IsFirst;
    if j < |locations| {
      LeafMarks(locations, j + 1);
      LocationFlagsAt(locations, j);
      LeafAbove(locations, j);
    }
  }

  lemma MarksShow(marks: seq<Mark>, root: bool, leaf: bool)
    requires marks != [] && RootsAt(marks, root) && LeavesAt(marks, leaf)
    ensures WellMarked(marks) <==> root && leaf
  {
    assert marks[0].root <==> root;
    assert marks[|marks| - 1].leaf <==> leaf;
  }

  /** Root and leaf are recognized exactly in the stacks that are anchored. */
  lemma {:induction false} MarkedExactly(locations: seq<Option<Location>>)
    ensures WellMarked(MarksFrom(locations, 0)) <==> Anchored(locations)
    ensures RootsAt(MarksFrom(locations, 0), RootShown(locations))
    ensures LeavesAt(MarksFrom(locations, 0), LeafShown(locations))
    ensures Keys(MarksFrom(locations, 0)) == Path(locations)
  {
    RootMarks(locations, 0);
    LeafMarks(locations, 0);
    MarkKeys(locations, 0);
    assert locations[0..] == locations;
    var marks := MarksFrom(locations, 0);
    KeysLength(marks);
    hide RootShown, LeafShownFrom, MarksFrom, Frames, Path;
    if marks != [] {
      AnchoredIsShown(locations);
      MarksShow(marks, RootShown(locations), LeafShown(locations));
    }
  }

  lemma {:induction false} LastShown(locations: seq<Option<Location>>, last: int)
    requires IsLastNonNil(locations, last)
    ensures RootShown(locations) <==>
      forall i :: IsLastNonNil(locations, i) ==> Frames(locations[i].value) != []
  {
    hide Frames;
    forall i | IsLastNonNil(locations, i) ensures i == last {
    }
  }

  lemma {:induction false} FirstShown(locations: seq<Option<Location>>, first: int)
    requires IsFirst(locations, first)
    ensures LeafShown(locations) <==> forall i :: IsFirst(locations, i) ==> Frames(locations[i].value) != []
  {
    hide Frames;
    forall i | IsFirst(locations, i) ensures i == first {
    }
  }

  lemma {:induction false} AnchoredIsShown(locations: seq<Option<Location>>)
    requires Path(locations) != []
    ensures Anchored(locations) <==> RootShown(locations) && LeafShown(locations)
  {
    PathEmpty(locations);
    var i :| 0 <= i < |locations| && locations[i].Some?;
    var last := LastNonNilExists(locations, i);
    var first := FirstNonNilExists(locations, i);
    LastShown(locations, last);
    FirstShown(locations, first);
    hide Path, Frames, RootShown, LeafShown, IsLastNonNil, IsFirst;
  }

  // One frame.

  ghost predicate EntriesBelow(b: Book, c: int)
    requires 0 <= c < |b.children| && |b.childrenList| > 0
  {
    forall k :: k in b.children[c] ==>
      1 <= b.children[c][k] < |b.cumulative| && (c > 0 ==> b.children[c][k] !in b.childrenList[0])
  }

  /** All rows are in range, and no row listed below the root is reached from another row. */
  ghost predicate Sound(b: Book) {
    && 1 <= |b.cumulative| == |b.flat| == |b.depth| <= |b.children| == |b.childrenList|
    && (b.parent == -1 || 1 <= b.parent < |b.cumulative|)
    && (b.compareRows.Some? ==> 1 <= b.compareRows.value < |b.cumulative|)
    && (forall c :: 0 <= c < |b.children| ==> EntriesBelow(b, c))
    && (forall x :: x in b.childrenList[0] ==> 1 <= x < |b.cumulative|)
  }

  /** A slice doubled when it is full. */
  function Grown<T>(s: seq<T>, row: int, zero: T): seq<T>
    requires row >= 0
  {
    if |s| == row then s + seq(row, _ => zero) else s
  }

  /** The frame taken for the root of its stack starts at the top. */
  function Started(b: Book, root: bool): Book {
    if root then
      b.(compareRows := Some(0), parent := -1,
         maxHeight := if b.height > b.maxHeight then b.height else b.maxHeight, height := 0)
    else b
  }

  /** The row among those compared with that has the key. */
  function Found(b: Book, key: Key): Option<int>
    requires b.compareRows.Some? ==> 0 <= b.compareRows.value < |b.children|
  {
    if b.compareRows.Some? && key in b.children[b.compareRows.value] then Some(b.children[b.compareRows.value][key])
    else None
  }

  function Merged(b: Book, cr: int, leaf: bool, value: int): Book
    requires 0 <= cr < |b.cumulative| == |b.flat|
  {
    b.(cumulative := b.cumulative[cr := b.cumulative[cr] + value],
       flat := if leaf then b.flat[cr := b.flat[cr] + value] else b.flat,
       parent := cr, compareRows := Some(cr), height := b.height + 1)
  }

  /** A row in the children of another one. */
  function Linked(b: Book, above: int, key: Key, row: int): Book
    requires 0 <= above < |b.children| == |b.childrenList|
  {
    b.(children := b.children[above := b.children[above][key := row]],
       childrenList := b.childrenList[above := b.childrenList[above] + [row]])
  }

  function Appended(b: Book, key: Key, leaf: bool, value: int): Book
    requires |b.cumulative| <= |b.children| == |b.childrenList| && -1 <= b.parent < |b.cumulative|
  {
    var row := |b.cumulative|;
    var grown := b.(children := Grown(b.children, row, map[]), childrenList := Grown(b.childrenList, row, []));
    var linked := if b.parent >= 0 then Linked(grown, b.parent, key, row) else grown;
    linked.(height := b.height + 1, depth := b.depth + [b.height + 1], cumulative := b.cumulative + [value],
            flat := b.flat + [if leaf then value else 0])
  }

  /** The new row of a frame with no matching child. */
  function NewRow(b: Book, m: Mark, value: int): Book
    requires |b.cumulative| <= |b.children| == |b.childrenList| && -1 <= b.parent < |b.cumulative|
    requires |b.children| > 0
  {
    var linked := if m.root then Linked(b, 0, m.key, |b.cumulative|) else b;
    Appended(linked, m.key, m.leaf, value).(parent := |b.cumulative|, compareRows := None)
  }

  /** One frame of a stack of the given value. */
  function Step(b: Book, m: Mark, value: int): Book
    requires Sound(b)
  {
    var s := Started(b, m.root);
    var found := Found(s, m.key);
    if found.Some? then
      assert EntriesBelow(b, s.compareRows.value);
      Merged(s, found.value, m.leaf, value)
    else NewRow(s, m, value)
  }

  lemma {:induction false} StartedSound(b: Book, root: bool)
    requires Sound(b)
    ensures
      var s := Started(b, root);
      && (s.compareRows.Some? ==> 0 <= s.compareRows.value < |s.children|)
      && s.children == b.children && s.childrenList == b.childrenList
      && s.cumulative == b.cumulative && s.flat == b.flat && s.depth == b.depth
  {
  }

  // Exact books.

  /** The row of the pending stack q: the root before its first frame. */
  ghost function Cursor(b: Book, q: Stack): int {
    if q == [] then 0 else b.parent
  }

  /** The rows hold the added samples and the frames q of a sample of value v. */
  ghost predicate Placed(b: Book, path: seq<Stack>, up: seq<int>, added: seq<Weighted>, q: Stack, v: int, ended: bool) {
    && 1 <= |path| == |up| == |b.cumulative| == |b.flat| == |b.depth| <= |b.children| == |b.childrenList|
    && Shape(path, up, b.children, b.childrenList)
    && path[0] == []
    && Values(path, b.cumulative, b.flat, b.depth, added, q, v, ended)
    && CoversAll(path, added) && Covers(path, q) && Justified(path, added, q)
    && (q != [] ==>
          && 0 < b.parent < |path| && path[b.parent] == q
          && b.height == |q| && b.maxHeight == MaxStack(added))
    && (q == [] ==> MaxStack(added) == if b.height > b.maxHeight then b.height else b.maxHeight)
  }

  /** The next frame is compared with the children of row c, or c has none. */
  ghost predicate Compares(b: Book, c: int) {
    0 <= c < |b.children| && (b.compareRows == Some(c) || (b.compareRows == None && b.children[c] == map[]))
  }

  ghost predicate Walking(b: Book, path: seq<Stack>, up: seq<int>, added: seq<Weighted>, q: Stack, v: int, ended: bool)
  {
    Placed(b, path, up, added, q, v, ended) && (q != [] ==> Compares(b, b.parent))
  }

  /** A frame is about to be placed: at the top, or below the frames q. */
  ghost predicate Ready(b: Book, path: seq<Stack>, up: seq<int>, added: seq<Weighted>, q: Stack, v: int) {
    && Placed(b, path, up, added, q, v, false) && Compares(b, Cursor(b, q))
    && (q == [] ==> b.parent == -1 && b.height == 0 && b.maxHeight == MaxStack(added))
  }

  lemma {:induction false} StartedReady(b: Book, path: seq<Stack>, up: seq<int>, added: seq<Weighted>, q: Stack, v: int)
    requires Walking(b, path, up, added, q, v, false)
    ensures Ready(Started(b, q == []), path, up, added, q, v)
  {
    hide Shape, Values, CoversAll, Covers, Justified, MaxStack;
  }

  lemma {:induction false} ChildPath(path: seq<Stack>, up: seq<int>, children: seq<map<Key, int>>,
      lists: seq<seq<int>>, c: int, key: Key)
    requires Shape(path, up, children, lists) && 0 <= c < |path| && key in children[c]
    ensures 0 < children[c][key] < |path| && path[children[c][key]] == path[c] + [key] && Distinct(path)
  {
    assert MappedAt(path, up, children, c);
  }

  /** A frame with a matching child adds its value to that row. */
  lemma {:induction false} MergedWalks(b: Book, path: seq<Stack>, up: seq<int>, added: seq<Weighted>, q: Stack,
      key: Key, leaf: bool, v: int)
    requires Ready(b, path, up, added, q, v) && Found(b, key).Some?
    ensures 0 <= Found(b, key).value < |path|
    ensures Walking(Merged(b, Found(b, key).value, leaf, v), path, up, added, q + [key], v, leaf)
  {
    hide Shape, Values, CoversAll, Covers, Justified, MaxStack;
    var cr := Found(b, key).value;
    ChildPath(path, up, b.children, b.childrenList, Cursor(b, q), key);
    ValuesMerge(path, b.cumulative, b.flat, b.depth, added, q, key, v, leaf, cr);
    assert (if leaf then b.flat[cr := b.flat[cr] + v] else b.flat)
        == b.flat[cr := if leaf then b.flat[cr] + v else b.flat[cr]];
    CoversExtend(path, q, key);
    JustifiedExtend(path, added, q, key);
  }

  lemma GrownUpdate<T>(s: seq<T>, row: int, zero: T, i: int, x: T)
    requires 0 <= i < |s| && row >= 0
    ensures Grown(s[i := x], row, zero) == Grown(s, row, zero)[i := x]
    ensures Grown(s, row, zero)[i] == s[i]
  {
  }

  lemma {:induction false} RowAppended(path: seq<Stack>, up: seq<int>, children: seq<map<Key, int>>,
      lists: seq<seq<int>>, c: int, key: Key)
    requires Shape(path, up, children, lists) && 0 <= c < |path| && key !in children[c]
    ensures path[c] + [key] !in path
    ensures
      var grown, grownLists := Grown(children, |path|, map[]), Grown(lists, |path|, []);
      && |grown| == |grownLists| > |path| && grown[|path|] == map[]
      && Shape(path + [path[c] + [key]], up + [c],
               grown[c := grown[c][key := |path|]], grownLists[c := grownLists[c] + [|path|]])
  {
    var grown, grownLists := Grown(children, |path|, map[]), Grown(lists, |path|, []);
    FreshPath(path, up, children, lists, c, key);
    ShapeGrow(path, up, children, lists, grown, grownLists);
    ShapeAppend(path, up, grown, grownLists, c, key);
  }

  lemma {:induction false} ContentAppended(path: seq<Stack>, cum: seq<int>, flat: seq<int>, depth: seq<int>,
                        ws: seq<Weighted>, q: Stack, key: Key, v: int, leaf: bool)
    requires Values(path, cum, flat, depth, ws, q, v, false)
    requires CoversAll(path, ws) && Covers(path, q) && Justified(path, ws, q) && q + [key] !in path
    ensures
      var path' := path + [q + [key]];
      && CoversAll(path', ws) && Covers(path', q + [key]) && Justified(path', ws, q + [key])
      && Values(path', cum + [v], flat + [if leaf then v else 0], depth + [|q| + 1], ws, q + [key], v, leaf)
  {
    CoversAppend(path, q + [key], ws, q);
    CoversExtend(path + [q + [key]], q, key);
    JustifiedExtend(path, ws, q, key);
    ValuesAppend(path, cum, flat, depth, ws, q, key, v, leaf);
  }

  lemma {:induction false} NewRowLinks(b: Book, m: Mark, value: int, c: int)
    requires 1 <= |b.cumulative| <= |b.children| == |b.childrenList| && -1 <= b.parent < |b.cumulative|
    requires if m.root then c == 0 && b.parent == -1 else c == b.parent >= 0
    ensures
      var row := |b.cumulative|;
      var children, lists := Grown(b.children, row, map[]), Grown(b.childrenList, row, []);
      && 0 <= c < |children| == |lists|
      && NewRow(b, m, value).children == children[c := children[c][m.key := row]]
      && NewRow(b, m, value).childrenList == lists[c := lists[c] + [row]]
  {
    hide Grown;
    var row := |b.cumulative|;
    GrownUpdate(b.children, row, map[], c, b.children[c][m.key := row]);
    GrownUpdate(b.childrenList, row, [], c, b.childrenList[c] + [row]);
    GrownLength(b.children, row, map[]);
    GrownLength(b.childrenList, row, []);
  }

  lemma GrownLength<T>(s: seq<T>, row: int, zero: T)
    requires row >= 0
    ensures |Grown(s, row, zero)| == if |s| == row then 2 * row else |s|
  {
  }

  lemma {:induction false} NewRowWalks(b: Book, path: seq<Stack>, up: seq<int>, added: seq<Weighted>, q: Stack,
      m: Mark, v: int)
    requires Ready(b, path, up, added, q, v) && Found(b, m.key).None? && (m.root <==> q == [])
    ensures 0 <= Cursor(b, q) < |path|
    ensures Walking(NewRow(b, m, v), path + [q + [m.key]], up + [Cursor(b, q)], added, q + [m.key], v, m.leaf)
  {
    hide Shape, Values, CoversAll, Covers, Justified, MaxStack, Grown;
    var c := Cursor(b, q);
    RowAppended(path, up, b.children, b.childrenList, c, m.key);
    ContentAppended(path, b.cumulative, b.flat, b.depth, added, q, m.key, v, m.leaf);
    NewRowLinks(b, m, v, c);
  }

  /** A frame of an exact walk is placed where its stack says. */
  lemma {:induction false} StepWalks(b: Book, path: seq<Stack>, up: seq<int>, added: seq<Weighted>, q: Stack, m: Mark,
      v: int)
    returns (path': seq<Stack>, up': seq<int>)
    requires Sound(b) && Walking(b, path, up, added, q, v, false) && (m.root <==> q == [])
    ensures Walking(Step(b, m, v), path', up', added, q + [m.key], v, m.leaf)
  {
    hide Walking, Ready, Started, Merged, Appended, Linked;
    StartedSound(b, m.root);
    StartedReady(b, path, up, added, q, v);
    var s := Started(b, m.root);
    if Found(s, m.key).Some? {
      MergedWalks(s, path, up, added, q, m.key, m.leaf, v);
      path', up' := path, up;
    } else {
      NewRowWalks(s, path, up, added, q, m, v);
      path', up' := path + [q + [m.key]], up + [Cursor(s, q)];
    }
  }

  // Whole stacks.

  /** What no frame changes that is not taken for a root: the rows below the root, and their values. */
  ghost predicate TopKept(b: Book, b': Book) {
    && Sound(b) && Sound(b') && |b.cumulative| <= |b'.cumulative|
    && b'.childrenList[0] == b.childrenList[0]
    && forall x :: x in b.childrenList[0] ==> b'.cumulative[x] == b.cumulative[x]
  }

  /** What no frame changes that is not taken for a leaf: the values ending in the rows. */
  ghost predicate FlatKept(flat: seq<int>, flat': seq<int>) {
    |flat| <= |flat'| && forall i :: 0 <= i < |flat'| ==> flat'[i] == if i < |flat| then flat[i] else 0
  }

  lemma {:induction false} StepSound(b: Book, m: Mark, v: int)
    requires Sound(b)
    ensures Sound(Step(b, m, v))
    ensures !m.root ==> TopKept(b, Step(b, m, v))
    ensures !m.leaf ==> FlatKept(b.flat, Step(b, m, v).flat)
  {
    var s := Started(b, m.root);
    if Found(s, m.key).Some? {
      assert EntriesBelow(b, s.compareRows.value);
      MergedSound(b, s, Found(s, m.key).value, m.leaf, v);
    } else {
      NewRowSound(b, s, m, v);
    }
  }

  lemma {:induction false} MergedSound(b: Book, s: Book, cr: int, leaf: bool, v: int)
    requires Sound(b) && 1 <= cr < |b.cumulative|
    requires s == Started(b, true) || (s == b && cr !in b.childrenList[0])
    ensures Sound(Merged(s, cr, leaf, v))
    ensures s == b && cr !in b.childrenList[0] ==> TopKept(b, Merged(s, cr, leaf, v))
    ensures !leaf ==> FlatKept(b.flat, Merged(s, cr, leaf, v).flat)
  {
    var r := Merged(s, cr, leaf, v);
    forall c | 0 <= c < |r.children| ensures EntriesBelow(r, c) {
      assert EntriesBelow(b, c);
    }
  }

  lemma {:induction false} NewRowSound(b: Book, s: Book, m: Mark, v: int)
    requires Sound(b) && s == Started(b, m.root)
    ensures Sound(NewRow(s, m, v))
    ensures !m.root ==> TopKept(b, NewRow(s, m, v))
    ensures !m.leaf ==> FlatKept(b.flat, NewRow(s, m, v).flat)
  {
    var r, row := NewRow(s, m, v), |s.cumulative|;
    forall c | 0 <= c < |r.children| ensures EntriesBelow(r, c) {
      if c < |b.children| {
        assert EntriesBelow(b, c);
      }
    }
  }

  /** The frames of a stack one after the other. */
  ghost function Run(b: Book, marks: seq<Mark>, v: int): (r: Book)
    requires Sound(b)
    ensures Sound(r)
    decreases |marks|
  {
    if marks == [] then b
    else
      var before := Run(b, marks[..|marks| - 1], v);
      StepSound(before, marks[|marks| - 1], v);
      Step(before, marks[|marks| - 1], v)
  }

  lemma {:induction false} RunSnoc(b: Book, marks: seq<Mark>, m: Mark, v: int)
    requires Sound(b)
    ensures Run(b, marks + [m], v) == Step(Run(b, marks, v), m, v)
  {
    assert (marks + [m])[..|marks|] == marks;
  }

  lemma {:induction false} RunConcat(b: Book, first: seq<Mark>, more: seq<Mark>, v: int)
    requires Sound(b)
    ensures Run(b, first + more, v) == Run(Run(b, first, v), more, v)
    decreases |more|
  {
    hide Sound, Step;
    if more == [] {
      assert first + more == first;
    } else {
      RunConcat(b, first, more[..|more| - 1], v);
      assert (first + more)[..|first + more| - 1] == first + more[..|more| - 1];
    }
  }

  lemma {:induction false} TopKeptTransitive(a: Book, b: Book, c: Book)
    requires TopKept(a, b) && TopKept(b, c)
    ensures TopKept(a, c)
  {
    hide EntriesBelow;
  }

  lemma {:induction false} RunKeepsTop(b: Book, marks: seq<Mark>, v: int)
    requires Sound(b) && RootsAt(marks, false)
    ensures TopKept(b, Run(b, marks, v))
    decreases |marks|
  {
    hide Sound, Step;
    if marks == [] {
      SoundKept(b);
    } else {
      var init, m := marks[..|marks| - 1], marks[|marks| - 1];
      assert forall i :: 0 <= i < |init| ==> init[i] == marks[i];
      RunKeepsTop(b, init, v);
      StepSound(Run(b, init, v), m, v);
      hide TopKept;
      TopKeptTransitive(b, Run(b, init, v), Run(b, marks, v));
    }
  }

  lemma SoundKept(b: Book)
    requires Sound(b)
    ensures TopKept(b, b)
  {
  }

  lemma {:induction false} RunKeepsFlat(b: Book, marks: seq<Mark>, v: int)
    requires Sound(b) && LeavesAt(marks, false)
    ensures FlatKept(b.flat, Run(b, marks, v).flat)
    decreases |marks|
  {
    hide Sound, Step;
    if marks != [] {
      var init, m := marks[..|marks| - 1], marks[|marks| - 1];
      assert forall i :: 0 <= i < |init| ==> init[i] == marks[i];
      RunKeepsFlat(b, init, v);
      StepSound(Run(b, init, v), m, v);
    }
  }

  /** A book between two stacks that says exactly what the added samples say. */
  ghost predicate Exact(b: Book, path: seq<Stack>, up: seq<int>, added: seq<Weighted>) {
    Sound(b) && Placed(b, path, up, added, [], 0, false)
  }

  lemma {:induction false} NoPendingValue(b: Book, path: seq<Stack>, up: seq<int>, added: seq<Weighted>, v: int)
    requires Placed(b, path, up, added, [], 0, false)
    ensures Walking(b, path, up, added, [], v, false)
  {
    forall i | 1 <= i < |path|
      ensures RowValue(path[i], b.cumulative[i], b.flat[i], b.depth[i], added, [], v, false)
    {
      assert LinkedAt(path, up, b.children, i);
      assert RowValue(path[i], b.cumulative[i], b.flat[i], b.depth[i], added, [], 0, false);
    }
  }

  /** Turns the finished pending stack into an added sample. */
  lemma {:induction false} Committed(b: Book, path: seq<Stack>, up: seq<int>, added: seq<Weighted>, q: Stack, v: int)
    requires Placed(b, path, up, added, q, v, q != [])
    ensures Placed(b, path, up, added + [Weighted(q, v)], [], 0, false)
  {
    forall i | 1 <= i < |path|
      ensures path[i] != []
    {
      assert LinkedAt(path, up, b.children, i);
    }
    hide Shape;
    ValuesCommit(path, b.cumulative, b.flat, b.depth, added, q, v);
    CoverageCommit(path, added, q, v);
    assert (added + [Weighted(q, v)])[..|added|] == added;
    hide Values, CoversAll, Justified;
  }

  lemma {:induction false} RunWalks(b: Book, path: seq<Stack>, up: seq<int>, added: seq<Weighted>, marks: seq<Mark>,
      n: nat, v: int)
    returns (path': seq<Stack>, up': seq<int>)
    requires Sound(b) && Walking(b, path, up, added, [], v, false) && WellMarked(marks) && n <= |marks|
    ensures Walking(Run(b, marks[..n], v), path', up', added, Keys(marks[..n]), v, n == |marks| && n > 0)
  {
    hide Sound, Walking, Step;
    if n == 0 {
      path', up' := path, up;
    } else {
      var init, m := marks[..n - 1], marks[n - 1];
      var p, u := RunWalks(b, path, up, added, marks, n - 1, v);
      KeysLength(init);
      assert marks[..n] == init + [m];
      assert marks[..n][..n - 1] == init;
      RunSnoc(b, init, m, v);
      path', up' := StepWalks(Run(b, init, v), p, u, added, Keys(init), m, v);
    }
  }

  /** A stack whose root and leaf are recognized is added exactly. */
  lemma {:induction false} RunExact(b: Book, path: seq<Stack>, up: seq<int>, added: seq<Weighted>, marks: seq<Mark>,
      v: int)
    returns (path': seq<Stack>, up': seq<int>)
    requires Exact(b, path, up, added) && WellMarked(marks)
    ensures Exact(Run(b, marks, v), path', up', added + [Weighted(Keys(marks), v)])
  {
    hide Sound, Placed, WellMarked;
    NoPendingValue(b, path, up, added, v);
    path', up' := RunWalks(b, path, up, added, marks, |marks|, v);
    assert marks[..|marks|] == marks;
    KeysLength(marks);
    Committed(Run(b, marks, v), path', up', added, Keys(marks), v);
  }

  // What an exact book says.

  /**
   The rows other than the root are in bijection with the distinct non-empty prefixes of the stacks
   added so far, and hold the value through the prefix, the value ending there and its length.
   */
  lemma {:induction false} RowsMatchStacks(b: Book, path: seq<Stack>, up: seq<int>, added: seq<Weighted>)
    requires Exact(b, path, up, added)
    ensures forall i, j :: 0 <= i < j < |path| ==> path[i] != path[j]
    ensures forall q :: q != [] ==> (q in path <==> exists j :: 0 <= j < |added| && q <= added[j].stack)
    ensures Faithful(added, path, b.cumulative, b.flat, b.depth)
    ensures MaxStack(added) == if b.height > b.maxHeight then b.height else b.maxHeight
  {
    hide Sound;
    forall i | 1 <= i < |path|
      ensures path[i] != [] && FromSample(path[i], added)
    {
      assert LinkedAt(path, up, b.children, i);
    }
    forall i | 1 <= i < |path|
      ensures b.cumulative[i] == Through(added, path[i])
      ensures b.flat[i] == Ending(added, path[i]) && b.depth[i] == |path[i]|
    {
      assert RowValue(path[i], b.cumulative[i], b.flat[i], b.depth[i], added, [], 0, false);
    }
    forall q | q != []
      ensures q in path <==> exists j :: 0 <= j < |added| && q <= added[j].stack
    {
      if q in path {
        var i :| 0 <= i < |path| && path[i] == q;
        assert FromSample(path[i], added);
      }
      if j :| 0 <= j < |added| && q <= added[j].stack {
        assert Covers(path, added[j].stack);
        PrefixTake(q, added[j].stack);
      }
    }
  }

  lemma {:induction false} ListAboveRoot(path: seq<Stack>, up: seq<int>, children: seq<map<Key, int>>,
      lists: seq<seq<int>>, i: int)
    requires Shape(path, up, children, lists) && 0 <= i < |path|
    ensures forall a :: 0 <= a < |lists[i]| ==> 1 <= lists[i][a] < |path|
  {
    assert ListedAt(up, lists, i);
    assert forall a :: 0 <= a < |lists[i]| ==> lists[i][a] in lists[i];
  }

  /** A row's value is its own plus that of the rows in its children list. */
  lemma {:induction false} RowConservation(b: Book, path: seq<Stack>, up: seq<int>, added: seq<Weighted>, i: int)
    requires Exact(b, path, up, added) && 0 <= i < |path|
    ensures |path| == |b.cumulative| == |b.flat| <= |b.childrenList| && InRange(b.childrenList[i], |path|)
    ensures i > 0 ==> b.cumulative[i] == b.flat[i] + SumOf(b.childrenList[i], b.cumulative)
    ensures i == 0 ==> Total(added) == Ending(added, []) + SumOf(b.childrenList[i], b.cumulative)
  {
    hide Sound;
    RowsMatchStacks(b, path, up, added);
    ListBranches(path, up, b.children, b.childrenList, added, i);
    ThroughSplits(added, path, b.childrenList[i], path[i]);
    ThroughRoot(added);
    ListAboveRoot(path, up, b.children, b.childrenList, i);
    hide Shape, Values;
    SumThroughIsSumOf(added, path, b.childrenList[i], b.cumulative);
  }

  // When a stack is added exactly.

  ghost function SumAll(column: seq<int>): int {
    if column == [] then 0 else SumAll(column[..|column| - 1]) + column[|column| - 1]
  }

  lemma {:induction false} KeptSum(flat: seq<int>, flat': seq<int>)
    requires FlatKept(flat, flat')
    ensures SumAll(flat') == SumAll(flat)
    decreases |flat'|
  {
    if |flat'| > |flat| {
      KeptSum(flat, flat'[..|flat'| - 1]);
    } else {
      assert flat == flat';
    }
  }

  lemma {:induction false} SumIsGraphFlat(path: seq<Stack>, added: seq<Weighted>, flat: seq<int>, n: nat)
    requires n <= |path| == |flat|
    requires forall i :: 0 <= i < n ==> flat[i] == if path[i] != [] then Ending(added, path[i]) else 0
    ensures SumAll(flat[..n]) == GraphFlat(path, added, n)
  {
    if n > 0 {
      SumIsGraphFlat(path, added, flat, n - 1);
      assert flat[..n][..n - 1] == flat[..n - 1];
    }
  }

  lemma {:induction false} FaithfulFlat(added: seq<Weighted>, path: seq<Stack>, cum: seq<int>, flat: seq<int>,
      depth: seq<int>)
    requires Faithful(added, path, cum, flat, depth) && flat[0] == 0
    ensures SumAll(flat) == NonEmptyValue(added)
  {
    forall i | 0 <= i < |added| ensures added[i].stack in path {
      assert Covers(path, added[i].stack);
      assert added[i].stack[..|added[i].stack|] == added[i].stack;
    }
    hide Covers, FromSample, SumAll;
    GraphTotal(path, added);
    SumIsGraphFlat(path, added, flat, |path|);
    assert flat[..|path|] == flat;
  }

  /** The values ending in rows add up to the value of the samples with a non-empty stack. */
  lemma {:induction false} FlatTotal(b: Book, path: seq<Stack>, up: seq<int>, added: seq<Weighted>)
    requires Exact(b, path, up, added)
    ensures SumAll(b.flat) == NonEmptyValue(added)
  {
    hide Sound, Faithful, Shape, CoversAll, Covers, FromSample, MaxStack, SumAll;
    RowsMatchStacks(b, path, up, added);
    FaithfulFlat(added, path, b.cumulative, b.flat, b.depth);
  }

  lemma {:induction false} NonEmptySnoc(added: seq<Weighted>, w: Weighted)
    ensures NonEmptyValue(added + [w]) == NonEmptyValue(added) + (if w.stack != [] then w.value else 0)
  {
    assert (added + [w])[..|added|] == added;
  }

  lemma {:induction false} SameSum(rows: seq<int>, column: seq<int>, column': seq<int>)
    requires InRange(rows, |column|) && InRange(rows, |column'|)
    requires forall a :: 0 <= a < |rows| ==> column'[rows[a]] == column[rows[a]]
    ensures SumOf(rows, column') == SumOf(rows, column)
  {
    if rows != [] {
      SameSum(rows[..|rows| - 1], column, column');
    }
  }

  /** A stack whose root is not recognized leaves the total below the root as it was. */
  lemma {:induction false} RootMissed(b: Book, path: seq<Stack>, up: seq<int>, added: seq<Weighted>,
      b': Book, path': seq<Stack>, up': seq<int>, w: Weighted)
    requires Exact(b, path, up, added) && TopKept(b, b') && w.stack != [] && w.value != 0
    ensures !Exact(b', path', up', added + [w])
  {
    if Exact(b', path', up', added + [w]) {
      RowConservation(b, path, up, added, 0);
      RowConservation(b', path', up', added + [w], 0);
      ThroughSnoc(added, w, []);
      var rows := b.childrenList[0];
      hide Exact;
      assert forall a :: 0 <= a < |rows| ==> rows[a] in rows;
      SameSum(rows, b.cumulative, b'.cumulative);
      assert false;
    }
  }

  /** A stack whose leaf is not recognized leaves the total of the values that end in rows as it was. */
  lemma {:induction false} LeafMissed(b: Book, path: seq<Stack>, up: seq<int>, added: seq<Weighted>,
      b': Book, path': seq<Stack>, up': seq<int>, w: Weighted)
    requires Exact(b, path, up, added) && FlatKept(b.flat, b'.flat) && w.stack != [] && w.value != 0
    ensures !Exact(b', path', up', added + [w])
  {
    NonEmptySnoc(added, w);
    FlatTotal(b, path, up, added);
    KeptSum(b.flat, b'.flat);
    hide Exact;
    if Exact(b', path', up', added + [w]) {
      FlatTotal(b', path', up', added + [w]);
      assert false;
    }
  }

  /** The rows after the stack say exactly what the added samples and this one say. */
  ghost predicate AddedExactly(b: Book, added: seq<Weighted>, locations: seq<Option<Location>>, v: int)
    requires Sound(b)
  {
    exists path, up :: Exact(Run(b, MarksFrom(locations, 0), v), path, up, added + [Weighted(Path(locations), v)])
  }

  /**
   A stack with a visible frame and a value is added exactly if and only if its outermost and its innermost
   location have a visible frame. Otherwise its frames go below those of the stack before, or no row
   gets it as the value ending there.
   */
  lemma {:induction false} ExactIffAnchored(b: Book, path: seq<Stack>, up: seq<int>, added: seq<Weighted>,
      locations: seq<Option<Location>>, v: int)
    requires Exact(b, path, up, added) && Path(locations) != [] && v != 0
    ensures AddedExactly(b, added, locations, v) <==> Anchored(locations)
  {
    var marks, w := MarksFrom(locations, 0), Weighted(Path(locations), v);
    MarkedExactly(locations);
    AnchoredIsShown(locations);
    var after := Run(b, marks, v);
    hide Exact, Placed, WellMarked, RootShown, LeafShown, Anchored, MarksFrom, Path;
    if Anchored(locations) {
      var p, u := RunExact(b, path, up, added, marks, v);
    } else {
      forall path', up' ensures !Exact(after, path', up', added + [w]) {
        ExactSound(b, path, up, added);
        if !RootShown(locations) {
          RunKeepsTop(b, marks, v);
          RootMissed(b, path, up, added, after, path', up', w);
        } else {
          RunKeepsFlat(b, marks, v);
          LeafMissed(b, path, up, added, after, path', up', w);
        }
      }
    }
  }

  /**
   A stack of two locations of which the outer one is there with nothing but a null line. The builder takes
   it, but no record is written like that, and no filter leaves it (see FrameFilters).
   */
  const NULL_LINED_ROOT: seq<Option<Location>> := [Some(Location(2, None)), Some(Location(1, Some([None])))]

  /** Whatever was added before, that stack is not added exactly. */
  lemma {:induction false} NullLinedRootMissed(b: Book, path: seq<Stack>, up: seq<int>, added: seq<Weighted>)
    requires Exact(b, path, up, added)
    ensures Path(NULL_LINED_ROOT) == [2] && !AddedExactly(b, added, NULL_LINED_ROOT, 5)
  {
    hide Exact, AddedExactly;
    NullLinedIsNotAnchored();
    hide Anchored, Path;
    ExactIffAnchored(b, path, up, added, NULL_LINED_ROOT, 5);
  }

  lemma {:induction false} NullLinedIsNotAnchored()
    ensures Path(NULL_LINED_ROOT) == [2] && !Anchored(NULL_LINED_ROOT)
  {
    var lineless := Location(1, Some([None]));
    assert Reversed<Key>([None][1..]) == [] && Frames(lineless) == [];
    assert NULL_LINED_ROOT[1..] == [Some(lineless)] && NULL_LINED_ROOT[1..][1..] == [];
    assert IsLastNonNil(NULL_LINED_ROOT, 1);
  }

  lemma ExactSound(b: Book, path: seq<Stack>, up: seq<int>, added: seq<Weighted>)
    requires Exact(b, path, up, added)
    ensures Sound(b)
  {
  }
}
