/**
 The nodes of a table flame graph, the tables their indices point into, and the order and equality
 by which siblings are sorted and merged.
 */
module FlamegraphTables {
  import opened Options

  datatype Line = Line(line: int, functionIndex: nat)
  datatype Location = Location(id: string, address: nat, lines: seq<Line>)
  datatype Function = Function(id: string, nameStringIndex: nat)

  /** Locations and functions are addressed from 1 on; index 0 stands for none. */
  datatype Tables = Tables(strings: seq<string>, locations: seq<Location>, functions: seq<Function>)

  datatype Meta = Meta(locationIndex: nat, lineIndex: nat)
  datatype Node = Node(meta: Meta, cumulative: int, diff: int, children: seq<Node>)

  function GetLocation(t: Tables, index: nat): Option<Location> {
    if index == 0 || |t.locations| <= index - 1 then None else Some(t.locations[index - 1])
  }

  function GetFunction(t: Tables, index: nat): Option<Function> {
    if index == 0 || |t.functions| <= index - 1 then None else Some(t.functions[index - 1])
  }

  /** What the code demands of the tables: every function's name is in the string table. */
  predicate NamesInRange(t: Tables) {
    forall i :: 0 <= i < |t.functions| ==> t.functions[i].nameStringIndex < |t.strings|
  }

  /** Lexicographic order of strings. */
  predicate StringLeq(a: string, b: string) {
    a == [] || (b != [] && (a[0] < b[0] || (a[0] == b[0] && StringLeq(a[1..], b[1..]))))
  }

  lemma {:induction false} StringLeqTotal(a: string, b: string)
    ensures StringLeq(a, b) || StringLeq(b, a)
  {
    if a != [] && b != [] && a[0] == b[0] {
      StringLeqTotal(a[1..], b[1..]);
    }
  }

  lemma {:induction false} StringLeqAntisymmetric(a: string, b: string)
    requires StringLeq(a, b) && StringLeq(b, a)
    ensures a == b
  {
    if a != [] && b != [] {
      StringLeqAntisymmetric(a[1..], b[1..]);
      assert a == [a[0]] + a[1..] && b == [b[0]] + b[1..];
    }
  }

  lemma {:induction false} StringLeqTransitive(a: string, b: string, c: string)
    requires StringLeq(a, b) && StringLeq(b, c)
    ensures StringLeq(a, c)
  {
    if a != [] && b != [] && c != [] && a[0] == b[0] == c[0] {
      StringLeqTransitive(a[1..], b[1..], c[1..]);
    }
  }

  /** The function of the node's line, if its location has that line and the line a function. */
  function FunctionOf(t: Tables, l: Location, m: Meta): Option<Function> {
    if |l.lines| > m.lineIndex then GetFunction(t, l.lines[m.lineIndex].functionIndex) else None
  }

  /** The comparison given to the sort; it answers yes on equal names and addresses. */
  predicate CompareByName(t: Tables, a: Meta, b: Meta)
    requires NamesInRange(t)
  {
    match (GetLocation(t, a.locationIndex), GetLocation(t, b.locationIndex))
    case (None, other) => other.Some?
    case (Some(_), None) => false
    case (Some(la), Some(lb)) =>
      if |la.lines| == 0 && |lb.lines| > 0 then true
      else if |la.lines| > 0 && |lb.lines| == 0 then false
      else
        match (FunctionOf(t, la, a), FunctionOf(t, lb, b))
        case (Some(_), None) => false
        case (None, Some(_)) => true
        case (None, None) => la.address <= lb.address
        case (Some(fa), Some(fb)) => StringLeq(t.strings[fa.nameStringIndex], t.strings[fb.nameStringIndex])
  }

  /** Whether two neighbours are merged. */
  predicate EqualsByName(t: Tables, a: Meta, b: Meta)
    requires NamesInRange(t)
  {
    match (GetLocation(t, a.locationIndex), GetLocation(t, b.locationIndex))
    case (Some(la), Some(lb)) =>
      && a.lineIndex < |la.lines| && b.lineIndex < |lb.lines|
      && (match (FunctionOf(t, la, a), FunctionOf(t, lb, b))
          case (None, None) => la.address == lb.address
          case (Some(fa), Some(fb)) => t.strings[fa.nameStringIndex] == t.strings[fb.nameStringIndex]
          case _ => false)
    case _ => false
  }

  /** What identifies a frame in an aggregated graph. */
  datatype Key =
    | Name(name: string)
    | Address(address: nat)
    | Unlined(locationIndex: nat, lineIndex: nat)

  /** A frame's function name; its address if only the function is missing; else its own location. */
  function KeyOf(t: Tables, m: Meta): Key
    requires NamesInRange(t)
  {
    match GetLocation(t, m.locationIndex)
    case None => Unlined(m.locationIndex, m.lineIndex)
    case Some(l) =>
      match FunctionOf(t, l, m)
      case Some(f) => Name(t.strings[f.nameStringIndex])
      case None => if m.lineIndex < |l.lines| then Address(l.address) else Unlined(m.locationIndex, m.lineIndex)
  }

  lemma EqualMeansSameKey(t: Tables, a: Meta, b: Meta)
    requires NamesInRange(t)
    ensures EqualsByName(t, a, b) <==> KeyOf(t, a) == KeyOf(t, b) && !KeyOf(t, a).Unlined?
  {
  }

  /** The order a sort by the comparison establishes: `a` may stand before `b`. */
  predicate InOrder(t: Tables, a: Meta, b: Meta)
    requires NamesInRange(t)
  {
    CompareByName(t, a, b) || !CompareByName(t, b, a)
  }

  lemma {:induction false} NamesTotal(t: Tables, a: Meta, b: Meta)
    requires NamesInRange(t) && KeyOf(t, a).Name? && KeyOf(t, b).Name?
    ensures InOrder(t, a, b) <==> StringLeq(KeyOf(t, a).name, KeyOf(t, b).name)
  {
    StringLeqTotal(KeyOf(t, a).name, KeyOf(t, b).name);
  }

  /** The order is total and transitive: sorting by the comparison makes sense although it is not strict. */
  lemma {:induction false} InOrderIsPreorder(t: Tables, a: Meta, b: Meta, c: Meta)
    requires NamesInRange(t)
    ensures InOrder(t, a, b) || InOrder(t, b, a)
    ensures InOrder(t, a, b) && InOrder(t, b, c) ==> InOrder(t, a, c)
  {
    if KeyOf(t, a).Name? && KeyOf(t, b).Name? && KeyOf(t, c).Name? {
      NamesTotal(t, a, b);
      NamesTotal(t, b, c);
      NamesTotal(t, a, c);
      if InOrder(t, a, b) && InOrder(t, b, c) {
        StringLeqTransitive(KeyOf(t, a).name, KeyOf(t, b).name, KeyOf(t, c).name);
      }
    }
  }

  /** Whatever stands between two frames of one function is a frame of that function. */
  lemma {:induction false} NamesAreContiguous(t: Tables, a: Meta, b: Meta, c: Meta)
    requires NamesInRange(t) && InOrder(t, a, b) && InOrder(t, b, c)
    requires KeyOf(t, a).Name? && KeyOf(t, a) == KeyOf(t, c)
    ensures KeyOf(t, b) == KeyOf(t, a)
  {
    var name := KeyOf(t, a).name;
    assert KeyOf(t, b).Name?;
    StringLeqTotal(name, KeyOf(t, b).name);
    StringLeqAntisymmetric(name, KeyOf(t, b).name);
  }

  /** The strings first differ at a place where the one is smaller. */
  ghost predicate SmallerAt(a: string, b: string, k: int) {
    0 <= k < |a| && k < |b| && a[k] < b[k] && forall i :: 0 <= i < k ==> a[i] == b[i]
  }

  /** A string is before another if it is a beginning of it, or smaller at the first place where they differ. */
  lemma {:induction false} StringLeqExactly(a: string, b: string)
    ensures StringLeq(a, b) <==> a <= b || exists k :: SmallerAt(a, b, k)
  {
    if a != [] && b != [] {
      if a[0] < b[0] {
        assert SmallerAt(a, b, 0);
      } else if a[0] == b[0] {
        StringLeqExactly(a[1..], b[1..]);
        SmallerInRest(a, b);
        assert a == [a[0]] + a[1..] && b == [b[0]] + b[1..];
        hide SmallerAt;
      }
    }
  }

  lemma {:induction false} SmallerInRest(a: string, b: string)
    requires a != [] && b != [] && a[0] == b[0]
    ensures (exists k :: SmallerAt(a, b, k)) <==> exists k :: SmallerAt(a[1..], b[1..], k)
  {
    if k :| SmallerAt(a, b, k) {
      assert forall i :: 0 <= i < k - 1 ==> a[1..][i] == a[i + 1] == b[i + 1] == b[1..][i];
      assert SmallerAt(a[1..], b[1..], k - 1);
    }
    if k :| SmallerAt(a[1..], b[1..], k) {
      assert forall i :: 1 <= i < k + 1 ==> a[i] == a[1..][i - 1] == b[1..][i - 1] == b[i];
      assert SmallerAt(a, b, k + 1);
    }
  }

  /** The location that the index of a node names; they count from one. */
  ghost predicate AtLocation(t: Tables, m: Meta, l: Location) {
    1 <= m.locationIndex <= |t.locations| && l == t.locations[m.locationIndex - 1]
  }

  /** The function of a node's line; functions count from one, too. */
  ghost predicate AtFunction(t: Tables, m: Meta, l: Location, f: Function) {
    && AtLocation(t, m, l) && m.lineIndex < |l.lines|
    && var index := l.lines[m.lineIndex].functionIndex;
    1 <= index <= |t.functions| && f == t.functions[index - 1]
  }

  /** What a frame is known by: its function's name, or else its address, if it has a line; or else nothing shared. */
  lemma KeyOfFrame(t: Tables, m: Meta, l: Location, f: Function)
    requires NamesInRange(t)
    ensures AtFunction(t, m, l, f) ==> KeyOf(t, m) == Name(t.strings[f.nameStringIndex])
    ensures AtLocation(t, m, l) && m.lineIndex < |l.lines| && (forall g :: !AtFunction(t, m, l, g)) ==>
      KeyOf(t, m) == Address(l.address)
    ensures AtLocation(t, m, l) && m.lineIndex >= |l.lines| ==> KeyOf(t, m) == Unlined(m.locationIndex, m.lineIndex)
    ensures m.locationIndex == 0 || m.locationIndex > |t.locations| ==>
      KeyOf(t, m) == Unlined(m.locationIndex, m.lineIndex)
  {
    if AtLocation(t, m, l) && m.lineIndex < |l.lines| {
      var index := l.lines[m.lineIndex].functionIndex;
      if 1 <= index <= |t.functions| {
        assert AtFunction(t, m, l, t.functions[index - 1]);
      }
    }
  }

  /** Frames without a location come first, then those without lines, without a function, and the others. */
  ghost function Rank(t: Tables, m: Meta): int
    requires NamesInRange(t)
  {
    if m.locationIndex == 0 || m.locationIndex > |t.locations| then 0
    else
      var l := t.locations[m.locationIndex - 1];
      if l.lines == [] then 1
      else if m.lineIndex >= |l.lines| then 2
      else
        var index := l.lines[m.lineIndex].functionIndex;
        if index == 0 || index > |t.functions| then 2 else 3
  }

  /** The order of siblings: by what they have, then by address or by name. */
  lemma InOrderExactly(t: Tables, a: Meta, b: Meta)
    requires NamesInRange(t)
    ensures Rank(t, a) != Rank(t, b) ==> (InOrder(t, a, b) <==> Rank(t, a) < Rank(t, b))
    ensures Rank(t, a) == Rank(t, b) == 0 ==> InOrder(t, a, b)
    ensures Rank(t, a) == Rank(t, b) && Rank(t, a) in {1, 2} ==>
      (InOrder(t, a, b) <==> t.locations[a.locationIndex - 1].address <= t.locations[b.locationIndex - 1].address)
    ensures Rank(t, a) == Rank(t, b) == 3 ==>
      && KeyOf(t, a).Name? && KeyOf(t, b).Name?
      && (InOrder(t, a, b) <==> StringLeq(KeyOf(t, a).name, KeyOf(t, b).name))
  {
    if Rank(t, a) == Rank(t, b) == 3 {
      NamesTotal(t, a, b);
    }
  }
}
