/** The table builder: one row per frame, with columns and caller and callee sets updated per frame. */
module QueryTables {
  import opened Options
  import opened Profiles
  import opened TableSpec

  function RowOf(functions: map<Key, int>, addresses: map<string, map<Key, int>>, f: Frame): Option<int> {
    match f
    case Function(name) => if name in functions then Some(functions[name]) else None
    case Address(b, a) => if b in addresses && a in addresses[b] then Some(addresses[b][a]) else None
  }

  /** Rows and frames are in bijection. */
  ghost predicate Indexed(rows: seq<Frame>, functions: map<Key, int>, addresses: map<string, map<Key, int>>) {
    && (forall i :: 0 <= i < |rows| ==> RowOf(functions, addresses, rows[i]) == Some(i))
    && (forall f :: RowOf(functions, addresses, f).Some? ==>
          0 <= RowOf(functions, addresses, f).value < |rows| && rows[RowOf(functions, addresses, f).value] == f)
  }

  ghost predicate Columns(rows: seq<Frame>, events: seq<Event>, cumulative: seq<int>, flat: seq<int>) {
    && |cumulative| == |flat| == |rows|
    && (forall i :: 0 <= i < |rows| ==>
          cumulative[i] == CumulativeOf(events, rows[i]) && flat[i] == FlatOf(events, rows[i]))
    && (forall e :: e in events ==> e.frame in rows && (e.callee.Some? ==> e.callee.value in rows))
  }

  predicate Holds(sets: seq<set<int>>, i: int, j: int) {
    0 <= i < |sets| && j in sets[i]
  }

  /** Row `i`'s callers and row `j`'s callees say the same: that `j` calls `i`. */
  ghost predicate Related(rows: seq<Frame>, events: seq<Event>, callers: seq<set<int>>, callees: seq<set<int>>) {
    && (forall i, j :: Holds(callers, i, j) <==> Linked(rows, events, i, j))
    && (forall i, j :: Holds(callees, j, i) <==> Linked(rows, events, i, j))
  }

  ghost predicate Linked(rows: seq<Frame>, events: seq<Event>, i: int, j: int) {
    0 <= i < |rows| && 0 <= j < |rows| && Calls(events, rows[j], rows[i])
  }

  /** The row before, or -1 at the start of a sample. */
  ghost predicate IsPrevious(rows: seq<Frame>, previous: int, callee: Option<Frame>) {
    if previous == -1 then callee.None?
    else 0 <= previous < |rows| && callee == Some(rows[previous])
  }

  function Grown(sets: seq<set<int>>, i: nat): (r: seq<set<int>>)
    ensures |r| > i && |r| >= |sets|
    ensures forall k, x :: Holds(r, k, x) <==> Holds(sets, k, x)
  {
    if |sets| > i + 1 then sets else sets + seq(i + 2 - |sets|, _ => {})
  }

  lemma {:induction false} CallsSnoc(events: seq<Event>, e: Event, caller: Frame, callee: Frame)
    ensures Calls(events + [e], caller, callee)
      <==> Calls(events, caller, callee) || (e.frame == caller && e.callee == Some(callee))
  {
    assert e in events + [e];
    if Calls(events, caller, callee) {
      var x :| x in events && x.frame == caller && x.callee == Some(callee);
      assert x in events + [e];
    }
  }

  lemma {:induction false} RelatedStep(rows: seq<Frame>, rows': seq<Frame>, events: seq<Event>, e: Event,
      callers: seq<set<int>>, callers': seq<set<int>>, callees: seq<set<int>>, callees': seq<set<int>>, previous: int,
        current: nat)
    requires Related(rows, events, callers, callees) && rows <= rows' && current < |rows'| && rows'[current] == e.frame
    requires forall i, j :: 0 <= i < j < |rows'| ==> rows'[i] != rows'[j]
    requires forall x :: x in events ==> x.frame in rows && (x.callee.Some? ==> x.callee.value in rows)
    requires IsPrevious(rows, previous, e.callee)
    requires forall i, j :: Holds(callers', i, j) <==>
      Holds(callers, i, j) || (previous != -1 && i == previous && j == current)
    requires forall i, j :: Holds(callees', i, j) <==>
      Holds(callees, i, j) || (previous != -1 && i == current && j == previous)
    ensures Related(rows', events + [e], callers', callees')
  {
    forall i, j ensures Linked(rows', events + [e], i, j)
      <==> Linked(rows, events, i, j) || (previous != -1 && i == previous && j == current) {
      if 0 <= i < |rows'| && 0 <= j < |rows'| {
        CallsSnoc(events, e, rows'[j], rows'[i]);
        CallsInRows(rows, rows', events, i, j);
      }
    }
  }

  lemma {:induction false} CallsInRows(rows: seq<Frame>, rows': seq<Frame>, events: seq<Event>, i: nat, j: nat)
    requires rows <= rows' && i < |rows'| && j < |rows'|
    requires forall i, j :: 0 <= i < j < |rows'| ==> rows'[i] != rows'[j]
    requires forall x :: x in events ==> x.frame in rows && (x.callee.Some? ==> x.callee.value in rows)
    ensures Calls(events, rows'[j], rows'[i]) <==> Linked(rows, events, i, j)
  {
    if Calls(events, rows'[j], rows'[i]) {
      var x :| x in events && x.frame == rows'[j] && x.callee == Some(rows'[i]);
      var a :| 0 <= a < |rows| && rows[a] == rows'[j];
      var b :| 0 <= b < |rows| && rows[b] == rows'[i];
      assert rows'[a] == rows'[j] && rows'[b] == rows'[i];
    }
  }

  lemma IndexedDistinct(rows: seq<Frame>, functions: map<Key, int>,
      addresses: map<string, map<Key, int>>)
    requires Indexed(rows, functions, addresses)
    ensures forall i, j :: 0 <= i < j < |rows| ==> rows[i] != rows[j]
  {
  }

  lemma {:induction false} ColumnsAppend(rows: seq<Frame>, events: seq<Event>, cumulative: seq<int>, flat: seq<int>,
      e: Event)
    requires Columns(rows, events, cumulative, flat) && e.frame !in rows && (e.callee.Some? ==> e.callee.value in rows)
    ensures Columns(rows + [e.frame], events + [e], cumulative + [e.value], flat + [if e.leaf then e.value else 0])
  {
    NoEvents(events, e.frame);
    forall i | 0 <= i < |rows| + 1
      ensures (cumulative + [e.value])[i] == CumulativeOf(events + [e], (rows + [e.frame])[i])
      ensures (flat + [if e.leaf then e.value else 0])[i] == FlatOf(events + [e], (rows + [e.frame])[i])
    {
      EventsSnoc(events, e, (rows + [e.frame])[i]);
      if i < |rows| {
        assert rows[i] in rows;
      }
    }
  }

  lemma {:induction false} ColumnsMerge(rows: seq<Frame>, events: seq<Event>, cumulative: seq<int>, flat: seq<int>,
      e: Event, row: nat)
    requires Columns(rows, events, cumulative, flat) && row < |rows| && rows[row] == e.frame
      && (e.callee.Some? ==> e.callee.value in rows)
    requires forall i, j :: 0 <= i < j < |rows| ==> rows[i] != rows[j]
    ensures Columns(rows, events + [e], cumulative[row := cumulative[row] + e.value],
                    if e.leaf then flat[row := flat[row] + e.value] else flat)
  {
    forall i | 0 <= i < |rows|
      ensures cumulative[row := cumulative[row] + e.value][i] == CumulativeOf(events + [e], rows[i])
      ensures (if e.leaf then flat[row := flat[row] + e.value] else flat)[i] == FlatOf(events + [e], rows[i])
    {
      EventsSnoc(events, e, rows[i]);
    }
  }

  class TableBuilder {
    var cumulative: int
    var addresses: map<string, map<Key, int>>
    var functions: map<Key, int>
    var callers: seq<set<int>>
    var callees: seq<set<int>>
    var builderCumulative: seq<int>
    var builderFlat: seq<int>
    ghost var rows: seq<Frame>
    ghost var events: seq<Event>

    ghost predicate Valid()
      reads this`addresses, this`functions, this`callers, this`callees, this`builderCumulative, this`builderFlat,
        this`rows, this`events
    {
      && Indexed(rows, functions, addresses) && Columns(rows, events, builderCumulative, builderFlat)
      && Related(rows, events, callers, callees)
    }

    constructor (estimate: nat)
      ensures Valid() && events == [] && rows == [] && cumulative == 0
    {
      cumulative, addresses, functions := 0, map[], map[];
      callers, callees := seq(estimate, _ => {}), seq(estimate, _ => {});
      builderCumulative, builderFlat, rows, events := [], [], [], [];
    }

    method AddCaller(idx: int, caller: int)
      requires idx >= -1
      modifies this`callers
      ensures forall i, j :: Holds(callers, i, j) <==>
        Holds(old(callers), i, j) || (idx != -1 && caller != -1 && i == idx && j == caller)
    {
      if caller == -1 || idx == -1 {
        return;
      }
      callers := Grown(callers, idx);
      callers := callers[idx := callers[idx] + {caller}];
    }

    method AddCallee(idx: int, callee: int)
      requires idx >= -1
      modifies this`callees
      ensures forall i, j :: Holds(callees, i, j) <==>
        Holds(old(callees), i, j) || (idx != -1 && callee != -1 && i == idx && j == callee)
    {
      if callee == -1 || idx == -1 {
        return;
      }
      callees := Grown(callees, idx);
      callees := callees[idx := callees[idx] + {callee}];
    }

    /** Appends a row for a frame not seen before; the caller then files it. */
    method AppendRow(ghost e: Event, value: int, current: int, previous: int, leaf: bool)
      requires Valid() && current == |rows| && e == Event(e.frame, leaf, value, e.callee)
      requires RowOf(functions, addresses, e.frame).None? && IsPrevious(rows, previous, e.callee)
      modifies this`callers, this`callees, this`builderCumulative, this`builderFlat, this`rows, this`events
      ensures rows == old(rows) + [e.frame] && events == old(events) + [e]
      ensures Columns(rows, events, builderCumulative, builderFlat) && Related(rows, events, callers, callees)
    {
      hide Columns, Related;
      NewFrame(rows, functions, addresses, e.frame);
      IndexedDistinct(rows, functions, addresses);
      RowsOfEvents(rows, events, builderCumulative, builderFlat);
      ColumnsAppend(rows, events, builderCumulative, builderFlat, e);
      builderCumulative := builderCumulative + [value];
      if leaf {
        builderFlat := builderFlat + [value];
      } else {
        builderFlat := builderFlat + [0];
      }
      AddCaller(previous, current);
      AddCallee(current, previous);
      RelatedStep(rows, rows + [e.frame], events, e, old(callers), callers, old(callees), callees, previous, current);
      rows, events := rows + [e.frame], events + [e];
    }

    method MergeRow(ghost e: Event, row: int, value: int, previous: int, leaf: bool)
      requires Valid() && e == Event(e.frame, leaf, value, e.callee)
      requires RowOf(functions, addresses, e.frame) == Some(row) && IsPrevious(rows, previous, e.callee)
      modifies this`callers, this`callees, this`builderCumulative, this`builderFlat, this`events
      ensures Valid() && events == old(events) + [e] && 0 <= row < |rows| && rows[row] == e.frame
    {
      hide Columns, Related;
      IndexedDistinct(rows, functions, addresses);
      RowsOfEvents(rows, events, builderCumulative, builderFlat);
      ColumnsMerge(rows, events, builderCumulative, builderFlat, e, row);
      builderCumulative := builderCumulative[row := builderCumulative[row] + value];
      if leaf {
        builderFlat := builderFlat[row := builderFlat[row] + value];
      }
      AddCaller(previous, row);
      AddCallee(row, previous);
      RelatedStep(rows, rows, events, e, old(callers), callers, old(callees), callees, previous, row);
      events := events + [e];
    }

    /** A frame found by its address within its build id. */
    method AddAddress(buildId: string, address: Key, value: int, previous: int, leaf: bool,
        ghost callee: Option<Frame>) returns (row: int)
      requires Valid() && IsPrevious(rows, previous, callee)
      modifies this`callers, this`callees, this`builderCumulative, this`builderFlat, this`rows, this`events,
               this`addresses
      ensures Valid() && old(rows) <= rows
        && events == old(events) + [Event(Address(buildId, address), leaf, value, callee)]
      ensures IsPrevious(rows, row, Some(Address(buildId, address))) && row != -1
    {
      hide Columns, Related;
      ghost var e := Event(Address(buildId, address), leaf, value, callee);
      if buildId in addresses && address in addresses[buildId] {
        row := addresses[buildId][address];
        MergeRow(e, row, value, previous, leaf);
      } else {
        row := RowCount();
        AppendRow(e, value, row, previous, leaf);
        IndexedAppend(old(rows), functions, addresses, e.frame);
        if buildId !in addresses {
          addresses := addresses[buildId := map[address := row]];
        } else {
          addresses := addresses[buildId := addresses[buildId][address := row]];
        }
      }
    }

    /** A frame found by its function name. */
    method AddFunction(name: Key, value: int, previous: int, leaf: bool, ghost callee: Option<Frame>) returns (row: int)
      requires Valid() && IsPrevious(rows, previous, callee)
      modifies this`callers, this`callees, this`builderCumulative, this`builderFlat, this`rows, this`events,
               this`functions
      ensures Valid() && old(rows) <= rows && events == old(events) + [Event(Function(name), leaf, value, callee)]
      ensures IsPrevious(rows, row, Some(Function(name))) && row != -1
    {
      hide Columns, Related;
      ghost var e := Event(Function(name), leaf, value, callee);
      if name in functions {
        row := functions[name];
        MergeRow(e, row, value, previous, leaf);
      } else {
        row := RowCount();
        AppendRow(e, value, row, previous, leaf);
        IndexedAppend(old(rows), functions, addresses, e.frame);
        functions := functions[name := row];
      }
    }

    /** The next table row. */
    method RowCount() returns (n: int)
      requires Valid()
      ensures n == |rows|
    {
      n := |builderCumulative|;
    }

    /** The lines of a location, innermost inlined frame first, after the visits the sample made so far. */
    method AddLines(lines: seq<Option<TableLine>>, value: int, innermost: bool, first: int,
        ghost before: seq<Event>, ghost visits: seq<Visit>) returns (previous: int)
      requires Valid() && IsPrevious(rows, first, LastFrame(visits)) && events == before + EventsOf(visits, value)
      modifies this`callers, this`callees, this`builderCumulative, this`builderFlat, this`rows, this`events,
               this`functions
      ensures Valid()
      ensures
        var now := visits + LineVisits(lines, |lines|, innermost);
        IsPrevious(rows, previous, LastFrame(now)) && events == before + EventsOf(now, value)
    {
      hide Valid, IsPrevious, IsFirst, EventsOf, LineVisits, LastFrame;
      NoLines(lines, innermost);
      previous := first;
      ghost var now := visits;
      assert visits + [] == visits;
      for k := 0 to |lines|
        invariant Valid() && now == visits + LineVisits(lines, k, innermost)
        invariant IsPrevious(rows, previous, LastFrame(now)) && events == before + EventsOf(now, value)
      {
        var firstLine := IsFirstNonNil(lines, k);
        var isLeaf := innermost && firstLine;
        LineStep(lines, k, innermost, isLeaf, visits);
        if lines[k].Some? && lines[k].value.name.Some? {
          ghost var v := Visit(Function(lines[k].value.name.value), isLeaf);
          VisitSnoc(now, v, value);
          previous := AddFunction(lines[k].value.name.value, value, previous, isLeaf, LastFrame(now));
          now := now + [v];
        }
      }
    }

    /** One sample, leaf first; null locations and lines without a function name are skipped. */
    method AddSample(sample: TableSample)
      requires Valid()
      modifies this`callers, this`callees, this`builderCumulative, this`builderFlat, this`rows, this`events,
               this`functions, this`addresses
      ensures Valid() && events == old(events) + EventsOf(Visits(sample.locations, |sample.locations|), sample.value)
    {
      hide Valid, IsFirst, EventsOf;
      var previous := -1;
      ghost var now: seq<Visit> := [];
      NoVisits(sample.value);
      assert old(events) + [] == old(events);
      for j := 0 to |sample.locations|
        invariant Valid() && now == Visits(sample.locations, j) && IsPrevious(rows, previous, LastFrame(now))
        invariant events == old(events) + EventsOf(now, sample.value)
      {
        ghost var before := now;
        now := Visits(sample.locations, j + 1);
        if sample.locations[j].Some? {
          var l := sample.locations[j].value;
          var isLeaf := IsFirstNonNil(sample.locations, j);
          LocationStep(sample.locations, j, isLeaf);
          if l.lines.None? {
            VisitSnoc(before, Visit(Address(l.buildId, l.address), isLeaf), sample.value);
            previous := AddAddress(l.buildId, l.address, sample.value, previous, isLeaf, LastFrame(before));
          } else {
            previous := AddLines(l.lines.value, sample.value, isLeaf, previous, old(events), before);
          }
        } else {
          assert now == before;
        }
      }
    }

    /** The total grows by the values of the whole record, whatever their stacks. */
    method AddTotal(samples: seq<TableSample>)
      modifies this`cumulative
      ensures cumulative == old(cumulative) + ValueOf(samples)
    {
      for i := 0 to |samples|
        invariant cumulative == old(cumulative) + ValueOf(samples[..i])
      {
        assert samples[..i + 1][..i] == samples[..i];
        cumulative := cumulative + samples[i].value;
      }
      assert samples[..|samples|] == samples;
    }

    /** A record of samples. */
    method AddRecord(samples: seq<TableSample>)
      requires Valid()
      modifies this
      ensures Valid() && events == old(events) + AllEvents(samples)
      ensures cumulative == old(cumulative) + ValueOf(samples)
    {
      hide Valid, AllEvents, EventsOf, Visits;
      NoSamples();
      AddTotal(samples);
      assert old(events) + [] == old(events);
      for i := 0 to |samples|
        invariant Valid() && events == old(events) + AllEvents(samples[..i])
        invariant cumulative == old(cumulative) + ValueOf(samples)
      {
        AddSample(samples[i]);
        AllEventsSnoc(samples[..i], samples[i]);
        assert samples[..i + 1] == samples[..i] + [samples[i]];
      }
      assert samples[..|samples|] == samples;
    }

    /** In every state the two relations are each other's converse, and are those of the samples. */
    lemma {:induction false} CallersAndCalleesConverse(i: int, j: int)
      requires Valid()
      ensures Holds(callers, i, j) <==> Holds(callees, j, i)
      ensures Holds(callers, i, j) ==> 0 <= i < |rows| && 0 <= j < |rows| && Calls(events, rows[j], rows[i])
    {
      assert Holds(callers, i, j) <==> Linked(rows, events, i, j);
    }
  }

  /** All that a row's set holds; rows beyond the sets hold nothing. */
  ghost function HeldBy(sets: seq<set<int>>, i: nat): (r: set<int>)
    ensures forall x :: x in r <==> Holds(sets, i, x)
  {
    if i < |sets| then sets[i] else {}
  }

  /** The list column of a relation: a row whose set holds nothing is null. */
  method Populate(sets: seq<set<int>>, rows: nat) returns (column: seq<Option<set<int>>>)
    ensures |column| == rows
    ensures forall i :: 0 <= i < rows ==> column[i] == if HeldBy(sets, i) == {} then None else Some(HeldBy(sets, i))
  {
    column := [];
    for i := 0 to rows
      invariant |column| == i
      invariant forall k :: 0 <= k < i ==> column[k] == if HeldBy(sets, k) == {} then None else Some(HeldBy(sets, k))
    {
      if |sets| > i {
        if |sets[i]| == 0 {
          column := column + [None];
        } else {
          column := column + [Some(sets[i])];
        }
      } else {
        column := column + [None];
      }
    }
  }

  ghost function LastFrame(visits: seq<Visit>): Option<Frame> {
    if visits == [] then None else Some(visits[|visits| - 1].frame)
  }

  ghost function ValueOf(samples: seq<TableSample>): int {
    if samples == [] then 0 else ValueOf(samples[..|samples| - 1]) + samples[|samples| - 1].value
  }

  lemma {:induction false} LineStep(lines: seq<Option<TableLine>>, k: nat, innermost: bool, isLeaf: bool,
      visits: seq<Visit>)
    requires k < |lines| && isLeaf == (innermost && IsFirst(lines, k))
    ensures
      var now, next := visits + LineVisits(lines, k, innermost), visits + LineVisits(lines, k + 1, innermost);
      next == if lines[k].Some? && lines[k].value.name.Some?
              then now + [Visit(Function(lines[k].value.name.value), isLeaf)] else now
  {
    assert LineVisits(lines, k, innermost) + [] == LineVisits(lines, k, innermost);
  }

  lemma LocationStep(locations: seq<Option<TableLocation>>, j: nat, isLeaf: bool)
    requires j < |locations| && locations[j].Some? && isLeaf == IsFirst(locations, j)
    ensures Visits(locations, j + 1) == Visits(locations, j) + VisitsAt(locations[j].value, isLeaf)
  {
  }

  lemma NoLines(lines: seq<Option<TableLine>>, innermost: bool)
    ensures LineVisits(lines, 0, innermost) == []
  {
  }

  lemma NoSamples()
    ensures AllEvents([]) == []
  {
  }

  lemma NoVisits(value: int)
    ensures EventsOf([], value) == []
  {
  }

  lemma {:induction false} VisitSnoc(visits: seq<Visit>, v: Visit, value: int)
    ensures EventsOf(visits + [v], value)
      == EventsOf(visits, value) + [Event(v.frame, v.leaf, value, LastFrame(visits))]
    ensures LastFrame(visits + [v]) == Some(v.frame)
  {
    assert (visits + [v])[..|visits|] == visits;
  }

  lemma {:induction false} NewFrame(rows: seq<Frame>, functions: map<Key, int>, addresses: map<string, map<Key, int>>,
      f: Frame)
    requires Indexed(rows, functions, addresses) && RowOf(functions, addresses, f).None?
    ensures f !in rows && forall i, j :: 0 <= i < j < |rows + [f]| ==> (rows + [f])[i] != (rows + [f])[j]
  {
    IndexedDistinct(rows, functions, addresses);
  }

  lemma RowsOfEvents(rows: seq<Frame>, events: seq<Event>, cumulative: seq<int>, flat: seq<int>)
    requires Columns(rows, events, cumulative, flat)
    ensures |cumulative| == |flat| == |rows|
    ensures forall x :: x in events ==> x.frame in rows && (x.callee.Some? ==> x.callee.value in rows)
  {
  }

  /** Filing the new row under its frame keeps rows and frames in bijection. */
  lemma {:induction false} IndexedAppend(rows: seq<Frame>, functions: map<Key, int>,
      addresses: map<string, map<Key, int>>, f: Frame)
    requires Indexed(rows, functions, addresses) && RowOf(functions, addresses, f).None?
    ensures f.Function? ==> Indexed(rows + [f], functions[f.name := |rows|], addresses)
    ensures f.Address? && f.buildId !in addresses ==>
      Indexed(rows + [f], functions, addresses[f.buildId := map[f.address := |rows|]])
    ensures f.Address? && f.buildId in addresses ==>
      Indexed(rows + [f], functions, addresses[f.buildId := addresses[f.buildId][f.address := |rows|]])
  {
    var functions' := if f.Function? then functions[f.name := |rows|] else functions;
    var addresses' :=
      if f.Function? then addresses
      else if f.buildId in addresses then addresses[f.buildId := addresses[f.buildId][f.address := |rows|]]
      else addresses[f.buildId := map[f.address := |rows|]];
    forall g ensures RowOf(functions', addresses', g) == if g == f then Some(|rows|)
      else RowOf(functions, addresses, g) {
    }
    assert forall i :: 0 <= i < |rows| ==> rows[i] != f;
    assert Indexed(rows + [f], functions', addresses');
  }
}
