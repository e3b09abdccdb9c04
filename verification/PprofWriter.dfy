/** The writer of flat pprof profiles: tables that grow, with maps from content to identifier. */
module PprofWriters {
  import opened Options
  import opened PprofProfiles
  import opened PprofTables

  class PprofWriter {
    const isDiff: bool
    var strings: seq<string>
    var stringTableIndex: map<string, nat>
    var sampleType: ValueType
    var periodType: ValueType
    var mappings: seq<Mapping>
    var mappingByKey: map<MappingKey, nat>
    var functions: seq<Function>
    var functionByKey: map<FunctionKey, nat>
    var locations: seq<Location>
    var locationByKey: map<seq<nat>, nat>
    var samples: seq<Sample>

    /** The profile written so far. */
    function Result(): Profile
      reads this
    {
      Profile(strings, [sampleType], Some(periodType), mappings, functions, locations, samples)
    }

    ghost predicate Valid()
      reads this
    {
      && Interned(strings, stringTableIndex) && WellFormed(Result())
      && MappingsKeyed(mappings, mappingByKey) && FunctionsKeyed(functions, functionByKey)
      && LocationsKeyed(locations, mappings, locationByKey)
    }

    constructor (isDiff: bool, period: (string, string), sample: (string, string))
      ensures Valid() && this.isDiff == isDiff && samples == []
      ensures TypeDenotes(strings, periodType, period) && TypeDenotes(strings, sampleType, sample)
    {
      this.isDiff := isDiff;
      strings, stringTableIndex := [""], map["" := 0];
      mappings, mappingByKey, functions, functionByKey := [], map[], [], map[];
      locations, locationByKey, samples := [], map[], [];
      new;
      hide Interned, WellFormed, TypeDenotes, MappingsKeyed, FunctionsKeyed, LocationsKeyed;
      EmptyInterned();
      EmptyKeyed();
      SetTypes(period, sample);
    }

    method SetTypes(period: (string, string), sample: (string, string))
      requires Interned(strings, stringTableIndex) && mappings == [] && functions == [] && locations == []
        && samples == []
      modifies this`strings, this`stringTableIndex, this`sampleType, this`periodType
      ensures Interned(strings, stringTableIndex) && WellFormed(Result())
      ensures TypeDenotes(strings, periodType, period) && TypeDenotes(strings, sampleType, sample)
    {
      hide Interned, WellFormed, TypeDenotes, Extends;
      periodType := TypeOf(period);
      ghost var before := strings;
      sampleType := TypeOf(sample);
      TypeDenotesGrows(before, strings, periodType, period);
      FirstInterned(strings, stringTableIndex);
      EmptyWellFormed(strings, sampleType, periodType);
    }

    method TypeOf(text: (string, string)) returns (t: ValueType)
      requires Interned(strings, stringTableIndex)
      modifies this`strings, this`stringTableIndex
      ensures Interned(strings, stringTableIndex) && Extends(old(strings), strings) && TypeDenotes(strings, t, text)
    {
      hide Interned;
      var typ := String(text.0);
      var unit := String(text.1);
      t := ValueType(typ, unit);
    }

    /** Interns a string; indices given before keep their strings. */
    method String(s: string) returns (idx: nat)
      requires Interned(strings, stringTableIndex)
      modifies this`strings, this`stringTableIndex
      ensures Interned(strings, stringTableIndex) && Extends(old(strings), strings)
      ensures idx < |strings| && strings[idx] == s
    {
      if s in stringTableIndex {
        return stringTableIndex[s];
      }
      idx := |strings|;
      strings := strings + [s];
      stringTableIndex := stringTableIndex[s := idx];
    }

    method TransposeBinaryArray(dict: seq<string>) returns (t: seq<nat>)
      requires Interned(strings, stringTableIndex)
      modifies this`strings, this`stringTableIndex
      ensures Interned(strings, stringTableIndex) && Extends(old(strings), strings) && Transposed(strings, dict, t)
    {
      t := [];
      for i := 0 to |dict|
        invariant Interned(strings, stringTableIndex) && Extends(old(strings), strings)
        invariant Transposed(strings, dict[..i], t)
      {
        var idx := String(dict[i]);
        t := t + [idx];
        assert dict[..i + 1] == dict[..i] + [dict[i]];
      }
      assert dict[..|dict|] == dict;
    }

    /** Interns all strings of a record's dictionaries. */
    method Transpose(r: Record) returns (t: Transposition)
      requires Interned(strings, stringTableIndex)
      modifies this`strings, this`stringTableIndex
      ensures Interned(strings, stringTableIndex) && Extends(old(strings), strings) && AllTransposed(strings, r, t)
    {
      hide Interned, Transposed, Extends;
      ghost var s0 := strings;
      var mappingFiles := TransposeBinaryArray(r.mappingFiles);
      ghost var s1 := strings;
      var buildIds := TransposeBinaryArray(r.buildIds);
      ghost var s2 := strings;
      var names := TransposeBinaryArray(r.names);
      ghost var s3 := strings;
      var systemNames := TransposeBinaryArray(r.systemNames);
      ghost var s4 := strings;
      var filenames := TransposeBinaryArray(r.filenames);
      ghost var s5 := strings;
      var labelNames := TransposeBinaryArray(r.labelNames);
      ghost var s6 := strings;
      var labelValues := TransposeLabels(r.labelDicts);
      t := Transposition(mappingFiles, buildIds, names, systemNames, filenames, labelNames, labelValues);
      TransposedGrows(s6, strings, r.labelNames, labelNames);
      ExtendsTransitive(s5, s6, strings);
      TransposedGrows(s5, strings, r.filenames, filenames);
      ExtendsTransitive(s4, s5, strings);
      TransposedGrows(s4, strings, r.systemNames, systemNames);
      ExtendsTransitive(s3, s4, strings);
      TransposedGrows(s3, strings, r.names, names);
      ExtendsTransitive(s2, s3, strings);
      TransposedGrows(s2, strings, r.buildIds, buildIds);
      ExtendsTransitive(s1, s2, strings);
      TransposedGrows(s1, strings, r.mappingFiles, mappingFiles);
      ExtendsTransitive(s0, s1, strings);
    }

    method TransposeLabels(dicts: seq<seq<string>>) returns (ts: seq<seq<nat>>)
      requires Interned(strings, stringTableIndex)
      modifies this`strings, this`stringTableIndex
      ensures Interned(strings, stringTableIndex) && Extends(old(strings), strings)
      ensures |ts| == |dicts| && forall k :: 0 <= k < |ts| ==> Transposed(strings, dicts[k], ts[k])
    {
      ts := [];
      assert Extends(strings, strings);
      hide Interned, Transposed, Extends;
      for i := 0 to |dicts|
        invariant Interned(strings, stringTableIndex) && Extends(old(strings), strings)
        invariant |ts| == i && forall k :: 0 <= k < i ==> Transposed(strings, dicts[k], ts[k])
      {
        ghost var before, done := strings, ts;
        var t := TransposeBinaryArray(dicts[i]);
        forall k | 0 <= k < i ensures Transposed(strings, dicts[k], done[k]) {
          TransposedGrows(before, strings, dicts[k], done[k]);
        }
        ExtendsTransitive(old(strings), before, strings);
        ts := ts + [t];
      }
    }

    ghost predicate Tables()
      reads this`strings, this`mappings, this`mappingByKey, this`functions, this`functionByKey, this`locations,
        this`locationByKey
    {
      TablesOk(|strings|, mappings, mappingByKey, functions, functionByKey, locations, locationByKey)
    }

    /**
     The identifier of a mapping with the same rounded size, offset and owner; 0 for none. A mapping
     is added only if there is none, and then has all of the input.
     */
    method InternMapping(r: Record, t: Transposition, raw: Option<RawMapping>) returns (id: nat)
      requires Tables() && Interned(strings, stringTableIndex) && AllTransposed(strings, r, t)
      requires raw.Some? ==> InDict(raw.value.file, r.mappingFiles) && InDict(raw.value.buildId, r.buildIds)
      modifies this`mappings, this`mappingByKey
      ensures Tables() && OneMore(old(mappings), mappings, id)
      ensures id <= |mappings| && (id == 0 <==> raw.None?)
      ensures raw.Some? ==> MappingDenotes(strings, mappings[id - 1], r, raw.value)
      ensures raw.Some? && id > |old(mappings)| ==>
        SameLengths(r, t) && mappings[id - 1] == MappingOf(r, t, raw.value, id)
    {
      hide TablesOk, AllTransposed, Interned, MappingDenotes;
      if raw.None? {
        id := 0;
      } else {
        ghost var m := raw.value;
        BuiltMappingDenotes(strings, stringTableIndex, r, t, m);
        id := FileMapping(MappingOf(r, t, raw.value, |mappings| + 1));
        SameMappingDenotes(strings, r, m, MappingOf(r, t, m, 0), mappings[id - 1]);
      }
    }

    method FileMapping(m: Mapping) returns (id: nat)
      requires Tables() && m.id == |mappings| + 1 && 0 <= m.filename < |strings| && 0 <= m.buildId < |strings|
      modifies this`mappings, this`mappingByKey
      ensures Tables() && OneMore(old(mappings), mappings, id) && 1 <= id <= |mappings|
      ensures MakeMappingKey(mappings[id - 1]) == MakeMappingKey(m)
      ensures id > |old(mappings)| ==> mappings[id - 1] == m
    {
      hide TablesOk, MappingsKeyed, FunctionsKeyed, LocationsKeyed, MakeMappingKey;
      var key := MakeMappingKey(m);
      KeyedTables(|strings|, mappings, mappingByKey, functions, functionByKey, locations, locationByKey);
      if key in mappingByKey {
        FoundMapping(mappings, mappingByKey, key);
        id := mappingByKey[key];
      } else {
        AddedMapping(|strings|, mappings, mappingByKey, functions, functionByKey, locations, locationByKey, m);
        mappings := mappings + [m];
        mappingByKey := mappingByKey[key := m.id];
        id := m.id;
      }
    }

    /**
     The identifier of the function a line names; 0 if the line says nothing about it. A function is
     added only if there is none like it.
     */
    method InternFunction(r: Record, t: Transposition, l: RawLine) returns (id: nat)
      requires Tables() && Interned(strings, stringTableIndex) && AllTransposed(strings, r, t) && LineInRange(r, l)
      modifies this`functions, this`functionByKey
      ensures Tables() && OneMore(old(functions), functions, id)
      ensures id <= |functions|
      ensures id == 0 <==> l.name.None? && l.systemName.None? && l.filename.None? && l.startLine.None?
      ensures id != 0 ==> FunctionDenotes(strings, functions[id - 1], r, l)
    {
      hide TablesOk, AllTransposed, Interned, FunctionDenotes;
      if Anonymous(l) {
        id := 0;
      } else {
        BuiltFunctionDenotes(strings, stringTableIndex, r, t, l);
        id := FileFunction(FunctionOf(r, t, l, |functions| + 1));
        SameFunctionDenotes(strings, r, l, FunctionOf(r, t, l, 0), functions[id - 1]);
      }
    }

    method FileFunction(f: Function) returns (id: nat)
      requires Tables() && f.id == |functions| + 1
      requires 0 <= f.name < |strings| && 0 <= f.systemName < |strings| && 0 <= f.filename < |strings|
      modifies this`functions, this`functionByKey
      ensures Tables() && OneMore(old(functions), functions, id) && 1 <= id <= |functions|
      ensures MakeFunctionKey(functions[id - 1]) == MakeFunctionKey(f)
    {
      hide TablesOk, MappingsKeyed, FunctionsKeyed, LocationsKeyed, MakeFunctionKey;
      var key := MakeFunctionKey(f);
      KeyedTables(|strings|, mappings, mappingByKey, functions, functionByKey, locations, locationByKey);
      if key in functionByKey {
        FoundFunction(functions, functionByKey, key);
        id := functionByKey[key];
      } else {
        AddedFunction(|strings|, mappings, mappingByKey, functions, functionByKey, locations, locationByKey, f);
        functions := functions + [f];
        functionByKey := functionByKey[key := f.id];
        id := f.id;
      }
    }

    /** The lines of a location that have a function. */
    method InternLines(r: Record, t: Transposition, raw: seq<Option<RawLine>>) returns (lines: seq<Line>)
      requires Tables() && Interned(strings, stringTableIndex) && AllTransposed(strings, r, t)
      requires forall k :: 0 <= k < |raw| && raw[k].Some? ==> LineInRange(r, raw[k].value)
      modifies this`functions, this`functionByKey
      ensures Tables() && Extends(old(functions), functions)
      ensures LinesDenote(strings, functions, lines, r, raw, |raw|)
    {
      hide Tables, Interned, AllTransposed, Extends, OneMore, FunctionDenotes, LinesDenote, LineInRange;
      lines := [];
      ExtendsReflexive(strings);
      ExtendsReflexive(functions);
      NoLinesDenoted(strings, functions, r, raw);
      for k := 0 to |raw|
        invariant Tables() && Extends(old(functions), functions) && LinesDenote(strings, functions, lines, r, raw, k)
      {
        ghost var before, kept := functions, lines;
        ghost var line := Line(0, 0, 0);
        if raw[k].Some? {
          var id := InternFunction(r, t, raw[k].value);
          OneMoreExtends(before, functions, id);
          ExtendsTransitive(old(functions), before, functions);
          LinesDenoteGrows(strings, strings, before, functions, lines, r, raw, k);
          if id != 0 {
            line := Line(id, raw[k].value.line, raw[k].value.column);
            lines := lines + [Line(id, raw[k].value.line, raw[k].value.column)];
          }
        }
        LinesDenoteStep(strings, functions, kept, r, raw, k, line);
      }
    }

    /** The location an input location stands for, without identifier. */
    method BuildLocation(r: Record, t: Transposition, raw: RawLocation) returns (loc: Location)
      requires Tables() && Interned(strings, stringTableIndex) && AllTransposed(strings, r, t)
        && LocationInRange(r, raw)
      modifies this`mappings, this`mappingByKey, this`functions, this`functionByKey
      ensures Tables() && Grown(old(Result()), Result())
      ensures loc.id == 0 && Describes(Result(), r, raw, loc)
    {
      hide Interned, AllTransposed, Extends, OneMore, LinesDenote, Tables, MakeMappingKey, MappingDenotes, LineInRange,
        InDict;
      var mappingId := InternMapping(r, t, raw.mapping);
      OneMoreExtends(old(mappings), mappings, mappingId);
      var lines := InternLines(r, t, raw.lines);
      loc := Location(0, mappingId, raw.address, lines);
      ExtendsReflexive(strings);
      ExtendsReflexive(locations);
    }

    /** The identifier of the location with the same key; only if there is none, the location is added. */
    method FileLocation(loc: Location) returns (id: nat)
      requires Tables() && loc.mappingId <= |mappings| && LinesInRange(loc.lines, |functions|)
      modifies this`locations, this`locationByKey
      ensures Tables() && OneMore(old(locations), locations, id)
      ensures 1 <= id <= |locations| && locations[id - 1].mappingId <= |mappings|
      ensures MakeLocationKey(locations[id - 1], mappings) == MakeLocationKey(loc, mappings)
      ensures id > |old(locations)| ==> locations[id - 1] == loc.(id := id)
    {
      hide Extends, TablesOk, LinesInRange, LocationsKeyed, MappingsKeyed, FunctionsKeyed;
      var key := MakeLocationKey(loc, mappings);
      KeyedTables(|strings|, mappings, mappingByKey, functions, functionByKey, locations, locationByKey);
      if key in locationByKey {
        FoundLocation(locations, mappings, locationByKey, key);
        id := locationByKey[key];
      } else {
        id := |locations| + 1;
        AddedLocation(|strings|, mappings, mappingByKey, functions, functionByKey, locations, locationByKey,
          loc.(id := id));
        locations := locations + [loc.(id := id)];
        locationByKey := locationByKey[key := id];
      }
    }

    /**
     The identifier of a location with the same key as one that describes the input. A location is
     added only if there is none, and then describes the input itself.
     */
    method InternLocation(r: Record, t: Transposition, raw: RawLocation) returns (id: nat)
      requires Tables() && Interned(strings, stringTableIndex) && AllTransposed(strings, r, t)
        && LocationInRange(r, raw)
      modifies this`mappings, this`mappingByKey, this`functions, this`functionByKey, this`locations, this`locationByKey
      ensures Tables() && Grown(old(Result()), Result()) && OneMore(old(locations), locations, id)
      ensures Located(Result(), r, raw, id)
      ensures id > |old(locations)| ==> id <= |locations| && Describes(Result(), r, raw, locations[id - 1])
    {
      hide Tables, Interned, AllTransposed, LinesDenote, MakeLocationKey, LocationInRange, MappingDenotes;
      var loc := BuildLocation(r, t, raw);
      ghost var built := Result();
      DescribedLines(built, r, raw, loc);
      id := FileLocation(loc);
      FiledLocation(built, Result(), r, raw, id, loc);
      assert old(Result()).strings == strings;
    }

    /** The labels of a row. */
    method Labels(r: Record, t: Transposition, row: Row) returns (labels: seq<Label>)
      requires AllTransposed(strings, r, t) && RowInRange(r, row) && |r.labelDicts| == |r.labelNames|
      ensures LabelsDenote(strings, labels, r, row, |row.labels|)
    {
      labels := [];
      for k := 0 to |row.labels|
        invariant LabelsDenote(strings, labels, r, row, k)
      {
        ghost var kept := labels;
        ghost var l := Label(0, 0);
        if row.labels[k].Some? {
          assert Transposed(strings, r.labelDicts[k], t.labelValues[k]);
          assert InDict(row.labels[k], r.labelDicts[k]);
          l := Label(t.labelNames[k], t.labelValues[k][row.labels[k].value]);
          labels := labels + [Label(t.labelNames[k], t.labelValues[k][row.labels[k].value])];
        }
        LabelsDenoteStep(strings, kept, r, row, k, l);
      }
    }

    /** The locations of a row that are not null; no other is added. */
    method InternStack(r: Record, t: Transposition, row: Row) returns (ids: seq<nat>)
      requires Tables() && Interned(strings, stringTableIndex) && AllTransposed(strings, r, t) && RowInRange(r, row)
      modifies this`mappings, this`mappingByKey, this`functions, this`functionByKey, this`locations, this`locationByKey
      ensures Tables() && Grown(old(Result()), Result())
      ensures StackDenotes(Result(), ids, r, row, |row.locations|)
      ensures AddedDescribed(Result(), r, row, |row.locations|, |old(locations)|)
    {
      hide Tables, Interned, AllTransposed, RowInRange, LocationInRange, Grown, Located, Describes, AddedDescribed,
        StackDenotes;
      ids := [];
      EmptyStack(Result(), r, row);
      for j := 0 to |row.locations|
        invariant Tables() && Grown(old(Result()), Result())
        invariant StackDenotes(Result(), ids, r, row, j)
        invariant AddedDescribed(Result(), r, row, j, |old(locations)|)
      {
        ghost var before, kept := Result(), ids;
        if row.locations[j].Some? {
          RowFacts(r, row, j);
          var id := InternLocation(r, t, row.locations[j].value);
          ids := ids + [id];
          StackStep(before, Result(), kept, r, row, j, id);
          GrownTransitive(old(Result()), before, Result());
        } else {
          StackSkip(before, kept, r, row, j);
        }
        AddedStep(before, Result(), r, row, j, |old(locations)|);
      }
    }

    /** A row with at least one location becomes a sample with its locations, labels and value. */
    method AddSample(r: Record, t: Transposition, row: Row)
      requires Tables() && Interned(strings, stringTableIndex) && AllTransposed(strings, r, t)
      requires RecordInRange(r) && RowInRange(r, row) && SamplesOk(|strings|, |locations|, 1, samples)
      modifies this`mappings, this`mappingByKey, this`functions, this`functionByKey, this`locations,
               this`locationByKey, this`samples
      ensures Tables() && SamplesOk(|strings|, |locations|, 1, samples) && Grown(old(Result()), Result())
      ensures !HasLocation(row) ==> samples == old(samples)
      ensures HasLocation(row) ==>
        && |samples| == |old(samples)| + 1 && old(samples) < samples
        && SampleDenotes(Result(), samples[|old(samples)|], r, row, isDiff)
      ensures AddedDescribed(Result(), r, row, |row.locations|, |old(locations)|)
    {
      hide Tables, Interned, AllTransposed, RowInRange, SamplesOk, LabelsOk, IdsOk, StackDenotes, LabelsDenote,
           Grown, AddedDescribed, HasLocation;
      FirstInterned(strings, stringTableIndex);
      var ids := InternStack(r, t, row);
      StackOfRow(Result(), ids, r, row);
      GrownLength(old(Result()), Result());
      SamplesGrow(|strings|, |old(locations)|, |locations|, 1, samples);
      if |ids| > 0 {
        var labels := Labels(r, t, row);
        DenotedLabelsOk(strings, labels, r, row, |row.labels|);
        var s := Sample(ids, [RowValue(row, isDiff)], labels);
        AddedSample(|strings|, |locations|, samples, s);
        ghost var before := Result();
        samples := samples + [s];
        MoreSamples(old(Result()), before, Result(), r, row, |old(locations)|);
        SampleDenotesGrows(before, Result(), s, r, row, isDiff);
      }
    }

    /** Writes a record: its rows with a location become the samples behind those written before. */
    method WriteRecord(r: Record)
      requires Valid() && RecordInRange(r)
      modifies this`strings, this`stringTableIndex, this`mappings, this`mappingByKey, this`functions,
               this`functionByKey, this`locations, this`locationByKey, this`samples
      ensures Valid() && Grown(old(Result()), Result()) && old(samples) <= samples
      ensures SamplesDenote(Result(), samples[|old(samples)|..], r, |r.rows|, isDiff)
      ensures SampleSum(samples) == old(SampleSum(samples)) + Written(r.rows, isDiff)
    {
      hide Interned, WellFormed, AllTransposed, TablesOk, SamplesOk, TypesOk, MappingsKeyed, FunctionsKeyed,
           LocationsKeyed, RowInRange, HasLocation, SampleDenotes, SamplesDenote, Grown, AddedDescribed;
      FirstInterned(strings, stringTableIndex);
      ghost var before := Result();
      var t := Transpose(r);
      ghost var transposed := Result();
      FirstInterned(strings, stringTableIndex);
      WellFormedGrows(before, transposed);
      StringsGrown(before, transposed);
      SplitWellFormed(Result(), mappingByKey, functionByKey, locationByKey);
      WriteRows(r, t);
      GrownTransitive(before, transposed, Result());
      RecordSum(Result(), before.samples, samples, r, isDiff);
      JoinWellFormed(Result(), mappingByKey, functionByKey, locationByKey);
    }

    method WriteRows(r: Record, t: Transposition)
      requires Tables() && Interned(strings, stringTableIndex) && AllTransposed(strings, r, t)
      requires RecordInRange(r) && SamplesOk(|strings|, |locations|, 1, samples)
      modifies this`mappings, this`mappingByKey, this`functions, this`functionByKey, this`locations,
               this`locationByKey, this`samples
      ensures Tables() && SamplesOk(|strings|, |locations|, 1, samples) && Grown(old(Result()), Result())
      ensures old(samples) <= samples
      ensures SamplesDenote(Result(), samples[|old(samples)|..], r, |r.rows|, isDiff)
    {
      hide Tables, Interned, AllTransposed, SamplesOk, RowInRange, HasLocation, SampleDenotes, SamplesDenote, Grown,
        AddedDescribed;
      NoSamplesDenoted(Result(), r, isDiff);
      assert samples[|samples|..] == [];
      for i := 0 to |r.rows|
        invariant Tables() && SamplesOk(|strings|, |locations|, 1, samples) && Grown(old(Result()), Result())
        invariant old(samples) <= samples
        invariant SamplesDenote(Result(), samples[|old(samples)|..], r, i, isDiff)
      {
        ghost var before, written := Result(), samples[|old(samples)|..];
        AddSample(r, t, r.rows[i]);
        GrownTransitive(old(Result()), before, Result());
        if HasLocation(r.rows[i]) {
          ghost var s := samples[|before.samples|];
          SamplesStep(before, Result(), written, r, i, s, isDiff);
          assert samples[|old(samples)|..] == written + [s];
        } else {
          SamplesSkip(before, Result(), written, r, i, isDiff);
        }
      }
    }

    /** Whatever was written is accepted by the check. */
    lemma {:induction false} ResultAccepted()
      requires Valid()
      ensures Validate(Result()).None?
    {
      ValidateIsWellFormed(Result());
    }
  }

  /** The profile of all records, one after the other. */
  method GenerateFlatPprof(isDiff: bool, period: (string, string), sample: (string, string), records: seq<Record>)
    returns (p: Profile)
    requires forall k :: 0 <= k < |records| ==> RecordInRange(records[k])
    ensures Validate(p).None?
    ensures |p.sampleTypes| == 1 && TypeDenotes(p.strings, p.sampleTypes[0], sample)
    ensures p.periodType.Some? && TypeDenotes(p.strings, p.periodType.value, period)
    ensures RecordsDenote(p, p.samples, records, isDiff)
    ensures SampleSum(p.samples) == WrittenAll(records, isDiff)
  {
    hide RecordInRange, TypeDenotes, Grown, RecordsDenote, SamplesDenote, Validate, SampleSum, WrittenAll,
         Interned, WellFormed, MappingsKeyed, FunctionsKeyed, LocationsKeyed;
    var w := new PprofWriter(isDiff, period, sample);
    ghost var first := w.Result();
    NoRecordsDenoted(first, isDiff);
    for k := 0 to |records|
      invariant w.Valid() && w.isDiff == isDiff && Grown(first, w.Result())
      invariant w.sampleType == first.sampleTypes[0] && w.periodType == first.periodType.value
      invariant RecordsDenote(w.Result(), w.samples, records[..k], isDiff)
    {
      ghost var before := w.Result();
      w.WriteRecord(records[k]);
      GrownTransitive(first, before, w.Result());
      RecordsStep(before, w.Result(), before.samples, w.samples, records[..k], records[k], isDiff);
      assert records[..k + 1] == records[..k] + [records[k]];
    }
    assert records[..|records|] == records;
    w.ResultAccepted();
    p := w.Result();
    RecordsSum(p, p.samples, records, isDiff);
    TypeDenotesLater(first, p, p.sampleTypes[0], sample);
    TypeDenotesLater(first, p, p.periodType.value, period);
  }

  lemma KeyedTables(n: nat, mappings: seq<Mapping>, mappingByKey: map<MappingKey, nat>,
      functions: seq<Function>,
      functionByKey: map<FunctionKey, nat>, locations: seq<Location>, locationByKey: map<seq<nat>, nat>)
    requires TablesOk(n, mappings, mappingByKey, functions, functionByKey, locations, locationByKey)
    ensures MappingsKeyed(mappings, mappingByKey) && FunctionsKeyed(functions, functionByKey)
    ensures LocationsKeyed(locations, mappings, locationByKey)
  {
  }
}
