/** A pprof profile and the check that accepts it. */
module PprofProfiles {
  import opened Options

  datatype ValueType = ValueType(typ: int, unit: int)
  datatype Mapping = Mapping(id: nat, start: nat, limit: nat, offset: nat, filename: int, buildId: int)
  datatype Function = Function(id: nat, name: int, systemName: int, filename: int, startLine: int)
  datatype Line = Line(functionId: nat, line: int, column: int)
  datatype Location = Location(id: nat, mappingId: nat, address: nat, lines: seq<Line>)
  datatype Label = Label(key: int, str: int)
  datatype Sample = Sample(locationIds: seq<nat>, values: seq<int>, labels: seq<Label>)

  datatype Profile = Profile(strings: seq<string>, sampleTypes: seq<ValueType>, periodType: Option<ValueType>,
                             mappings: seq<Mapping>, functions: seq<Function>,
                             locations: seq<Location>, samples: seq<Sample>)

  datatype Fault =
    | FirstStringNotEmpty | MappingIdNotSequential | BadMappingFilename | BadMappingBuildId
    | FunctionIdNotSequential | BadFunctionName | BadFunctionSystemName | BadFunctionFilename
    | LocationIdNotSequential | BadLocationMapping | BadLocationFunction | MissingSampleType
    | BadSampleType | BadPeriodType | ValueCount | ZeroLocation | BadLocation | NoLabelKey | BadLabelKey
      | BadLabelString

  /** An index that the check lets pass: zero, or below the length. */
  predicate Below(i: int, n: nat) {
    i == 0 || i < n
  }

  /** The first fault that a list's entries have from `i` on. */
  function CheckMappings(n: nat, ms: seq<Mapping>, i: nat): Option<Fault>
    requires i <= |ms|
    decreases |ms| - i
  {
    if i == |ms| then None
    else if ms[i].id != i + 1 then Some(MappingIdNotSequential)
    else if !Below(ms[i].filename, n) then Some(BadMappingFilename)
    else if !Below(ms[i].buildId, n) then Some(BadMappingBuildId)
    else CheckMappings(n, ms, i + 1)
  }

  function CheckFunctions(n: nat, fs: seq<Function>, i: nat): Option<Fault>
    requires i <= |fs|
    decreases |fs| - i
  {
    if i == |fs| then None
    else if fs[i].id != i + 1 then Some(FunctionIdNotSequential)
    else if !Below(fs[i].name, n) then Some(BadFunctionName)
    else if !Below(fs[i].systemName, n) then Some(BadFunctionSystemName)
    else if !Below(fs[i].filename, n) then Some(BadFunctionFilename)
    else CheckFunctions(n, fs, i + 1)
  }

  predicate LinesInRange(lines: seq<Line>, functions: nat) {
    forall k :: 0 <= k < |lines| ==> lines[k].functionId <= functions
  }

  function CheckLocations(mappings: nat, functions: nat, ls: seq<Location>, i: nat): Option<Fault>
    requires i <= |ls|
    decreases |ls| - i
  {
    if i == |ls| then None
    else if ls[i].id != i + 1 then Some(LocationIdNotSequential)
    else if ls[i].mappingId > mappings then Some(BadLocationMapping)
    else if !LinesInRange(ls[i].lines, functions) then Some(BadLocationFunction)
    else CheckLocations(mappings, functions, ls, i + 1)
  }

  function CheckTypes(n: nat, ts: seq<ValueType>, i: nat): Option<Fault>
    requires i <= |ts|
    decreases |ts| - i
  {
    if i == |ts| then None
    else if !Below(ts[i].typ, n) || !Below(ts[i].unit, n) then Some(BadSampleType)
    else CheckTypes(n, ts, i + 1)
  }

  function CheckLabels(n: nat, labels: seq<Label>, i: nat): Option<Fault>
    requires i <= |labels|
    decreases |labels| - i
  {
    if i == |labels| then None
    else if labels[i].key == 0 then Some(NoLabelKey)
    else if !Below(labels[i].key, n) then Some(BadLabelKey)
    else if !Below(labels[i].str, n) then Some(BadLabelString)
    else CheckLabels(n, labels, i + 1)
  }

  function CheckIds(locations: nat, ids: seq<nat>, i: nat): Option<Fault>
    requires i <= |ids|
    decreases |ids| - i
  {
    if i == |ids| then None
    else if ids[i] == 0 then Some(ZeroLocation)
    else if ids[i] > locations then Some(BadLocation)
    else CheckIds(locations, ids, i + 1)
  }

  function CheckSamples(n: nat, locations: nat, types: nat, ss: seq<Sample>, i: nat): Option<Fault>
    requires i <= |ss|
    decreases |ss| - i
  {
    if i == |ss| then None
    else if |ss[i].values| != types then Some(ValueCount)
    else if CheckIds(locations, ss[i].locationIds, 0).Some? then CheckIds(locations, ss[i].locationIds, 0)
    else if CheckLabels(n, ss[i].labels, 0).Some? then CheckLabels(n, ss[i].labels, 0)
    else CheckSamples(n, locations, types, ss, i + 1)
  }

  function First(a: Option<Fault>, b: Option<Fault>): Option<Fault> {
    if a.Some? then a else b
  }

  /** The first fault of a profile that comes without executable infos, or none. */
  function Validate(p: Profile): Option<Fault> {
    var n := |p.strings|;
    if n > 0 && p.strings[0] != "" then Some(FirstStringNotEmpty)
    else
      First(CheckMappings(n, p.mappings, 0),
      First(CheckFunctions(n, p.functions, 0),
      First(CheckLocations(|p.mappings|, |p.functions|, p.locations, 0),
      First(if p.sampleTypes == [] && p.samples != [] then Some(MissingSampleType) else None,
      First(CheckTypes(n, p.sampleTypes, 0),
      First(if p.periodType.Some? && !(Below(p.periodType.value.typ, n) && Below(p.periodType.value.unit, n))
            then Some(BadPeriodType) else None,
            CheckSamples(n, |p.locations|, |p.sampleTypes|, p.samples, 0)))))))
  }

  // What an accepted profile is like.

  ghost predicate MappingsOk(n: nat, ms: seq<Mapping>) {
    forall i :: 0 <= i < |ms| ==> ms[i].id == i + 1 && Below(ms[i].filename, n) && Below(ms[i].buildId, n)
  }

  ghost predicate FunctionsOk(n: nat, fs: seq<Function>) {
    forall i :: 0 <= i < |fs| ==>
      fs[i].id == i + 1 && Below(fs[i].name, n) && Below(fs[i].systemName, n) && Below(fs[i].filename, n)
  }

  ghost predicate LocationsOk(mappings: nat, functions: nat, ls: seq<Location>) {
    forall i :: 0 <= i < |ls| ==>
      ls[i].id == i + 1 && ls[i].mappingId <= mappings && LinesInRange(ls[i].lines, functions)
  }

  ghost predicate LabelsOk(n: nat, labels: seq<Label>) {
    forall i :: 0 <= i < |labels| ==> labels[i].key != 0 && Below(labels[i].key, n) && Below(labels[i].str, n)
  }

  ghost predicate IdsOk(locations: nat, ids: seq<nat>) {
    forall i :: 0 <= i < |ids| ==> 1 <= ids[i] <= locations
  }

  ghost predicate SamplesOk(n: nat, locations: nat, types: nat, ss: seq<Sample>) {
    forall i :: 0 <= i < |ss| ==>
      |ss[i].values| == types && IdsOk(locations, ss[i].locationIds) && LabelsOk(n, ss[i].labels)
  }

  ghost predicate TypesOk(n: nat, ts: seq<ValueType>) {
    forall i :: 0 <= i < |ts| ==> Below(ts[i].typ, n) && Below(ts[i].unit, n)
  }

  /** Sequential identifiers, and every reference within its table. */
  ghost predicate WellFormed(p: Profile) {
    var n := |p.strings|;
    && (n > 0 ==> p.strings[0] == "")
    && MappingsOk(n, p.mappings) && FunctionsOk(n, p.functions) && LocationsOk(|p.mappings|, |p.functions|, p.locations)
    && (p.sampleTypes == [] ==> p.samples == [])
    && TypesOk(n, p.sampleTypes)
    && (p.periodType.Some? ==> TypesOk(n, [p.periodType.value]))
    && SamplesOk(n, |p.locations|, |p.sampleTypes|, p.samples)
  }

  lemma {:induction false} MappingsChecked(n: nat, ms: seq<Mapping>, i: nat)
    requires i <= |ms|
    ensures CheckMappings(n, ms, i).None? <==>
            forall k :: i <= k < |ms| ==> ms[k].id == k + 1 && Below(ms[k].filename, n) && Below(ms[k].buildId, n)
    decreases |ms| - i
  {
    if i < |ms| {
      MappingsChecked(n, ms, i + 1);
    }
  }

  lemma {:induction false} FunctionsChecked(n: nat, fs: seq<Function>, i: nat)
    requires i <= |fs|
    ensures CheckFunctions(n, fs, i).None? <==>
            forall k :: i <= k < |fs| ==>
              fs[k].id == k + 1 && Below(fs[k].name, n) && Below(fs[k].systemName, n) && Below(fs[k].filename, n)
    decreases |fs| - i
  {
    if i < |fs| {
      FunctionsChecked(n, fs, i + 1);
    }
  }

  lemma {:induction false} LocationsChecked(mappings: nat, functions: nat, ls: seq<Location>, i: nat)
    requires i <= |ls|
    ensures CheckLocations(mappings, functions, ls, i).None? <==>
            forall k :: i <= k < |ls| ==>
              ls[k].id == k + 1 && ls[k].mappingId <= mappings && LinesInRange(ls[k].lines, functions)
    decreases |ls| - i
  {
    if i < |ls| {
      LocationsChecked(mappings, functions, ls, i + 1);
    }
  }

  lemma {:induction false} TypesChecked(n: nat, ts: seq<ValueType>, i: nat)
    requires i <= |ts|
    ensures CheckTypes(n, ts, i).None? <==> forall k :: i <= k < |ts| ==> Below(ts[k].typ, n) && Below(ts[k].unit, n)
    decreases |ts| - i
  {
    if i < |ts| {
      TypesChecked(n, ts, i + 1);
    }
  }

  lemma {:induction false} LabelsChecked(n: nat, labels: seq<Label>, i: nat)
    requires i <= |labels|
    ensures CheckLabels(n, labels, i).None? <==>
            forall k :: i <= k < |labels| ==> labels[k].key != 0 && Below(labels[k].key, n) && Below(labels[k].str, n)
    decreases |labels| - i
  {
    if i < |labels| {
      LabelsChecked(n, labels, i + 1);
    }
  }

  lemma {:induction false} IdsChecked(locations: nat, ids: seq<nat>, i: nat)
    requires i <= |ids|
    ensures CheckIds(locations, ids, i).None? <==> forall k :: i <= k < |ids| ==> 1 <= ids[k] <= locations
    decreases |ids| - i
  {
    if i < |ids| {
      IdsChecked(locations, ids, i + 1);
    }
  }

  lemma {:induction false} SamplesChecked(n: nat, locations: nat, types: nat, ss: seq<Sample>, i: nat)
    requires i <= |ss|
    ensures CheckSamples(n, locations, types, ss, i).None? <==>
            forall k :: i <= k < |ss| ==>
              |ss[k].values| == types && IdsOk(locations, ss[k].locationIds) && LabelsOk(n, ss[k].labels)
    decreases |ss| - i
  {
    if i < |ss| {
      SamplesChecked(n, locations, types, ss, i + 1);
      IdsChecked(locations, ss[i].locationIds, 0);
      LabelsChecked(n, ss[i].labels, 0);
    }
  }

  /** The check accepts exactly the well-formed profiles. */
  lemma {:induction false} ValidateIsWellFormed(p: Profile)
    ensures Validate(p).None? <==> WellFormed(p)
  {
    var n := |p.strings|;
    MappingsChecked(n, p.mappings, 0);
    FunctionsChecked(n, p.functions, 0);
    LocationsChecked(|p.mappings|, |p.functions|, p.locations, 0);
    TypesChecked(n, p.sampleTypes, 0);
    SamplesChecked(n, |p.locations|, |p.sampleTypes|, p.samples, 0);
    hide CheckMappings, CheckFunctions, CheckLocations, CheckTypes, CheckSamples;
    if p.periodType.Some? {
      var t := p.periodType.value;
      assert [t][0] == t;
      assert TypesOk(n, [t]) <==> Below(t.typ, n) && Below(t.unit, n);
    }
  }
}
