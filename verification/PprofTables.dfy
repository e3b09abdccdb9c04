/** The input of the pprof writer, and what its tables and keys mean. */
module PprofTables {
  import opened Options
  import opened PprofProfiles

  // One record of samples with its dictionaries.

  datatype RawLine = RawLine(line: int, column: int, startLine: Option<int>, name: Option<nat>,
      systemName: Option<nat>, filename: Option<nat>)
  datatype RawMapping = RawMapping(start: nat, limit: nat, offset: nat, file: Option<nat>, buildId: Option<nat>)
  datatype RawLocation = RawLocation(mapping: Option<RawMapping>, address: nat, lines: seq<Option<RawLine>>)
  datatype Row = Row(locations: seq<Option<RawLocation>>, labels: seq<Option<nat>>, value: int, diff: int)
  datatype Record = Record(
    mappingFiles: seq<string>, buildIds: seq<string>, names: seq<string>, systemNames: seq<string>,
    filenames: seq<string>, labelNames: seq<string>, labelDicts: seq<seq<string>>, rows: seq<Row>)

  predicate InDict(i: Option<nat>, dict: seq<string>) {
    i.Some? ==> i.value < |dict|
  }

  predicate LineInRange(r: Record, l: RawLine) {
    InDict(l.name, r.names) && InDict(l.systemName, r.systemNames) && InDict(l.filename, r.filenames)
  }

  predicate LocationInRange(r: Record, l: RawLocation) {
    && (l.mapping.Some? ==> InDict(l.mapping.value.file, r.mappingFiles) && InDict(l.mapping.value.buildId, r.buildIds))
    && (forall k :: 0 <= k < |l.lines| && l.lines[k].Some? ==> LineInRange(r, l.lines[k].value))
  }

  predicate RowInRange(r: Record, row: Row) {
    && (forall j :: 0 <= j < |row.locations| && row.locations[j].Some? ==> LocationInRange(r, row.locations[j].value))
    && |row.labels| == |r.labelNames|
    && (forall k :: 0 <= k < |row.labels| && k < |r.labelDicts| ==> InDict(row.labels[k], r.labelDicts[k]))
  }

  /** In-range indices and non-empty label names. */
  predicate RecordInRange(r: Record) {
    && |r.labelDicts| == |r.labelNames|
    && (forall k :: 0 <= k < |r.labelNames| ==> r.labelNames[k] != "")
    && (forall i :: 0 <= i < |r.rows| ==> RowInRange(r, r.rows[i]))
  }

  /** Where the strings of a record's dictionaries stand in the string table. */
  datatype Transposition = Transposition(
    mappingFiles: seq<nat>, buildIds: seq<nat>, names: seq<nat>, systemNames: seq<nat>,
    filenames: seq<nat>, labelNames: seq<nat>, labelValues: seq<seq<nat>>)

  ghost predicate Transposed(strings: seq<string>, dict: seq<string>, t: seq<nat>) {
    |t| == |dict| && forall i :: 0 <= i < |t| ==> t[i] < |strings| && strings[t[i]] == dict[i]
  }

  ghost predicate AllTransposed(strings: seq<string>, r: Record, t: Transposition) {
    && Transposed(strings, r.mappingFiles, t.mappingFiles) && Transposed(strings, r.buildIds, t.buildIds)
    && Transposed(strings, r.names, t.names) && Transposed(strings, r.systemNames, t.systemNames)
    && Transposed(strings, r.filenames, t.filenames) && Transposed(strings, r.labelNames, t.labelNames)
    && |t.labelValues| == |r.labelDicts|
    && (forall k :: 0 <= k < |t.labelValues| ==> Transposed(strings, r.labelDicts[k], t.labelValues[k]))
  }

  function Pick(t: seq<nat>, i: Option<nat>): nat
    requires i.Some? ==> i.value < |t|
  {
    if i.Some? then t[i.value] else 0
  }

  /** The string that a dictionary index stands for: a null index for the empty one. */
  ghost predicate Reads(s: string, dict: seq<string>, i: Option<nat>) {
    match i
    case None => s == ""
    case Some(k) => k < |dict| && s == dict[k]
  }

  predicate SameLengths(r: Record, t: Transposition) {
    && |t.mappingFiles| == |r.mappingFiles| && |t.buildIds| == |r.buildIds|
    && |t.names| == |r.names| && |t.systemNames| == |r.systemNames| && |t.filenames| == |r.filenames|
  }

  /** The function a line names, with the strings of the string table. */
  function FunctionOf(r: Record, t: Transposition, l: RawLine, id: nat): Function
    requires LineInRange(r, l) && SameLengths(r, t)
  {
    Function(id, Pick(t.names, l.name), Pick(t.systemNames, l.systemName), Pick(t.filenames, l.filename),
             if l.startLine.Some? then l.startLine.value else 0)
  }

  /** The mapping of the input, with the strings of the string table. */
  function MappingOf(r: Record, t: Transposition, raw: RawMapping, id: nat): Mapping
    requires InDict(raw.file, r.mappingFiles) && InDict(raw.buildId, r.buildIds) && SameLengths(r, t)
  {
    Mapping(id, raw.start, raw.limit, raw.offset, Pick(t.mappingFiles, raw.file), Pick(t.buildIds, raw.buildId))
  }

  lemma PickDenotes(strings: seq<string>, dict: seq<string>, t: seq<nat>, i: Option<nat>)
    requires Transposed(strings, dict, t) && InDict(i, dict) && |strings| > 0 && strings[0] == ""
    ensures Pick(t, i) < |strings| && Reads(strings[Pick(t, i)], dict, i)
  {
  }

  /** A table that only grew: what stood in it stands where it stood. */
  ghost predicate Extends<T>(before: seq<T>, after: seq<T>) {
    before <= after
  }

  lemma ExtendsReflexive<T>(a: seq<T>)
    ensures Extends(a, a)
  {
  }

  lemma ExtendsTransitive<T>(a: seq<T>, b: seq<T>, c: seq<T>)
    requires Extends(a, b) && Extends(b, c)
    ensures Extends(a, c)
  {
  }

  /** A table that got at most one more entry, which then has the given identifier. */
  ghost predicate OneMore<T>(before: seq<T>, after: seq<T>, id: nat) {
    before <= after && (after == before || (|after| == |before| + 1 && id == |after|))
  }

  lemma OneMoreExtends<T>(before: seq<T>, after: seq<T>, id: nat)
    requires OneMore(before, after, id)
    ensures Extends(before, after)
  {
  }

  /** Interned strings: the map finds exactly the table's entries. */
  ghost predicate Interned(strings: seq<string>, index: map<string, nat>) {
    && |strings| > 0 && strings[0] == ""
    && (forall s :: s in index ==> index[s] < |strings| && strings[index[s]] == s)
    && (forall i :: 0 <= i < |strings| ==> strings[i] in index && index[strings[i]] == i)
  }

  const WORD := 0x1_0000_0000_0000_0000

  datatype MappingKey = MappingKey(size: nat, offset: nat, buildIdOrFile: int)

  /** Sizes are rounded up to pages, modulo the word size. */
  function RoundedSize(start: nat, limit: nat): nat {
    var up := ((limit - start) % WORD + 0xFFF) % WORD;
    up - up % 0x1000
  }

  function MakeMappingKey(m: Mapping): MappingKey {
    MappingKey(RoundedSize(m.start, m.limit), m.offset, if m.buildId != 0 then m.buildId else m.filename)
  }

  datatype FunctionKey = FunctionKey(startLine: int, name: int, systemName: int, filename: int)

  function MakeFunctionKey(f: Function): FunctionKey {
    FunctionKey(f.startLine, f.name, f.systemName, f.filename)
  }

  function LineWords(lines: seq<Line>): seq<nat> {
    if lines == [] then []
    else
      var last := lines[|lines| - 1];
      LineWords(lines[..|lines| - 1]) + [last.functionId, last.line % WORD]
  }

  /** The words of a location's key: mapping and offset in it, or else its lines. */
  function MakeLocationKey(l: Location, mappings: seq<Mapping>): seq<nat>
    requires l.mappingId <= |mappings|
  {
    if l.mappingId != 0 && l.address != 0 then [l.mappingId, (l.address - mappings[l.mappingId - 1].start) % WORD]
    else LineWords(l.lines)
  }

  // The maps find exactly the entries of their tables, so no two entries of a table have the same key.

  ghost predicate MappingsKeyed(mappings: seq<Mapping>, byKey: map<MappingKey, nat>) {
    && (forall k :: k in byKey ==> 1 <= byKey[k] <= |mappings| && MakeMappingKey(mappings[byKey[k] - 1]) == k)
    && (forall i :: 0 <= i < |mappings| ==>
          MakeMappingKey(mappings[i]) in byKey && byKey[MakeMappingKey(mappings[i])] == i + 1)
  }

  ghost predicate FunctionsKeyed(functions: seq<Function>, byKey: map<FunctionKey, nat>) {
    && (forall k :: k in byKey ==> 1 <= byKey[k] <= |functions| && MakeFunctionKey(functions[byKey[k] - 1]) == k)
    && (forall i :: 0 <= i < |functions| ==>
          MakeFunctionKey(functions[i]) in byKey && byKey[MakeFunctionKey(functions[i])] == i + 1)
  }

  ghost predicate LocationsKeyed(locations: seq<Location>, mappings: seq<Mapping>, byKey: map<seq<nat>, nat>) {
    && (forall k :: k in byKey ==>
          && 1 <= byKey[k] <= |locations| && locations[byKey[k] - 1].mappingId <= |mappings|
          && MakeLocationKey(locations[byKey[k] - 1], mappings) == k)
    && (forall i :: 0 <= i < |locations| ==>
          && locations[i].mappingId <= |mappings|
          && MakeLocationKey(locations[i], mappings) in byKey
          && byKey[MakeLocationKey(locations[i], mappings)] == i + 1)
  }

  /** A table entry says what a line's function is called, where it is and on which line it starts. */
  ghost predicate FunctionDenotes(strings: seq<string>, f: Function, r: Record, l: RawLine)
    requires LineInRange(r, l)
  {
    && 0 <= f.name < |strings| && Reads(strings[f.name], r.names, l.name)
    && 0 <= f.systemName < |strings| && Reads(strings[f.systemName], r.systemNames, l.systemName)
    && 0 <= f.filename < |strings| && Reads(strings[f.filename], r.filenames, l.filename)
    && f.startLine == (if l.startLine.Some? then l.startLine.value else 0)
  }

  lemma {:induction false} BuiltFunctionDenotes(strings: seq<string>, index: map<string, nat>, r: Record,
      t: Transposition, l: RawLine)
    requires Interned(strings, index) && AllTransposed(strings, r, t) && LineInRange(r, l)
    ensures SameLengths(r, t)
    ensures
      var f := FunctionOf(r, t, l, 0);
      FunctionDenotes(strings, f, r, l) && f.name < |strings| && f.systemName < |strings| && f.filename < |strings|
  {
    PickDenotes(strings, r.names, t.names, l.name);
    PickDenotes(strings, r.systemNames, t.systemNames, l.systemName);
    PickDenotes(strings, r.filenames, t.filenames, l.filename);
  }

  /** Entries with the same key denote the same. */
  lemma SameFunctionDenotes(strings: seq<string>, r: Record, l: RawLine, f: Function, f': Function)
    requires LineInRange(r, l) && FunctionDenotes(strings, f, r, l) && MakeFunctionKey(f) == MakeFunctionKey(f')
    ensures FunctionDenotes(strings, f', r, l)
  {
  }

  predicate Anonymous(l: RawLine) {
    l.name.None? && l.systemName.None? && l.filename.None? && l.startLine.None?
  }

  function HasLocation(row: Row): bool {
    exists j :: 0 <= j < |row.locations| && row.locations[j].Some?
  }

  function RowValue(row: Row, isDiff: bool): int {
    if isDiff then row.diff else row.value
  }

  /** The values of the rows with at least one location. */
  function Written(rows: seq<Row>, isDiff: bool): int {
    if rows == [] then 0
    else
      var last := rows[|rows| - 1];
      Written(rows[..|rows| - 1], isDiff) + (if HasLocation(last) then RowValue(last, isDiff) else 0)
  }

  /** The sum of the samples' first values, of which a written sample has exactly one. */
  function SampleSum(samples: seq<Sample>): int {
    if samples == [] then 0
    else
      var values := samples[|samples| - 1].values;
      SampleSum(samples[..|samples| - 1]) + (if values == [] then 0 else values[0])
  }

  /** The valid entries of a list, counted. */
  function Valids<T>(s: seq<Option<T>>): nat {
    if s == [] then 0 else Valids(s[..|s| - 1]) + (if s[|s| - 1].Some? then 1 else 0)
  }

  /** A sample's labels are the valid label columns of its row, with the same names and values. */
  ghost predicate LabelsDenote(strings: seq<string>, labels: seq<Label>, r: Record, row: Row, n: nat)
    requires RowInRange(r, row) && n <= |row.labels| && |r.labelDicts| == |r.labelNames|
    decreases n
  {
    if n == 0 then labels == []
    else if row.labels[n - 1].None? then LabelsDenote(strings, labels, r, row, n - 1)
    else
      && labels != []
      && LabelsDenote(strings, labels[..|labels| - 1], r, row, n - 1)
      && LabelDenotes(strings, labels[|labels| - 1], r.labelNames[n - 1], r.labelDicts[n - 1][row.labels[n - 1].value])
  }

  ghost predicate LabelDenotes(strings: seq<string>, l: Label, key: string, value: string) {
    && 0 <= l.key < |strings| && strings[l.key] == key
    && 0 <= l.str < |strings| && strings[l.str] == value
  }

  lemma NoLinesDenoted(strings: seq<string>, functions: seq<Function>, r: Record,
      raw: seq<Option<RawLine>>)
    requires forall k :: 0 <= k < |raw| && raw[k].Some? ==> LineInRange(r, raw[k].value)
    ensures LinesDenote(strings, functions, [], r, raw, 0)
  {
  }

  /** A location's lines are the valid lines of the input that have a function, with that function. */
  ghost predicate LinesDenote(strings: seq<string>, functions: seq<Function>, lines: seq<Line>, r: Record,
      raw: seq<Option<RawLine>>, n: nat)
    requires n <= |raw| && forall k :: 0 <= k < |raw| && raw[k].Some? ==> LineInRange(r, raw[k].value)
    decreases n
  {
    if n == 0 then lines == []
    else if raw[n - 1].None?
            || (var l := raw[n - 1].value;
                l.name.None? && l.systemName.None? && l.filename.None? && l.startLine.None?)
    then LinesDenote(strings, functions, lines, r, raw, n - 1)
    else
      && lines != []
      && LinesDenote(strings, functions, lines[..|lines| - 1], r, raw, n - 1)
      && LineDenotes(strings, functions, lines[|lines| - 1], r, raw[n - 1].value)
  }

  ghost predicate LineDenotes(strings: seq<string>, functions: seq<Function>, line: Line, r: Record, raw: RawLine)
    requires LineInRange(r, raw)
  {
    && 1 <= line.functionId <= |functions| && line.line == raw.line && line.column == raw.column
    && FunctionDenotes(strings, functions[line.functionId - 1], r, raw)
  }

  /** The build id of a mapping, or its file if that is missing or empty; empty if it has neither. */
  ghost predicate Owns(owner: string, r: Record, raw: RawMapping) {
    || (owner != "" && Reads(owner, r.buildIds, raw.buildId))
    || (Reads("", r.buildIds, raw.buildId) && Reads(owner, r.mappingFiles, raw.file))
  }

  /** A table entry has the rounded size and offset of the input mapping, and belongs to the same owner. */
  ghost predicate MappingDenotes(strings: seq<string>, m: Mapping, r: Record, raw: RawMapping)
    requires InDict(raw.file, r.mappingFiles) && InDict(raw.buildId, r.buildIds)
  {
    var owner := if m.buildId != 0 then m.buildId else m.filename;
    && RoundedSize(m.start, m.limit) == RoundedSize(raw.start, raw.limit) && m.offset == raw.offset
    && 0 <= owner < |strings| && Owns(strings[owner], r, raw)
  }

  /** The rounded size is the smallest number of whole pages that holds the size, unless that takes all 64 bits. */
  lemma RoundedToPages(start: nat, limit: nat)
    ensures
      var (size, r) := ((limit - start) % 0x1_0000_0000_0000_0000, RoundedSize(start, limit));
      && r % 4096 == 0
      && (if size <= 0x1_0000_0000_0000_0000 - 4096 then size <= r < size + 4096 else r == 0)
  {
  }

  /** Mappings have one key exactly if they agree in rounded size, offset and build id or else file. */
  lemma SameMappingExactly(m: Mapping, m': Mapping)
    ensures MakeMappingKey(m) == MakeMappingKey(m') <==>
      && RoundedSize(m.start, m.limit) == RoundedSize(m'.start, m'.limit) && m.offset == m'.offset
      && (if m.buildId != 0 then m.buildId else m.filename) == (if m'.buildId != 0 then m'.buildId else m'.filename)
  {
  }

  /** Functions have one key exactly if they agree in start line and all names. */
  lemma SameFunctionExactly(f: Function, f': Function)
    ensures MakeFunctionKey(f) == MakeFunctionKey(f') <==>
      f.startLine == f'.startLine && f.name == f'.name && f.systemName == f'.systemName && f.filename == f'.filename
  {
  }

  lemma {:induction false} BuiltMappingDenotes(strings: seq<string>, index: map<string, nat>, r: Record,
      t: Transposition, raw: RawMapping)
    requires Interned(strings, index) && AllTransposed(strings, r, t)
    requires InDict(raw.file, r.mappingFiles) && InDict(raw.buildId, r.buildIds)
    ensures SameLengths(r, t)
    ensures
      var m := MappingOf(r, t, raw, 0);
      MappingDenotes(strings, m, r, raw) && m.filename < |strings| && m.buildId < |strings|
  {
    PickDenotes(strings, r.mappingFiles, t.mappingFiles, raw.file);
    PickDenotes(strings, r.buildIds, t.buildIds, raw.buildId);
    assert index[strings[0]] == 0;
  }

  /** Entries with the same key denote the same. */
  lemma SameMappingDenotes(strings: seq<string>, r: Record, raw: RawMapping, m: Mapping, m': Mapping)
    requires InDict(raw.file, r.mappingFiles) && InDict(raw.buildId, r.buildIds)
    requires MappingDenotes(strings, m, r, raw) && MakeMappingKey(m) == MakeMappingKey(m')
    ensures MappingDenotes(strings, m', r, raw)
  {
  }

  /** A location says what the input says: mapping, address, and the lines that have a function. */
  ghost predicate Describes(p: Profile, r: Record, raw: RawLocation, loc: Location)
    requires LocationInRange(r, raw)
  {
    && loc.mappingId <= |p.mappings| && (loc.mappingId == 0 <==> raw.mapping.None?)
    && (raw.mapping.Some? ==> MappingDenotes(p.strings, p.mappings[loc.mappingId - 1], r, raw.mapping.value))
    && loc.address == raw.address
    && LinesDenote(p.strings, p.functions, loc.lines, r, raw.lines, |raw.lines|)
  }

  /** The table entry has the key of a location that describes the input. */
  ghost predicate StandsFor(p: Profile, r: Record, raw: RawLocation, id: nat, loc: Location)
    requires LocationInRange(r, raw)
  {
    && Describes(p, r, raw, loc)
    && 1 <= id <= |p.locations| && p.locations[id - 1].mappingId <= |p.mappings|
    && MakeLocationKey(p.locations[id - 1], p.mappings) == MakeLocationKey(loc, p.mappings)
  }

  ghost predicate Located(p: Profile, r: Record, raw: RawLocation, id: nat)
    requires LocationInRange(r, raw)
  {
    exists loc :: StandsFor(p, r, raw, id, loc)
  }

  /** The k-th identifier is that of the k-th location of the row that is not null. */
  ghost predicate StackDenotes(p: Profile, ids: seq<nat>, r: Record, row: Row, n: nat)
    requires RowInRange(r, row) && n <= |row.locations|
    decreases n
  {
    if n == 0 then ids == []
    else if row.locations[n - 1].None? then StackDenotes(p, ids, r, row, n - 1)
    else
      && ids != []
      && StackDenotes(p, ids[..|ids| - 1], r, row, n - 1)
      && Located(p, r, row.locations[n - 1].value, ids[|ids| - 1])
  }

  /** One of the first locations of the row is what the table entry describes. */
  ghost predicate Described(p: Profile, r: Record, row: Row, n: nat, loc: Location)
    requires RowInRange(r, row) && n <= |row.locations|
  {
    exists j: nat :: j < n && row.locations[j].Some? && Describes(p, r, row.locations[j].value, loc)
  }

  /** No location was added that is not one of the row. */
  ghost predicate AddedDescribed(p: Profile, r: Record, row: Row, n: nat, before: nat)
    requires RowInRange(r, row) && n <= |row.locations|
  {
    forall i :: before <= i < |p.locations| ==> Described(p, r, row, n, p.locations[i])
  }

  /** The stack, the labels and the value of a row. */
  ghost predicate SampleDenotes(p: Profile, s: Sample, r: Record, row: Row, isDiff: bool)
    requires RowInRange(r, row) && |r.labelDicts| == |r.labelNames|
  {
    && StackDenotes(p, s.locationIds, r, row, |row.locations|)
    && LabelsDenote(p.strings, s.labels, r, row, |row.labels|)
    && s.values == [if isDiff then row.diff else row.value]
  }

  /** The samples are those of the first rows that have a location, in order. */
  ghost predicate SamplesDenote(p: Profile, samples: seq<Sample>, r: Record, n: nat, isDiff: bool)
    requires RecordInRange(r) && n <= |r.rows|
    decreases n
  {
    if n == 0 then samples == []
    else if !HasLocation(r.rows[n - 1]) then SamplesDenote(p, samples, r, n - 1, isDiff)
    else
      && samples != []
      && SamplesDenote(p, samples[..|samples| - 1], r, n - 1, isDiff)
      && SampleDenotes(p, samples[|samples| - 1], r, r.rows[n - 1], isDiff)
  }

  /** The samples of all records, one record after the other. */
  ghost predicate RecordsDenote(p: Profile, samples: seq<Sample>, records: seq<Record>, isDiff: bool)
    requires forall k :: 0 <= k < |records| ==> RecordInRange(records[k])
    decreases |records|
  {
    if records == [] then samples == []
    else
      var last := records[|records| - 1];
      exists k: nat :: k <= |samples| && RecordsDenote(p, samples[..k], records[..|records| - 1], isDiff)
        && SamplesDenote(p, samples[k..], last, |last.rows|, isDiff)
  }

  lemma NoRecordsDenoted(p: Profile, isDiff: bool)
    ensures RecordsDenote(p, [], [], isDiff) && Grown(p, p)
  {
  }

  function WrittenAll(records: seq<Record>, isDiff: bool): int {
    if records == [] then 0
    else WrittenAll(records[..|records| - 1], isDiff) + Written(records[|records| - 1].rows, isDiff)
  }

  lemma {:induction false} SampleSumSplit(a: seq<Sample>, b: seq<Sample>)
    ensures SampleSum(a + b) == SampleSum(a) + SampleSum(b)
  {
    if b == [] {
      assert a + b == a;
    } else {
      SampleSumSplit(a, b[..|b| - 1]);
      assert (a + b)[..|a + b| - 1] == a + b[..|b| - 1];
    }
  }

  lemma {:induction false} RowsSum(p: Profile, samples: seq<Sample>, r: Record, n: nat, isDiff: bool)
    requires RecordInRange(r) && n <= |r.rows| && SamplesDenote(p, samples, r, n, isDiff)
    ensures SampleSum(samples) == Written(r.rows[..n], isDiff)
    decreases n
  {
    hide RowInRange, HasLocation, StackDenotes, LabelsDenote;
    if n > 0 {
      WrittenStep(r.rows, n - 1, isDiff);
      if !HasLocation(r.rows[n - 1]) {
        RowsSum(p, samples, r, n - 1, isDiff);
      } else {
        RowsSum(p, samples[..|samples| - 1], r, n - 1, isDiff);
      }
    }
  }

  /** The samples of a record hold the values of its rows. */
  lemma {:induction false} RecordSum(p: Profile, before: seq<Sample>, samples: seq<Sample>, r: Record, isDiff: bool)
    requires RecordInRange(r) && before <= samples && SamplesDenote(p, samples[|before|..], r, |r.rows|, isDiff)
    ensures SampleSum(samples) == SampleSum(before) + Written(r.rows, isDiff)
  {
    hide RecordInRange, SamplesDenote, SampleSum;
    RowsSum(p, samples[|before|..], r, |r.rows|, isDiff);
    assert r.rows[..|r.rows|] == r.rows;
    SampleSumSplit(before, samples[|before|..]);
    assert before + samples[|before|..] == samples;
  }

  lemma {:induction false} RecordsSum(p: Profile, samples: seq<Sample>, records: seq<Record>, isDiff: bool)
    requires forall k :: 0 <= k < |records| ==> RecordInRange(records[k])
    requires RecordsDenote(p, samples, records, isDiff)
    ensures SampleSum(samples) == WrittenAll(records, isDiff)
    decreases |records|
  {
    hide RecordInRange, SamplesDenote;
    if records != [] {
      var last := records[|records| - 1];
      var k: nat :| k <= |samples| && RecordsDenote(p, samples[..k], records[..|records| - 1], isDiff)
        && SamplesDenote(p, samples[k..], last, |last.rows|, isDiff);
      RecordsSum(p, samples[..k], records[..|records| - 1], isDiff);
      RecordSum(p, samples[..k], samples, last, isDiff);
    }
  }

  // What a key says about a location.

  /** A location that is keyed by its place in a mapping. */
  predicate Placed(l: Location) {
    l.mappingId != 0 && l.address != 0
  }

  /** The same functions and line numbers, line by line; columns do not matter. */
  ghost predicate SameLines(a: seq<Line>, b: seq<Line>) {
    && |a| == |b|
    && (forall i :: 0 <= i < |a| ==> a[i].functionId == b[i].functionId && a[i].line % WORD == b[i].line % WORD)
  }

  lemma {:induction false} LineWordsAt(lines: seq<Line>, i: nat)
    requires i < |lines|
    ensures |LineWords(lines)| == 2 * |lines|
    ensures LineWords(lines)[2 * i] == lines[i].functionId && LineWords(lines)[2 * i + 1] == lines[i].line % WORD
  {
    var n := |lines| - 1;
    if n == 0 {
      assert lines[..0] == [];
    } else {
      LineWordsAt(lines[..n], if i < n then i else 0);
    }
  }

  lemma {:induction false} LineWordsLength(lines: seq<Line>)
    ensures |LineWords(lines)| == 2 * |lines|
  {
    if lines != [] {
      LineWordsAt(lines, 0);
    }
  }

  lemma {:induction false} SameWords(a: seq<Line>, b: seq<Line>)
    ensures LineWords(a) == LineWords(b) <==> SameLines(a, b)
  {
    LineWordsLength(a);
    LineWordsLength(b);
    if LineWords(a) == LineWords(b) {
      forall i | 0 <= i < |a|
        ensures a[i].functionId == b[i].functionId && a[i].line % WORD == b[i].line % WORD
      {
        LineWordsAt(a, i);
        LineWordsAt(b, i);
      }
    } else if SameLines(a, b) {
      forall k | 0 <= k < |LineWords(a)| ensures LineWords(a)[k] == LineWords(b)[k] {
        LineWordsAt(a, k / 2);
        LineWordsAt(b, k / 2);
      }
      assert false;
    }
  }

  /**
   Exactly when two locations are taken for the same: both placed at the same address of one mapping,
   both without place and with the same lines, or one placed and the other with a single line whose
   function has the number of the mapping and whose line number is the offset of the address.
   */
  lemma {:induction false} SameKeyExactly(a: Location, b: Location, mappings: seq<Mapping>)
    requires a.mappingId <= |mappings| && b.mappingId <= |mappings|
    ensures MakeLocationKey(a, mappings) == MakeLocationKey(b, mappings) <==>
      if Placed(a) && Placed(b) then a.mappingId == b.mappingId && a.address % WORD == b.address % WORD
      else if Placed(a) then Mistaken(a, b, mappings)
      else if Placed(b) then Mistaken(b, a, mappings)
      else SameLines(a.lines, b.lines)
  {
    SameWords(a.lines, b.lines);
    if Placed(a) && !Placed(b) {
      PlacedLikeLines(a, b, mappings);
    } else if Placed(b) && !Placed(a) {
      PlacedLikeLines(b, a, mappings);
    } else if Placed(a) && a.mappingId == b.mappingId {
      SameDifference(a.address, b.address, mappings[a.mappingId - 1].start);
    }
  }

  /** The place of one location reads like the only line of the other. */
  ghost predicate Mistaken(placed: Location, other: Location, mappings: seq<Mapping>)
    requires 1 <= placed.mappingId <= |mappings|
  {
    && |other.lines| == 1 && other.lines[0].functionId == placed.mappingId
    && other.lines[0].line % WORD == (placed.address - mappings[placed.mappingId - 1].start) % WORD
  }

  lemma {:induction false} PlacedLikeLines(a: Location, b: Location, mappings: seq<Mapping>)
    requires a.mappingId <= |mappings| && b.mappingId <= |mappings| && Placed(a) && !Placed(b)
    ensures MakeLocationKey(a, mappings) == MakeLocationKey(b, mappings) <==> Mistaken(a, b, mappings)
  {
    LineWordsLength(b.lines);
    if |b.lines| == 1 {
      LineWordsAt(b.lines, 0);
      var words := LineWords(b.lines);
      assert words == [words[0], words[1]];
    }
  }

  lemma SameDifference(a: int, b: int, c: int)
    ensures (a - c) % WORD == (b - c) % WORD <==> a % WORD == b % WORD
  {
  }

  /**
   The entry that stands for an input location with a place is one at that place; or it has no place, is
   mistaken for it, and does not describe the input.
   */
  lemma {:induction false} StandsWrongly(p: Profile, r: Record, raw: RawLocation, id: nat, loc: Location)
    requires LocationInRange(r, raw) && StandsFor(p, r, raw, id, loc) && Placed(loc)
    ensures
      var entry := p.locations[id - 1];
      if Placed(entry) then entry.mappingId == loc.mappingId && entry.address % WORD == raw.address % WORD
      else Mistaken(loc, entry, p.mappings) && !Describes(p, r, raw, entry)
  {
    hide LinesDenote, MappingDenotes, MakeLocationKey, LocationInRange;
    SameKeyExactly(p.locations[id - 1], loc, p.mappings);
  }

  /** A row with line 5 of a function at an unmapped location, and one at 0x1005 in a mapping from 0x1000. */
  const TWO_ROWS: Record := Record(["m"], [], ["f"], [], [], [], [], [
    Row([Some(RawLocation(None, 0x10, [Some(RawLine(5, 0, None, Some(0), None, None))]))], [], 1, 0),
    Row([Some(RawLocation(Some(RawMapping(0x1000, 0x2000, 0, Some(0), None)), 0x1005, []))], [], 2, 0)])

  /** What the writer makes of them: both samples name the location of the first row. */
  const ONE_LOCATION: Profile := Profile(
    ["", "m", "f"], [ValueType(0, 0)], Some(ValueType(0, 0)), [Mapping(1, 0x1000, 0x2000, 0, 1, 0)],
    [Function(1, 2, 0, 0, 0)], [Location(1, 0, 0x10, [Line(1, 5, 0)])], [Sample([1], [1], []), Sample([1], [2], [])])

  /**
   The mapped location has the key of the unmapped one, so the map finds that: the second sample names a
   location that does not describe its row.
   */
  lemma {:induction false} PlaceTakenForLine()
    ensures RecordInRange(TWO_ROWS) && LocationInRange(TWO_ROWS, TWO_ROWS.rows[1].locations[0].value)
    ensures LocationsKeyed(ONE_LOCATION.locations, ONE_LOCATION.mappings, map[[1, 5] := 1])
    ensures StandsFor(ONE_LOCATION, TWO_ROWS, TWO_ROWS.rows[1].locations[0].value, 1, Location(0, 1, 0x1005, []))
    ensures ONE_LOCATION.samples[1].locationIds == [1]
    ensures !Describes(ONE_LOCATION, TWO_ROWS, TWO_ROWS.rows[1].locations[0].value, ONE_LOCATION.locations[0])
  {
    var mapped, unmapped := Location(0, 1, 0x1005, []), ONE_LOCATION.locations[0];
    SameKeyExactly(unmapped, mapped, ONE_LOCATION.mappings);
    assert MakeLocationKey(mapped, ONE_LOCATION.mappings) == [1, 5];
  }

  lemma {:induction false} FirstRowStands()
    requires RecordInRange(TWO_ROWS) && LocationInRange(TWO_ROWS, TWO_ROWS.rows[0].locations[0].value)
    ensures Located(ONE_LOCATION, TWO_ROWS, TWO_ROWS.rows[0].locations[0].value, 1)
  {
    var p, raw := ONE_LOCATION, TWO_ROWS.rows[0].locations[0].value;
    assert p.locations[0].lines[..0] == [];
    assert LineDenotes(p.strings, p.functions, p.locations[0].lines[0], TWO_ROWS, raw.lines[0].value);
    assert LinesDenote(p.strings, p.functions, p.locations[0].lines, TWO_ROWS, raw.lines, 1);
    assert StandsFor(p, TWO_ROWS, raw, 1, p.locations[0]);
  }

  /** A row of one location and no label, whose sample has the identifier that stands for it. */
  lemma {:induction false} OneFrameSample(p: Profile, r: Record, row: Row, s: Sample)
    requires RecordInRange(r) && RowInRange(r, row) && |row.locations| == 1 && row.locations[0].Some?
    requires row.labels == [] && |s.locationIds| == 1 && Located(p, r, row.locations[0].value, s.locationIds[0])
    requires s.labels == [] && s.values == [row.value]
    ensures SampleDenotes(p, s, r, row, false) && HasLocation(row)
  {
    EmptyStack(p, r, row);
    StackStep(p, p, [], r, row, 0, s.locationIds[0]);
    assert [] + [s.locationIds[0]] == s.locationIds;
    hide Located, StackDenotes, LocationInRange;
  }

  /** A sample with the identifier that stands for the only location of its row. */
  ghost predicate OneFrame(p: Profile, r: Record, row: Row, s: Sample) {
    && RowInRange(r, row) && |row.locations| == 1 && row.locations[0].Some? && row.labels == []
    && |s.locationIds| == 1 && Located(p, r, row.locations[0].value, s.locationIds[0])
    && s.labels == [] && s.values == [row.value]
  }

  lemma {:induction false} TwoFrameSamples(p: Profile, r: Record, a: Sample, b: Sample)
    requires RecordInRange(r) && |r.rows| == 2 && OneFrame(p, r, r.rows[0], a) && OneFrame(p, r, r.rows[1], b)
    ensures SamplesDenote(p, [a, b], r, 2, false)
  {
    OneFrameSample(p, r, r.rows[0], a);
    OneFrameSample(p, r, r.rows[1], b);
    hide SampleDenotes, RowInRange, HasLocation, Located, OneFrame;
    NoSamplesDenoted(p, r, false);
    SamplesStep(p, p, [], r, 0, a, false);
    SamplesStep(p, p, [a], r, 1, b, false);
    assert [] + [a] == [a] && [a] + [b] == [a, b];
  }

  lemma {:induction false} OneLocationWellFormed()
    ensures WellFormed(ONE_LOCATION)
  {
  }

  /** Each of the two samples denotes its row, as the writer promises. */
  lemma {:induction false} OneLocationIsWritten()
    ensures RecordInRange(TWO_ROWS) && SamplesDenote(ONE_LOCATION, ONE_LOCATION.samples, TWO_ROWS, 2, false)
  {
    var p, r := ONE_LOCATION, TWO_ROWS;
    PlaceTakenForLine();
    hide StandsFor, MakeLocationKey, LinesDenote, LocationsKeyed, Describes, SamplesDenote;
    FirstRowStands();
    hide Located, LocationInRange;
    assert OneFrame(p, r, r.rows[0], p.samples[0]) && OneFrame(p, r, r.rows[1], p.samples[1]);
    hide OneFrame, RowInRange;
    TwoFrameSamples(p, r, p.samples[0], p.samples[1]);
    assert p.samples == [p.samples[0], p.samples[1]];
  }

  // What new and growing tables keep.

  lemma EmptyInterned()
    ensures Interned([""], map["" := 0])
  {
  }

  lemma EmptyWellFormed(strings: seq<string>, sampleType: ValueType, periodType: ValueType)
    requires strings != [] && strings[0] == ""
    requires exists text :: TypeDenotes(strings, sampleType, text)
    requires exists text :: TypeDenotes(strings, periodType, text)
    ensures WellFormed(Profile(strings, [sampleType], Some(periodType), [], [], [], []))
  {
  }

  lemma EmptyKeyed()
    ensures MappingsKeyed([], map[]) && FunctionsKeyed([], map[]) && LocationsKeyed([], [], map[])
  {
  }

  /** A value type says the two given strings. */
  ghost predicate TypeDenotes(strings: seq<string>, t: ValueType, text: (string, string)) {
    && 0 <= t.typ < |strings| && strings[t.typ] == text.0
    && 0 <= t.unit < |strings| && strings[t.unit] == text.1
  }

  lemma TypeDenotesGrows(strings: seq<string>, strings': seq<string>, t: ValueType,
      text: (string, string))
    requires TypeDenotes(strings, t, text) && Extends(strings, strings')
    ensures TypeDenotes(strings', t, text)
  {
  }

  lemma TypeDenotesLater(p: Profile, p': Profile, t: ValueType, text: (string, string))
    requires TypeDenotes(p.strings, t, text) && Grown(p, p')
    ensures TypeDenotes(p'.strings, t, text)
  {
  }

  lemma FirstInterned(strings: seq<string>, index: map<string, nat>)
    requires Interned(strings, index)
    ensures strings != [] && strings[0] == ""
  {
  }

  lemma {:induction false} LinesDenoteGrows(strings: seq<string>, strings': seq<string>, functions: seq<Function>,
      functions': seq<Function>, lines: seq<Line>, r: Record, raw: seq<Option<RawLine>>, n: nat)
    requires n <= |raw| && forall k :: 0 <= k < |raw| && raw[k].Some? ==> LineInRange(r, raw[k].value)
    requires LinesDenote(strings, functions, lines, r, raw, n)
    requires Extends(strings, strings') && Extends(functions, functions')
    ensures LinesDenote(strings', functions', lines, r, raw, n)
    decreases n
  {
    if n > 0 {
      if raw[n - 1].None? || Anonymous(raw[n - 1].value) {
        LinesDenoteGrows(strings, strings', functions, functions', lines, r, raw, n - 1);
      } else {
        LinesDenoteGrows(strings, strings', functions, functions', lines[..|lines| - 1], r, raw, n - 1);
      }
    }
  }

  /** All tables only grew. */
  ghost predicate Grown(p: Profile, p': Profile) {
    && Extends(p.strings, p'.strings) && Extends(p.mappings, p'.mappings)
    && Extends(p.functions, p'.functions) && Extends(p.locations, p'.locations)
  }

  lemma GrownLength(p: Profile, p': Profile)
    requires Grown(p, p')
    ensures |p.locations| <= |p'.locations|
  {
  }

  lemma StringsGrown(p: Profile, p': Profile)
    requires p' == p.(strings := p'.strings) && Extends(p.strings, p'.strings)
    ensures Grown(p, p')
  {
  }

  lemma GrownTransitive(a: Profile, b: Profile, c: Profile)
    requires Grown(a, b) && Grown(b, c)
    ensures Grown(a, c)
  {
  }

  lemma {:induction false} DescribedLines(p: Profile, r: Record, raw: RawLocation, loc: Location)
    requires LocationInRange(r, raw) && Describes(p, r, raw, loc)
    ensures loc.mappingId <= |p.mappings| && LinesInRange(loc.lines, |p.functions|)
  {
    DenotedInRange(p.strings, p.functions, loc.lines, r, raw.lines, |raw.lines|);
  }

  /** What is known of a location once it was found or added. */
  lemma {:induction false} FiledLocation(p: Profile, p': Profile, r: Record, raw: RawLocation, id: nat, loc: Location)
    requires LocationInRange(r, raw) && Describes(p, r, raw, loc)
    requires p' == p.(locations := p'.locations) && OneMore(p.locations, p'.locations, id)
    requires 1 <= id <= |p'.locations| && p'.locations[id - 1].mappingId <= |p.mappings|
    requires MakeLocationKey(p'.locations[id - 1], p.mappings) == MakeLocationKey(loc, p.mappings)
    requires id > |p.locations| ==> p'.locations[id - 1] == loc.(id := id)
    ensures Grown(p, p') && Located(p', r, raw, id)
    ensures id > |p.locations| ==> Describes(p', r, raw, p'.locations[id - 1])
  {
    hide LinesDenote, MakeMappingKey, MappingDenotes, LocationInRange, MakeLocationKey;
    assert StandsFor(p', r, raw, id, loc);
  }

  lemma {:induction false} DescribesGrows(p: Profile, p': Profile, r: Record, raw: RawLocation, loc: Location)
    requires LocationInRange(r, raw) && Describes(p, r, raw, loc) && Grown(p, p')
    ensures Describes(p', r, raw, loc)
  {
    hide LinesDenote, MakeMappingKey, LineInRange;
    LinesDenoteGrows(p.strings, p'.strings, p.functions, p'.functions, loc.lines, r, raw.lines, |raw.lines|);
  }

  lemma {:induction false} LocatedGrows(p: Profile, p': Profile, r: Record, raw: RawLocation, id: nat)
    requires LocationInRange(r, raw) && Located(p, r, raw, id) && Grown(p, p')
    ensures Located(p', r, raw, id)
  {
    var loc :| StandsFor(p, r, raw, id, loc);
    DescribesGrows(p, p', r, raw, loc);
    hide LinesDenote, MakeMappingKey, LocationInRange, MappingDenotes;
    assert StandsFor(p', r, raw, id, loc);
  }

  lemma {:induction false} StackDenotesGrows(p: Profile, p': Profile, ids: seq<nat>, r: Record, row: Row, n: nat)
    requires RowInRange(r, row) && n <= |row.locations| && StackDenotes(p, ids, r, row, n) && Grown(p, p')
    ensures StackDenotes(p', ids, r, row, n)
    decreases n
  {
    hide Located, Grown, LocationInRange;
    if n > 0 {
      if row.locations[n - 1].None? {
        StackDenotesGrows(p, p', ids, r, row, n - 1);
      } else {
        StackDenotesGrows(p, p', ids[..|ids| - 1], r, row, n - 1);
        LocatedGrows(p, p', r, row.locations[n - 1].value, ids[|ids| - 1]);
      }
    }
  }

  /** Identifiers that denote a stack are in range, one for each location that is not null. */
  lemma {:induction false} DenotedStack(p: Profile, ids: seq<nat>, r: Record, row: Row, n: nat)
    requires RowInRange(r, row) && n <= |row.locations| && StackDenotes(p, ids, r, row, n)
    ensures IdsOk(|p.locations|, ids) && |ids| == Valids(row.locations[..n])
    decreases n
  {
    hide LocationInRange, Describes;
    if n > 0 {
      ValidsStep(row.locations, n - 1);
      if row.locations[n - 1].None? {
        DenotedStack(p, ids, r, row, n - 1);
      } else {
        var init := ids[..|ids| - 1];
        DenotedStack(p, init, r, row, n - 1);
        assert forall k :: 0 <= k < |init| ==> ids[k] == init[k];
      }
    }
  }

  /** A location that was found, or added, for the next entry of the row. */
  lemma {:induction false} StackStep(p: Profile, p': Profile, ids: seq<nat>, r: Record, row: Row, n: nat, id: nat)
    requires RowInRange(r, row) && n < |row.locations| && row.locations[n].Some?
    requires StackDenotes(p, ids, r, row, n) && Grown(p, p') && Located(p', r, row.locations[n].value, id)
    ensures StackDenotes(p', ids + [id], r, row, n + 1)
  {
    StackDenotesGrows(p, p', ids, r, row, n);
    assert (ids + [id])[..|ids|] == ids;
    hide Located, Grown, LocationInRange;
  }

  lemma {:induction false} StackSkip(p: Profile, ids: seq<nat>, r: Record, row: Row, n: nat)
    requires RowInRange(r, row) && n < |row.locations| && row.locations[n].None? && StackDenotes(p, ids, r, row, n)
    ensures StackDenotes(p, ids, r, row, n + 1) && Grown(p, p)
  {
    hide RowInRange, Located;
  }

  lemma EmptyStack(p: Profile, r: Record, row: Row)
    requires RowInRange(r, row)
    ensures Grown(p, p) && StackDenotes(p, [], r, row, 0) && AddedDescribed(p, r, row, 0, |p.locations|)
  {
  }

  lemma {:induction false} StackOfRow(p: Profile, ids: seq<nat>, r: Record, row: Row)
    requires RowInRange(r, row) && StackDenotes(p, ids, r, row, |row.locations|)
    ensures IdsOk(|p.locations|, ids) && (|ids| > 0 <==> HasLocation(row))
  {
    hide RowInRange, StackDenotes;
    DenotedStack(p, ids, r, row, |row.locations|);
    assert row.locations[..|row.locations|] == row.locations;
    ValidsPositive(row.locations);
  }

  lemma {:induction false} AddedStep(p: Profile, p': Profile, r: Record, row: Row, n: nat, before: nat)
    requires RowInRange(r, row) && n < |row.locations|
    requires AddedDescribed(p, r, row, n, before) && Grown(p, p')
    requires forall i :: |p.locations| <= i < |p'.locations| ==>
      row.locations[n].Some? && Describes(p', r, row.locations[n].value, p'.locations[i])
    ensures AddedDescribed(p', r, row, n + 1, before)
  {
    hide Describes, LocationInRange;
    forall i | before <= i < |p'.locations| ensures Described(p', r, row, n + 1, p'.locations[i]) {
      if i < |p.locations| {
        assert Described(p, r, row, n, p.locations[i]);
        var j: nat :| j < n && row.locations[j].Some? && Describes(p, r, row.locations[j].value, p.locations[i]);
        DescribesGrows(p, p', r, row.locations[j].value, p.locations[i]);
        assert p'.locations[i] == p.locations[i];
      }
    }
  }

  /** Samples take no part in what tables say. */
  lemma {:induction false} MoreSamples(p0: Profile, p: Profile, p': Profile, r: Record, row: Row, before: nat)
    requires RowInRange(r, row) && Grown(p0, p) && p' == p.(samples := p'.samples)
    requires AddedDescribed(p, r, row, |row.locations|, before)
    ensures Grown(p0, p') && Grown(p, p') && AddedDescribed(p', r, row, |row.locations|, before)
  {
    hide Describes, LocationInRange;
    forall i | before <= i < |p'.locations| ensures Described(p', r, row, |row.locations|, p'.locations[i]) {
      assert Described(p, r, row, |row.locations|, p.locations[i]);
      var j: nat :| j < |row.locations| && row.locations[j].Some?
        && Describes(p, r, row.locations[j].value, p.locations[i]);
      DescribesGrows(p, p', r, row.locations[j].value, p.locations[i]);
    }
  }

  lemma {:induction false} LabelsDenoteGrows(strings: seq<string>, strings': seq<string>, labels: seq<Label>, r: Record,
      row: Row, n: nat)
    requires RowInRange(r, row) && n <= |row.labels| && |r.labelDicts| == |r.labelNames|
    requires LabelsDenote(strings, labels, r, row, n) && Extends(strings, strings')
    ensures LabelsDenote(strings', labels, r, row, n)
    decreases n
  {
    if n > 0 {
      if row.labels[n - 1].None? {
        LabelsDenoteGrows(strings, strings', labels, r, row, n - 1);
      } else {
        LabelsDenoteGrows(strings, strings', labels[..|labels| - 1], r, row, n - 1);
      }
    }
  }

  lemma {:induction false} SampleDenotesGrows(p: Profile, p': Profile, s: Sample, r: Record, row: Row, isDiff: bool)
    requires RowInRange(r, row) && |r.labelDicts| == |r.labelNames| && SampleDenotes(p, s, r, row, isDiff)
      && Grown(p, p')
    ensures SampleDenotes(p', s, r, row, isDiff)
  {
    hide StackDenotes, LabelsDenote, RowInRange;
    StackDenotesGrows(p, p', s.locationIds, r, row, |row.locations|);
    LabelsDenoteGrows(p.strings, p'.strings, s.labels, r, row, |row.labels|);
  }

  /** What the samples of a record say, they go on saying while the tables grow. */
  lemma {:induction false} SamplesDenoteGrows(p: Profile, p': Profile, samples: seq<Sample>, r: Record, n: nat,
      isDiff: bool)
    requires RecordInRange(r) && n <= |r.rows| && SamplesDenote(p, samples, r, n, isDiff) && Grown(p, p')
    ensures SamplesDenote(p', samples, r, n, isDiff)
    decreases n
  {
    hide SampleDenotes, Grown, RowInRange, HasLocation;
    if n > 0 {
      if !HasLocation(r.rows[n - 1]) {
        SamplesDenoteGrows(p, p', samples, r, n - 1, isDiff);
      } else {
        SamplesDenoteGrows(p, p', samples[..|samples| - 1], r, n - 1, isDiff);
        SampleDenotesGrows(p, p', samples[|samples| - 1], r, r.rows[n - 1], isDiff);
      }
    }
  }

  lemma NoSamplesDenoted(p: Profile, r: Record, isDiff: bool)
    requires RecordInRange(r)
    ensures SamplesDenote(p, [], r, 0, isDiff) && Grown(p, p)
  {
  }

  lemma {:induction false} SamplesSkip(p: Profile, p': Profile, samples: seq<Sample>, r: Record, n: nat, isDiff: bool)
    requires RecordInRange(r) && n < |r.rows| && !HasLocation(r.rows[n])
    requires SamplesDenote(p, samples, r, n, isDiff) && Grown(p, p')
    ensures SamplesDenote(p', samples, r, n + 1, isDiff)
  {
    SamplesDenoteGrows(p, p', samples, r, n, isDiff);
    hide SampleDenotes, Grown, RowInRange, HasLocation;
  }

  lemma {:induction false} SamplesStep(p: Profile, p': Profile, samples: seq<Sample>, r: Record, n: nat, s: Sample,
      isDiff: bool)
    requires RecordInRange(r) && n < |r.rows| && HasLocation(r.rows[n])
    requires SamplesDenote(p, samples, r, n, isDiff) && Grown(p, p') && SampleDenotes(p', s, r, r.rows[n], isDiff)
    ensures SamplesDenote(p', samples + [s], r, n + 1, isDiff)
  {
    SamplesDenoteGrows(p, p', samples, r, n, isDiff);
    assert (samples + [s])[..|samples|] == samples;
    hide SampleDenotes, Grown, RowInRange, HasLocation;
  }

  lemma {:induction false} RecordsDenoteGrows(p: Profile, p': Profile, samples: seq<Sample>, records: seq<Record>,
      isDiff: bool)
    requires forall k :: 0 <= k < |records| ==> RecordInRange(records[k])
    requires RecordsDenote(p, samples, records, isDiff) && Grown(p, p')
    ensures RecordsDenote(p', samples, records, isDiff)
    decreases |records|
  {
    hide SamplesDenote, Grown, RecordInRange;
    if records != [] {
      var last := records[|records| - 1];
      var k: nat :| k <= |samples| && RecordsDenote(p, samples[..k], records[..|records| - 1], isDiff)
        && SamplesDenote(p, samples[k..], last, |last.rows|, isDiff);
      RecordsDenoteGrows(p, p', samples[..k], records[..|records| - 1], isDiff);
      SamplesDenoteGrows(p, p', samples[k..], last, |last.rows|, isDiff);
    }
  }

  lemma {:induction false} RecordsStep(p: Profile, p': Profile, samples: seq<Sample>, samples': seq<Sample>,
      records: seq<Record>, r: Record, isDiff: bool)
    requires forall k :: 0 <= k < |records| ==> RecordInRange(records[k])
    requires RecordInRange(r) && Grown(p, p') && RecordsDenote(p, samples, records, isDiff)
    requires samples <= samples' && SamplesDenote(p', samples'[|samples|..], r, |r.rows|, isDiff)
    ensures RecordsDenote(p', samples', records + [r], isDiff)
  {
    hide SamplesDenote, Grown, RecordInRange;
    RecordsDenoteGrows(p, p', samples, records, isDiff);
    assert (records + [r])[..|records|] == records;
    assert samples'[..|samples|] == samples;
  }

  lemma TransposedGrows(strings: seq<string>, strings': seq<string>, dict: seq<string>, t: seq<nat>)
    requires Transposed(strings, dict, t) && Extends(strings, strings')
    ensures Transposed(strings', dict, t)
  {
  }

  lemma {:induction false} LocationsKeyedGrows(locations: seq<Location>, mappings: seq<Mapping>,
      mappings': seq<Mapping>, byKey: map<seq<nat>, nat>)
    requires LocationsKeyed(locations, mappings, byKey) && Extends(mappings, mappings')
    ensures LocationsKeyed(locations, mappings', byKey)
  {
    forall i | 0 <= i < |locations|
      ensures locations[i].mappingId <= |mappings'|
      ensures MakeLocationKey(locations[i], mappings') == MakeLocationKey(locations[i], mappings)
    {
      KeyGrows(locations[i], mappings, mappings');
    }
    hide MakeLocationKey, Extends;
  }

  lemma KeyGrows(l: Location, mappings: seq<Mapping>, mappings': seq<Mapping>)
    requires l.mappingId <= |mappings| && Extends(mappings, mappings')
    ensures |mappings| <= |mappings'| && MakeLocationKey(l, mappings') == MakeLocationKey(l, mappings)
  {
  }

  /** Longer tables keep a profile well formed. */
  lemma {:induction false} WellFormedGrows(p: Profile, p': Profile)
    requires WellFormed(p) && p.strings != [] && Extends(p.strings, p'.strings)
    requires p' == p.(strings := p'.strings)
    ensures WellFormed(p')
  {
    var n, n' := |p.strings|, |p'.strings|;
    assert forall i :: Below(i, n) ==> Below(i, n');
    forall i | 0 <= i < |p.samples| ensures LabelsOk(n', p.samples[i].labels) {
      assert LabelsOk(n, p.samples[i].labels);
    }
  }

  // One more entry.

  /** The tables behind the samples: sequential ids, references in range, and maps that find by key. */
  ghost predicate TablesOk(n: nat, mappings: seq<Mapping>, mappingByKey: map<MappingKey, nat>, functions: seq<Function>,
      functionByKey: map<FunctionKey, nat>, locations: seq<Location>, locationByKey: map<seq<nat>, nat>)
  {
    && MappingsOk(n, mappings) && MappingsKeyed(mappings, mappingByKey)
    && FunctionsOk(n, functions) && FunctionsKeyed(functions, functionByKey)
    && LocationsOk(|mappings|, |functions|, locations) && LocationsKeyed(locations, mappings, locationByKey)
  }

  lemma {:induction false} AddedMapping(n: nat, mappings: seq<Mapping>, mappingByKey: map<MappingKey, nat>,
      functions: seq<Function>,
      functionByKey: map<FunctionKey, nat>, locations: seq<Location>, locationByKey: map<seq<nat>, nat>, m: Mapping)
    requires TablesOk(n, mappings, mappingByKey, functions, functionByKey, locations, locationByKey)
    requires m.id == |mappings| + 1 && Below(m.filename, n) && Below(m.buildId, n)
    requires MakeMappingKey(m) !in mappingByKey
    ensures TablesOk(n, mappings + [m], mappingByKey[MakeMappingKey(m) := m.id], functions, functionByKey, locations,
        locationByKey)
    ensures Extends(mappings, mappings + [m])
  {
    LocationsKeyedGrows(locations, mappings, mappings + [m], locationByKey);
    MappingsMore(n, mappings, mappingByKey, m);
    hide LocationsKeyed, MappingsKeyed, FunctionsKeyed, MappingsOk, FunctionsOk, LinesInRange, MakeMappingKey;
  }

  lemma {:induction false} MappingsMore(n: nat, mappings: seq<Mapping>, byKey: map<MappingKey, nat>, m: Mapping)
    requires MappingsOk(n, mappings) && MappingsKeyed(mappings, byKey)
    requires m.id == |mappings| + 1 && Below(m.filename, n) && Below(m.buildId, n) && MakeMappingKey(m) !in byKey
    ensures MappingsOk(n, mappings + [m]) && MappingsKeyed(mappings + [m], byKey[MakeMappingKey(m) := m.id])
  {
    hide MakeMappingKey;
    var more := mappings + [m];
    assert forall i :: 0 <= i < |mappings| ==> more[i] == mappings[i];
  }

  lemma {:induction false} AddedFunction(n: nat, mappings: seq<Mapping>, mappingByKey: map<MappingKey, nat>,
      functions: seq<Function>,
      functionByKey: map<FunctionKey, nat>, locations: seq<Location>, locationByKey: map<seq<nat>, nat>, f: Function)
    requires TablesOk(n, mappings, mappingByKey, functions, functionByKey, locations, locationByKey)
    requires f.id == |functions| + 1 && Below(f.name, n) && Below(f.systemName, n) && Below(f.filename, n)
    requires MakeFunctionKey(f) !in functionByKey
    ensures TablesOk(n, mappings, mappingByKey, functions + [f], functionByKey[MakeFunctionKey(f) := f.id], locations,
        locationByKey)
    ensures Extends(functions, functions + [f])
  {
    forall i | 0 <= i < |locations| ensures LinesInRange(locations[i].lines, |functions| + 1) {
      assert LinesInRange(locations[i].lines, |functions|);
    }
    FunctionsMore(n, functions, functionByKey, f);
    hide LocationsKeyed, MappingsKeyed, FunctionsKeyed, MappingsOk, FunctionsOk, LinesInRange, MakeFunctionKey;
  }

  lemma {:induction false} FunctionsMore(n: nat, functions: seq<Function>, byKey: map<FunctionKey, nat>, f: Function)
    requires FunctionsOk(n, functions) && FunctionsKeyed(functions, byKey)
    requires f.id == |functions| + 1 && Below(f.name, n) && Below(f.systemName, n) && Below(f.filename, n)
    requires MakeFunctionKey(f) !in byKey
    ensures FunctionsOk(n, functions + [f]) && FunctionsKeyed(functions + [f], byKey[MakeFunctionKey(f) := f.id])
  {
    hide MakeFunctionKey;
    MoreFunctionKeys(functions, byKey, f);
    hide FunctionsKeyed;
    var more := functions + [f];
    assert forall i :: 0 <= i < |functions| ==> more[i] == functions[i];
  }

  lemma {:induction false} MoreFunctionKeys(functions: seq<Function>, byKey: map<FunctionKey, nat>, f: Function)
    requires FunctionsKeyed(functions, byKey) && f.id == |functions| + 1 && MakeFunctionKey(f) !in byKey
    ensures FunctionsKeyed(functions + [f], byKey[MakeFunctionKey(f) := f.id])
  {
    hide MakeFunctionKey;
    var more := functions + [f];
    assert forall i :: 0 <= i < |functions| ==> more[i] == functions[i];
  }

  lemma {:induction false} AddedLocation(n: nat, mappings: seq<Mapping>, mappingByKey: map<MappingKey, nat>,
      functions: seq<Function>,
      functionByKey: map<FunctionKey, nat>, locations: seq<Location>, locationByKey: map<seq<nat>, nat>, l: Location)
    requires TablesOk(n, mappings, mappingByKey, functions, functionByKey, locations, locationByKey)
    requires l.id == |locations| + 1 && l.mappingId <= |mappings| && LinesInRange(l.lines, |functions|)
    requires MakeLocationKey(l, mappings) !in locationByKey
    ensures TablesOk(n, mappings, mappingByKey, functions, functionByKey, locations + [l],
                     locationByKey[MakeLocationKey(l, mappings) := l.id])
    ensures Extends(locations, locations + [l])
  {
    hide MakeLocationKey;
    var more := locations + [l];
    LocationsKeyedMore(locations, mappings, locationByKey, l);
    hide LocationsKeyed, MappingsKeyed, FunctionsKeyed, LinesInRange;
    assert forall i :: 0 <= i < |locations| ==> more[i] == locations[i];
  }

  lemma {:induction false} LocationsKeyedMore(locations: seq<Location>, mappings: seq<Mapping>,
      byKey: map<seq<nat>, nat>, l: Location)
    requires LocationsKeyed(locations, mappings, byKey) && l.mappingId <= |mappings|
    requires MakeLocationKey(l, mappings) !in byKey && l.id == |locations| + 1
    ensures LocationsKeyed(locations + [l], mappings, byKey[MakeLocationKey(l, mappings) := l.id])
  {
    hide MakeLocationKey;
  }

  lemma FoundMapping(mappings: seq<Mapping>, byKey: map<MappingKey, nat>, k: MappingKey)
    requires MappingsKeyed(mappings, byKey) && k in byKey
    ensures 1 <= byKey[k] <= |mappings| && MakeMappingKey(mappings[byKey[k] - 1]) == k
  {
  }

  lemma FoundFunction(functions: seq<Function>, byKey: map<FunctionKey, nat>, k: FunctionKey)
    requires FunctionsKeyed(functions, byKey) && k in byKey
    ensures 1 <= byKey[k] <= |functions| && MakeFunctionKey(functions[byKey[k] - 1]) == k
  {
  }

  lemma FoundLocation(locations: seq<Location>, mappings: seq<Mapping>, byKey: map<seq<nat>, nat>,
      k: seq<nat>)
    requires LocationsKeyed(locations, mappings, byKey) && k in byKey
    ensures 1 <= byKey[k] <= |locations| && locations[byKey[k] - 1].mappingId <= |mappings|
    ensures MakeLocationKey(locations[byKey[k] - 1], mappings) == k
  {
  }

  /** The lines that denote input lines point into the function table. */
  lemma {:induction false} DenotedInRange(strings: seq<string>, functions: seq<Function>, lines: seq<Line>,
      r: Record, raw: seq<Option<RawLine>>, n: nat)
    requires n <= |raw| && forall k :: 0 <= k < |raw| && raw[k].Some? ==> LineInRange(r, raw[k].value)
    requires LinesDenote(strings, functions, lines, r, raw, n)
    ensures LinesInRange(lines, |functions|)
    decreases n
  {
    if n > 0 {
      if raw[n - 1].None? || Anonymous(raw[n - 1].value) {
        DenotedInRange(strings, functions, lines, r, raw, n - 1);
      } else {
        DenotedInRange(strings, functions, lines[..|lines| - 1], r, raw, n - 1);
        var init := lines[..|lines| - 1];
        assert forall k :: 0 <= k < |init| ==> lines[k] == init[k];
      }
    }
  }

  lemma {:induction false} LinesDenoteStep(strings: seq<string>, functions: seq<Function>, lines: seq<Line>, r: Record,
      raw: seq<Option<RawLine>>, k: nat, line: Line)
    requires k < |raw| && forall j :: 0 <= j < |raw| && raw[j].Some? ==> LineInRange(r, raw[j].value)
    requires LinesDenote(strings, functions, lines, r, raw, k)
    ensures raw[k].None? || Anonymous(raw[k].value) ==> LinesDenote(strings, functions, lines, r, raw, k + 1)
    ensures raw[k].Some? && !Anonymous(raw[k].value) && LineDenotes(strings, functions, line, r, raw[k].value) ==>
      LinesDenote(strings, functions, lines + [line], r, raw, k + 1)
  {
    assert (lines + [line])[..|lines|] == lines;
  }

  lemma {:induction false} LabelsDenoteStep(strings: seq<string>, labels: seq<Label>, r: Record, row: Row, k: nat,
      l: Label)
    requires RowInRange(r, row) && k < |row.labels| && |r.labelDicts| == |r.labelNames|
      && LabelsDenote(strings, labels, r, row, k)
    ensures row.labels[k].None? ==> LabelsDenote(strings, labels, r, row, k + 1)
    ensures row.labels[k].Some? && LabelDenotes(strings, l, r.labelNames[k], r.labelDicts[k][row.labels[k].value]) ==>
      LabelsDenote(strings, labels + [l], r, row, k + 1)
  {
    assert (labels + [l])[..|labels|] == labels;
  }

  /** Labels with non-empty names have a key that is not the empty string. */
  lemma {:induction false} DenotedLabelsOk(strings: seq<string>, labels: seq<Label>, r: Record, row: Row, n: nat)
    requires RowInRange(r, row) && n <= |row.labels| && |r.labelDicts| == |r.labelNames|
    requires forall k :: 0 <= k < |r.labelNames| ==> r.labelNames[k] != ""
    requires strings != [] && strings[0] == "" && LabelsDenote(strings, labels, r, row, n)
    ensures LabelsOk(|strings|, labels)
    decreases n
  {
    if n > 0 {
      if row.labels[n - 1].None? {
        DenotedLabelsOk(strings, labels, r, row, n - 1);
      } else {
        DenotedLabelsOk(strings, labels[..|labels| - 1], r, row, n - 1);
        var init := labels[..|labels| - 1];
        assert forall k :: 0 <= k < |init| ==> labels[k] == init[k];
      }
    }
  }

  lemma {:induction false} ValidsStep<T>(s: seq<Option<T>>, k: nat)
    requires k < |s|
    ensures Valids(s[..k + 1]) == Valids(s[..k]) + (if s[k].Some? then 1 else 0)
  {
    assert s[..k + 1][..k] == s[..k];
  }

  lemma {:induction false} ValidsPositive<T>(s: seq<Option<T>>)
    ensures Valids(s) > 0 <==> exists j :: 0 <= j < |s| && s[j].Some?
  {
    if s != [] {
      var init := s[..|s| - 1];
      ValidsPositive(init);
      if j :| 0 <= j < |init| && init[j].Some? {
        assert s[j].Some?;
      }
      if j :| 0 <= j < |s| && s[j].Some? {
        assert j == |s| - 1 || init[j].Some?;
      }
    }
  }

  lemma {:induction false} WrittenStep(rows: seq<Row>, k: nat, isDiff: bool)
    requires k < |rows|
    ensures Written(rows[..k + 1], isDiff)
      == Written(rows[..k], isDiff) + (if HasLocation(rows[k]) then RowValue(rows[k], isDiff) else 0)
  {
    assert rows[..k + 1][..k] == rows[..k];
  }

  lemma IdsGrow(n: nat, n': nat, ids: seq<nat>)
    requires IdsOk(n, ids) && n <= n'
    ensures IdsOk(n', ids)
  {
  }

  lemma {:induction false} SamplesGrow(n: nat, locations: nat, locations': nat, types: nat, ss: seq<Sample>)
    requires SamplesOk(n, locations, types, ss) && locations <= locations'
    ensures SamplesOk(n, locations', types, ss)
  {
    forall i | 0 <= i < |ss| ensures IdsOk(locations', ss[i].locationIds) {
      IdsGrow(locations, locations', ss[i].locationIds);
    }
  }

  lemma AddedSample(n: nat, locations: nat, ss: seq<Sample>, s: Sample)
    requires SamplesOk(n, locations, 1, ss) && |s.values| == 1 && IdsOk(locations, s.locationIds)
      && LabelsOk(n, s.labels)
    ensures SamplesOk(n, locations, 1, ss + [s])
  {
  }

  lemma RowFacts(r: Record, row: Row, j: nat)
    requires RowInRange(r, row) && j < |row.locations| && row.locations[j].Some?
    ensures LocationInRange(r, row.locations[j].value)
  {
  }

  lemma SplitWellFormed(p: Profile, mappingByKey: map<MappingKey, nat>,
      functionByKey: map<FunctionKey, nat>, locationByKey: map<seq<nat>, nat>)
    requires WellFormed(p) && |p.sampleTypes| == 1 && p.periodType.Some?
    requires MappingsKeyed(p.mappings, mappingByKey) && FunctionsKeyed(p.functions, functionByKey)
    requires LocationsKeyed(p.locations, p.mappings, locationByKey)
    ensures TablesOk(|p.strings|, p.mappings, mappingByKey, p.functions, functionByKey, p.locations, locationByKey)
    ensures SamplesOk(|p.strings|, |p.locations|, 1, p.samples)
    ensures TypesOk(|p.strings|, p.sampleTypes) && TypesOk(|p.strings|, [p.periodType.value])
  {
  }

  lemma JoinWellFormed(p: Profile, mappingByKey: map<MappingKey, nat>,
      functionByKey: map<FunctionKey, nat>, locationByKey: map<seq<nat>, nat>)
    requires |p.sampleTypes| == 1 && p.periodType.Some? && p.strings != [] && p.strings[0] == ""
    requires TablesOk(|p.strings|, p.mappings, mappingByKey, p.functions, functionByKey, p.locations, locationByKey)
    requires SamplesOk(|p.strings|, |p.locations|, 1, p.samples)
    requires TypesOk(|p.strings|, p.sampleTypes) && TypesOk(|p.strings|, [p.periodType.value])
    ensures WellFormed(p)
    ensures MappingsKeyed(p.mappings, mappingByKey) && FunctionsKeyed(p.functions, functionByKey)
    ensures LocationsKeyed(p.locations, p.mappings, locationByKey)
  {
  }
}
