/** The full decoder, which appends to column builders, and the two partial ones. */
module LocationDecoder {
  import opened Options
  import opened Varint
  import opened LocationWire
  import opened LocationEncoder

  /** A snapshot of the column builders. */
  datatype Columns = Builders(
    mappingBuildID: seq<Option<Bytes>>, mappingFile: seq<Option<Bytes>>, mappingStart: seq<Option<Uint64>>,
    mappingLimit: seq<Option<Uint64>>, mappingOffset: seq<Option<Uint64>>, lines: seq<bool>, lineColumns: LineColumns)

  datatype LineColumns = LineBuilders(
    line: seq<bool>, lineNumber: seq<Int64>, columnNumber: seq<Uint64>, startLine: seq<Option<Int64>>,
    name: seq<Option<Bytes>>, systemName: seq<Option<Bytes>>, filename: seq<Option<Bytes>>)

  /** The columns after one location. */
  ghost function WithMapping(c: Columns, m: Option<Mapping>): Columns {
    Builders(
      c.mappingBuildID + [if m.Some? then Some(m.value.buildID) else None],
      c.mappingFile + [if m.Some? then Some(m.value.file) else None],
      c.mappingStart + [if m.Some? then Some(m.value.start) else None],
      c.mappingLimit + [if m.Some? then Some(m.value.limit) else None],
      c.mappingOffset + [if m.Some? then Some(m.value.offset) else None],
      c.lines, c.lineColumns)
  }

  function Demangled(name: Bytes, demangler: Option<Bytes -> Bytes>): Bytes {
    if demangler.Some? then demangler.value(name) else name
  }

  ghost function WithLine(c: LineColumns, l: Line, demangler: Option<Bytes -> Bytes>): LineColumns {
    LineBuilders(
      c.line + [true], c.lineNumber + [l.line], c.columnNumber + [l.column],
      c.startLine + [if l.fn.Some? then Some(l.fn.value.startLine) else None],
      c.name + [if l.fn.Some? then Some(Demangled(l.fn.value.name, demangler)) else None],
      c.systemName + [if l.fn.Some? then Some(l.fn.value.systemName) else None],
      c.filename + [if l.fn.Some? then Some(l.fn.value.filename) else None])
  }

  ghost function WithLines(c: LineColumns, lines: seq<Line>, demangler: Option<Bytes -> Bytes>): LineColumns {
    if lines == [] then c
    else WithLine(WithLines(c, lines[..|lines| - 1], demangler), lines[|lines| - 1], demangler)
  }

  ghost function WithLocation(c: Columns, l: Location, demangler: Option<Bytes -> Bytes>): Columns {
    var m := WithMapping(c, l.mapping);
    if l.lines == [] then m
    else m.(lines := m.lines + [true], lineColumns := WithLines(c.lineColumns, l.lines, demangler))
  }

  /** The old entries stay and count more follow. */
  ghost predicate Extends<T>(now: seq<T>, before: seq<T>, count: nat) {
    |now| == |before| + count && forall i :: 0 <= i < |before| ==> now[i] == before[i]
  }

  /** One entry of every line column. */
  datatype LineEntry = LineEntry(line: bool, lineNumber: Int64, columnNumber: Uint64, startLine: Option<Int64>,
      name: Option<Bytes>, systemName: Option<Bytes>, filename: Option<Bytes>)

  /** The entry shows the line as it was encoded: nulls without a function, the system name for an empty name. */
  ghost predicate Shows(e: LineEntry, w: WireLine, demangler: Option<Bytes -> Bytes>) {
    && e.line && e.lineNumber == ToInt64(w.line) && e.columnNumber == w.column
    && (w.fn.None? ==> e.startLine.None? && e.name.None? && e.systemName.None? && e.filename.None?)
    && (w.fn.Some? ==>
          var f := w.fn.value;
          var name := if f.name == [] then f.systemName else f.name;
          && e.startLine == Some(ToInt64(f.startLine))
          && e.name == Some(if demangler.None? then name else demangler.value(name))
          && e.systemName == Some(f.systemName) && e.filename == Some(f.filename))
  }

  /** All line columns were extended by count entries. */
  ghost predicate LinesExtended(now: LineColumns, before: LineColumns, count: nat) {
    && Extends(now.line, before.line, count) && Extends(now.lineNumber, before.lineNumber, count)
    && Extends(now.columnNumber, before.columnNumber, count) && Extends(now.startLine, before.startLine, count)
    && Extends(now.name, before.name, count) && Extends(now.systemName, before.systemName, count)
    && Extends(now.filename, before.filename, count)
  }

  /** The i-th of the count entries by which the line columns were extended. */
  ghost function EntryAt(now: LineColumns, before: LineColumns, count: nat, i: nat): LineEntry
    requires LinesExtended(now, before, count) && i < count
  {
    LineEntry(
      now.line[|before.line| + i], now.lineNumber[|before.lineNumber| + i],
      now.columnNumber[|before.columnNumber| + i], now.startLine[|before.startLine| + i],
      now.name[|before.name| + i], now.systemName[|before.systemName| + i], now.filename[|before.filename| + i])
  }

  /** The last entries of the line columns show the lines. */
  lemma {:induction false} LineEntries(c: LineColumns, lines: seq<WireLine>, demangler: Option<Bytes -> Bytes>)
    ensures
      var r := WithLines(c, MeaningOfLines(lines), demangler);
      && LinesExtended(r, c, |lines|)
      && forall i :: 0 <= i < |lines| ==> Shows(EntryAt(r, c, |lines|, i), lines[i], demangler)
  {
    if lines != [] {
      var k := |lines| - 1;
      LineEntries(c, lines[..k], demangler);
      AllButLast(c, lines, demangler);
      LastEntry(WithLines(c, MeaningOfLines(lines[..k]), demangler), c, k, lines[k], demangler);
      hide Shows, WithLine, WithLines, LinesExtended, EntryAt, MeaningOfLines, MeaningOfLine;
      forall i: nat | 0 <= i < |lines|
        ensures
          Shows(EntryAt(WithLines(c, MeaningOfLines(lines), demangler), c, |lines|, i), lines[i], demangler)
      {
        assert i < k ==> lines[i] == lines[..k][i];
      }
    }
  }

  lemma {:induction false} AllButLast(c: LineColumns, lines: seq<WireLine>, demangler: Option<Bytes -> Bytes>)
    requires lines != []
    ensures
      var k := |lines| - 1;
      WithLines(c, MeaningOfLines(lines), demangler)
        == WithLine(WithLines(c, MeaningOfLines(lines[..k]), demangler), MeaningOfLine(lines[k]), demangler)
  {
    hide WithLine, MeaningOfLine;
    assert MeaningOfLines(lines)[..|lines| - 1] == MeaningOfLines(lines[..|lines| - 1]);
  }

  lemma {:induction false} LastEntry(q: LineColumns, c: LineColumns, k: nat, w: WireLine,
      demangler: Option<Bytes -> Bytes>)
    requires LinesExtended(q, c, k)
    ensures
      var r := WithLine(q, MeaningOfLine(w), demangler);
      && LinesExtended(r, c, k + 1) && Shows(EntryAt(r, c, k + 1, k), w, demangler)
      && forall i :: 0 <= i < k ==> EntryAt(r, c, k + 1, i) == EntryAt(q, c, k, i)
  {
  }

  class LocationsWriter {
    var mappingBuildID: seq<Option<Bytes>>
    var mappingFile: seq<Option<Bytes>>
    var mappingStart: seq<Option<Uint64>>
    var mappingLimit: seq<Option<Uint64>>
    var mappingOffset: seq<Option<Uint64>>
    var lines: seq<bool>
    var line: seq<bool>
    var lineNumber: seq<Int64>
    var columnNumber: seq<Uint64>
    var functionStartLine: seq<Option<Int64>>
    var functionName: seq<Option<Bytes>>
    var functionSystemName: seq<Option<Bytes>>
    var functionFilename: seq<Option<Bytes>>

    ghost function LineSnapshot(): LineColumns
      reads this
    {
      LineBuilders(
        line, lineNumber, columnNumber, functionStartLine, functionName, functionSystemName, functionFilename)
    }

    ghost function Snapshot(): Columns
      reads this
    {
      Builders(
        mappingBuildID, mappingFile, mappingStart, mappingLimit, mappingOffset, lines, LineSnapshot())
    }

    constructor ()
    {
      mappingBuildID, mappingFile, mappingStart, mappingLimit, mappingOffset, lines := [], [], [], [], [], [];
      line, lineNumber, columnNumber, functionStartLine := [], [], [], [];
      functionName, functionSystemName, functionFilename := [], [], [];
    }
  }

  /** Reads the optional mapping and appends it; None when the data is too short. */
  method DecodeMapping(lw: LocationsWriter, data: Bytes, start: int) returns (r: Option<(Option<Mapping>, int)>)
    modifies lw
    ensures r == ReadOptionalMapping(data, start)
    ensures r.Some? ==> lw.Snapshot() == WithMapping(old(lw.Snapshot()), r.value.0)
  {
    hide ReadUvarint, ReadString, ReadFlag;
    var flag := ReadFlag(data, start);
    if flag.None? {
      return None;
    }
    var offset := flag.value.1;
    if flag.value.0 {
      var buildID := ReadString(data, offset);
      if buildID.None? {
        return None;
      }
      offset := buildID.value.1;
      lw.mappingBuildID := lw.mappingBuildID + [Some(buildID.value.0)];
      var filename := ReadString(data, offset);
      if filename.None? {
        return None;
      }
      offset := filename.value.1;
      lw.mappingFile := lw.mappingFile + [Some(filename.value.0)];
      var memoryStart := ReadUvarint(data, offset);
      if memoryStart.None? {
        return None;
      }
      offset := memoryStart.value.1;
      lw.mappingStart := lw.mappingStart + [Some(memoryStart.value.0)];
      var memoryLength := ReadUvarint(data, offset);
      if memoryLength.None? {
        return None;
      }
      offset := memoryLength.value.1;
      var limit := Add(memoryStart.value.0, memoryLength.value.0);
      lw.mappingLimit := lw.mappingLimit + [Some(limit)];
      var mappingOffset := ReadUvarint(data, offset);
      if mappingOffset.None? {
        return None;
      }
      offset := mappingOffset.value.1;
      lw.mappingOffset := lw.mappingOffset + [Some(mappingOffset.value.0)];
      var m := Mapping(buildID.value.0, filename.value.0, memoryStart.value.0, limit, mappingOffset.value.0);
      return Some((Some(m), offset));
    }
    lw.mappingStart := lw.mappingStart + [None];
    lw.mappingLimit := lw.mappingLimit + [None];
    lw.mappingOffset := lw.mappingOffset + [None];
    lw.mappingFile := lw.mappingFile + [None];
    lw.mappingBuildID := lw.mappingBuildID + [None];
    return Some((None, offset));
  }

  /** Reads one line and appends it. */
  method DecodeLine(lw: LocationsWriter, data: Bytes, start: int, demangler: Option<Bytes -> Bytes>)
    returns (r: Option<int>, ghost l: Line)
    modifies lw`line, lw`lineNumber, lw`columnNumber, lw`functionStartLine, lw`functionName, lw`functionSystemName,
             lw`functionFilename
    ensures r.Some? <==> ReadLine(data, start).Some?
    ensures r.Some? ==> ReadLine(data, start) == Some((l, r.value))
    ensures r.Some? ==> lw.LineSnapshot() == WithLine(old(lw.LineSnapshot()), l, demangler)
  {
    hide ReadUvarint, ReadString, ReadFlag;
    l := Line(0, 0, None);
    lw.line := lw.line + [true];
    var line := ReadUvarint(data, start);
    if line.None? {
      return None, l;
    }
    var offset := line.value.1;
    lw.lineNumber := lw.lineNumber + [ToInt64(line.value.0)];
    var column := ReadUvarint(data, offset);
    if column.None? {
      return None, l;
    }
    offset := column.value.1;
    lw.columnNumber := lw.columnNumber + [column.value.0];
    var hasFunction := ReadFlag(data, offset);
    if hasFunction.None? {
      return None, l;
    }
    offset := hasFunction.value.1;
    if !hasFunction.value.0 {
      lw.functionStartLine := lw.functionStartLine + [None];
      lw.functionName := lw.functionName + [None];
      lw.functionSystemName := lw.functionSystemName + [None];
      lw.functionFilename := lw.functionFilename + [None];
      l := Line(ToInt64(line.value.0), column.value.0, None);
      return Some(offset), l;
    }
    var fn := DecodeFunction(lw, data, offset, demangler);
    if fn.None? {
      return None, l;
    }
    l := Line(ToInt64(line.value.0), column.value.0, Some(fn.value.0));
    return Some(fn.value.1), l;
  }

  method DecodeFunction(lw: LocationsWriter, data: Bytes, start: int, demangler: Option<Bytes -> Bytes>)
    returns (r: Option<(Function, int)>)
    modifies lw`functionStartLine, lw`functionName, lw`functionSystemName, lw`functionFilename
    ensures r == ReadFunction(data, start)
    ensures r.Some? ==>
      && lw.functionStartLine == old(lw.functionStartLine) + [Some(r.value.0.startLine)]
      && lw.functionName == old(lw.functionName) + [Some(Demangled(r.value.0.name, demangler))]
      && lw.functionSystemName == old(lw.functionSystemName) + [Some(r.value.0.systemName)]
      && lw.functionFilename == old(lw.functionFilename) + [Some(r.value.0.filename)]
  {
    hide ReadUvarint, ReadString;
    var startLine := ReadUvarint(data, start);
    if startLine.None? {
      return None;
    }
    var offset := startLine.value.1;
    lw.functionStartLine := lw.functionStartLine + [Some(ToInt64(startLine.value.0))];
    var readName := ReadString(data, offset);
    if readName.None? {
      return None;
    }
    offset := readName.value.1;
    var readSystemName := ReadString(data, offset);
    if readSystemName.None? {
      return None;
    }
    offset := readSystemName.value.1;
    var name, systemName := readName.value.0, readSystemName.value.0;
    // Data written before the name was populated only carries the system name.
    if |name| == 0 {
      name := systemName;
    }
    lw.functionName := lw.functionName + [Some(Demangled(name, demangler))];
    lw.functionSystemName := lw.functionSystemName + [Some(systemName)];
    var filename := ReadString(data, offset);
    if filename.None? {
      return None;
    }
    lw.functionFilename := lw.functionFilename + [Some(filename.value.0)];
    return Some((Function(ToInt64(startLine.value.0), name, systemName, filename.value.0), filename.value.1));
  }

  datatype DecodeResult = DecodeResult(wroteLines: bool, buildID: Bytes, addr: Uint64, start: Uint64, end: Uint64,
      offset: Uint64)

  /** What the full decoder returns: the address and mapping only when there are no lines. */
  function ResultOf(l: Location): DecodeResult {
    if l.lines != [] then DecodeResult(true, [], 0, 0, 0, 0)
    else if l.mapping.None? then DecodeResult(false, [], l.address, 0, 0, 0)
    else
      var m := l.mapping.value;
      DecodeResult(false, m.buildID, l.address, m.start, m.limit, m.offset)
  }

  ghost function Prepend(done: seq<Line>, r: Option<(seq<Line>, int)>): Option<(seq<Line>, int)> {
    if r.None? then None else Some((done + r.value.0, r.value.1))
  }

  /** The remaining lines after the next one. */
  lemma {:induction false} PrependStep(data: Bytes, offset: int, done: seq<Line>, count: nat)
    requires count > 0
    ensures ReadLine(data, offset).None? ==> Prepend(done, ReadLines(data, offset, count)) == None
    ensures ReadLine(data, offset).Some? ==>
      Prepend(done, ReadLines(data, offset, count))
      == Prepend(done + [ReadLine(data, offset).value.0], ReadLines(data, ReadLine(data, offset).value.1, count - 1))
  {
    hide ReadLine;
    if ReadLine(data, offset).Some? {
      var l := ReadLine(data, offset).value;
      var rest := ReadLines(data, l.1, count - 1);
      if rest.Some? {
        assert done + ([l.0] + rest.value.0) == done + [l.0] + rest.value.0;
      }
    }
  }

  /** Appends the lines that follow. */
  method DecodeLines(lw: LocationsWriter, data: Bytes, start: int, count: nat, demangler: Option<Bytes -> Bytes>)
    returns (ok: bool, ghost lines: seq<Line>)
    modifies lw`line, lw`lineNumber, lw`columnNumber, lw`functionStartLine, lw`functionName, lw`functionSystemName,
             lw`functionFilename
    ensures ok <==> ReadLines(data, start, count).Some?
    ensures ok ==> lines == ReadLines(data, start, count).value.0
    ensures ok ==> lw.LineSnapshot() == WithLines(old(lw.LineSnapshot()), lines, demangler)
  {
    var offset := start;
    lines := [];
    PrependNothing(ReadLines(data, start, count));
    hide ReadLine, WithLine;
    for i := 0 to count
      invariant |lines| == i
      invariant ReadLines(data, start, count) == Prepend(lines, ReadLines(data, offset, count - i))
      invariant lw.LineSnapshot() == WithLines(old(lw.LineSnapshot()), lines, demangler)
    {
      PrependStep(data, offset, lines, count - i);
      var end, l := DecodeLine(lw, data, offset, demangler);
      if end.None? {
        return false, lines;
      }
      assert (lines + [l])[..i] == lines;
      lines := lines + [l];
      offset := end.value;
    }
    return true, lines;
  }

  lemma {:induction false} PrependNothing(r: Option<(seq<Line>, int)>)
    ensures Prepend([], r) == r
  {
    if r.Some? {
      assert [] + r.value.0 == r.value.0;
    }
  }

  method DecodeInto(lw: LocationsWriter, data: Bytes,
      demangler: Option<Bytes -> Bytes>) returns (r: Option<DecodeResult>)
    modifies lw
    ensures r.Some? <==> ReadLocation(data).Some?
    ensures r.Some? ==> r.value == ResultOf(ReadLocation(data).value.0)
    ensures r.Some? ==> lw.Snapshot() == WithLocation(old(lw.Snapshot()), ReadLocation(data).value.0, demangler)
  {
    hide ReadUvarint, ReadOptionalMapping, ReadLines, WithLines;
    var addr := ReadUvarint(data, 0);
    if addr.None? {
      return None;
    }
    var lineNumber := ReadUvarint(data, addr.value.1);
    if lineNumber.None? {
      return None;
    }
    var m := DecodeMapping(lw, data, lineNumber.value.1);
    if m.None? {
      return None;
    }
    var n := lineNumber.value.0 as int;
    LineCount(data, m.value.1, n);
    if n > 0 {
      lw.lines := lw.lines + [true];
      var ok, lines := DecodeLines(lw, data, m.value.1, n, demangler);
      if !ok {
        return None;
      }
      return Some(DecodeResult(true, [], 0, 0, 0, 0));
    }
    var buildID, start, end, mappingOffset := [], 0, 0, 0;
    if m.value.0.Some? {
      var w := m.value.0.value;
      buildID, start, end, mappingOffset := w.buildID, w.start, w.limit, w.offset;
    }
    return Some(DecodeResult(false, buildID, addr.value.0, start, end, mappingOffset));
  }

  lemma {:induction false} LineCount(data: Bytes, offset: int, count: nat)
    ensures ReadLines(data, offset, count).Some? ==> |ReadLines(data, offset, count).value.0| == count
    ensures count == 0 ==> ReadLines(data, offset, count) == Some(([], offset))
    decreases count
  {
    if count > 0 && ReadLine(data, offset).Some? {
      LineCount(data, ReadLine(data, offset).value.1, count - 1);
    }
  }

  /** One entry follows in the column. */
  ghost predicate OneMore<T>(now: seq<T>, before: seq<T>, entry: T) {
    now == before + [entry]
  }

  /** The columns were extended by a mapping as it was encoded, its limit computed from its length. */
  ghost predicate MappingShown(now: Columns, before: Columns, m: Option<WireMapping>) {
    && OneMore(now.mappingBuildID, before.mappingBuildID, if m.None? then None else Some(m.value.buildID))
    && OneMore(now.mappingFile, before.mappingFile, if m.None? then None else Some(m.value.file))
    && OneMore(now.mappingStart, before.mappingStart, if m.None? then None else Some(m.value.start))
    && OneMore(now.mappingOffset, before.mappingOffset, if m.None? then None else Some(m.value.offset))
    && OneMore(now.mappingLimit, before.mappingLimit,
               if m.None? then None
               else Some(((m.value.start as int + m.value.length as int) % 0x1_0000_0000_0000_0000) as Uint64))
  }

  /** The line columns were extended by the lines as they were encoded. */
  ghost predicate LinesShown(now: LineColumns, before: LineColumns, lines: seq<WireLine>,
      demangler: Option<Bytes -> Bytes>)
  {
    && LinesExtended(now, before, |lines|)
    && forall i :: 0 <= i < |lines| ==> Shows(EntryAt(now, before, |lines|, i), lines[i], demangler)
  }

  /** The address and the mapping are answered for a location without lines only. */
  ghost predicate Answers(r: DecodeResult, l: WireLocation) {
    && (r.wroteLines <==> l.lines != [])
    && (l.lines != [] ==> r.buildID == [] && r.addr == r.start == r.end == r.offset == 0)
    && (l.lines == [] ==> r.addr == l.address)
    && (l.lines == [] && l.mapping.None? ==> r.buildID == [] && r.start == r.end == r.offset == 0)
    && (l.lines == [] && l.mapping.Some? ==>
          var m := l.mapping.value;
          && r.buildID == m.buildID && r.start == m.start && r.offset == m.offset
          && r.end as int == (m.start as int + m.length as int) % 0x1_0000_0000_0000_0000)
  }

  /** The columns after a location show it. */
  lemma {:induction false} WithLocationShows(c: Columns, l: WireLocation, demangler: Option<Bytes -> Bytes>)
    ensures
      var r := WithLocation(c, Meaning(l), demangler);
      && MappingShown(r, c, l.mapping) && LinesShown(r.lineColumns, c.lineColumns, l.lines, demangler)
      && r.lines == c.lines + (if l.lines == [] then [] else [true])
    ensures Answers(ResultOf(Meaning(l)), l)
  {
    LineEntries(c.lineColumns, l.lines, demangler);
    hide WithLines, Shows, EntryAt;
    assert l.lines == [] ==> WithLines(c.lineColumns, MeaningOfLines(l.lines), demangler) == c.lineColumns by {
      NoLines(c.lineColumns, demangler);
    }
  }

  lemma NoLines(c: LineColumns, demangler: Option<Bytes -> Bytes>)
    ensures WithLines(c, [], demangler) == c
  {
  }

  /**
   What the full decoder leaves in the columns for an encoded location: one entry in each mapping column
   and as many in each line column as the location has lines, all of them the fields that were encoded.
   */
  method DecodeEncoded(lw: LocationsWriter, l: WireLocation, demangler: Option<Bytes -> Bytes>)
    returns (r: DecodeResult)
    requires Encodable(l)
    modifies lw
    ensures
      var lines := LineBuilders(
        line := lw.line, lineNumber := lw.lineNumber, columnNumber := lw.columnNumber,
        startLine := lw.functionStartLine, name := lw.functionName, systemName := lw.functionSystemName,
        filename := lw.functionFilename);
      var linesBefore := old(LineBuilders(
        line := lw.line, lineNumber := lw.lineNumber, columnNumber := lw.columnNumber,
        startLine := lw.functionStartLine, name := lw.functionName, systemName := lw.functionSystemName,
        filename := lw.functionFilename));
      && LinesShown(lines, linesBefore, l.lines, demangler)
      && MappingShown(
           Builders(
             mappingBuildID := lw.mappingBuildID, mappingFile := lw.mappingFile, mappingStart := lw.mappingStart,
             mappingLimit := lw.mappingLimit, mappingOffset := lw.mappingOffset, lines := lw.lines,
             lineColumns := lines),
           old(Builders(
             mappingBuildID := lw.mappingBuildID, mappingFile := lw.mappingFile, mappingStart := lw.mappingStart,
             mappingLimit := lw.mappingLimit, mappingOffset := lw.mappingOffset, lines := lw.lines,
             lineColumns := linesBefore)),
           l.mapping)
    ensures lw.lines == old(lw.lines) + (if l.lines == [] then [] else [true])
    ensures Answers(r, l)
  {
    LocationRoundTrip(l);
    WithLocationShows(lw.Snapshot(), l, demangler);
    hide LocationBytes, ReadLocation, WithLocation, Encode, LinesShown, MappingShown, Answers, ResultOf, Meaning;
    var decoded := DecodeInto(lw, LocationBytes(l), demangler);
    r := decoded.value;
  }

  // The partial decoders

  datatype SymbolizationInfo = SymbolizationInfo(addr: Uint64, mapping: Option<Mapping>)

  /**
   The decoder of what the symbolizer needs. Without a mapping the decoder returns zero values, shown
   here as no mapping.
   */
  method DecodeSymbolizationInfo(data: Bytes) returns (r: Option<(SymbolizationInfo, Uint64)>)
    ensures r.Some? <==> ReadHeader(data).Some?
    ensures r.Some? ==>
      r.value == (SymbolizationInfo(ReadHeader(data).value.address, ReadHeader(data).value.mapping),
        ReadHeader(data).value.count)
  {
    hide ReadUvarint, ReadString, ReadFlag;
    var addr := ReadUvarint(data, 0);
    if addr.None? {
      return None;
    }
    var numberOfLines := ReadUvarint(data, addr.value.1);
    if numberOfLines.None? {
      return None;
    }
    var hasMapping := ReadFlag(data, numberOfLines.value.1);
    if hasMapping.None? {
      return None;
    }
    if !hasMapping.value.0 {
      return Some((SymbolizationInfo(addr.value.0, None), numberOfLines.value.0));
    }
    var buildID := ReadString(data, hasMapping.value.1);
    if buildID.None? {
      return None;
    }
    var file := ReadString(data, buildID.value.1);
    if file.None? {
      return None;
    }
    var memoryStart := ReadUvarint(data, file.value.1);
    if memoryStart.None? {
      return None;
    }
    var memoryLength := ReadUvarint(data, memoryStart.value.1);
    if memoryLength.None? {
      return None;
    }
    var mappingOffset := ReadUvarint(data, memoryLength.value.1);
    if mappingOffset.None? {
      return None;
    }
    var m := Mapping(buildID.value.0, file.value.0, memoryStart.value.0,
                     Add(memoryStart.value.0, memoryLength.value.0), mappingOffset.value.0);
    return Some((SymbolizationInfo(addr.value.0, Some(m)), numberOfLines.value.0));
  }

  /** The name of the first line that has a function, or empty. */
  function FirstName(lines: seq<Line>): Bytes {
    if lines == [] then []
    else if lines[0].fn.Some? then lines[0].fn.value.name
    else FirstName(lines[1..])
  }

  /** The start of the line's reading shared by both decoders. */
  lemma {:induction false} LineStart(data: Bytes, offset: int)
    requires ReadLine(data, offset).Some?
    ensures ReadUvarint(data, offset).Some?
    ensures ReadUvarint(data, ReadUvarint(data, offset).value.1).Some?
    ensures
      var column := ReadUvarint(data, ReadUvarint(data, offset).value.1).value;
      var flag := ReadFlag(data, column.1);
      && flag.Some?
      && (ReadLine(data, offset).value.0.fn.Some? <==> flag.value.0)
      && (!flag.value.0 ==> ReadLine(data, offset).value.1 == flag.value.1)
      && (flag.value.0 ==>
            && ReadFunction(data, flag.value.1).Some?
            && ReadLine(data, offset).value.0.fn == Some(ReadFunction(data, flag.value.1).value.0))
  {
    hide ReadUvarint, ReadFlag, ReadFunction;
  }

  /** The flag behind the line and column of a line: whether it has a function. */
  function FlagOfLine(data: Bytes, offset: int): Option<(bool, int)> {
    var line := ReadUvarint(data, offset);
    if line.None? then None else
    var column := ReadUvarint(data, line.value.1);
    if column.None? then None else
    ReadFlag(data, column.value.1)
  }

  /** The name of a function, or its system name; what follows is not read. */
  function NameAt(data: Bytes, offset: int): Option<Bytes> {
    var startLine := ReadUvarint(data, offset);
    if startLine.None? then None else
    var name := ReadString(data, startLine.value.1);
    if name.None? then None else
    if name.value.0 != [] then Some(name.value.0) else
    var systemName := ReadString(data, name.value.1);
    if systemName.None? then None else Some(systemName.value.0)
  }

  /** The name in the first of the lines that has a function; the lines behind it are not read. */
  function NameFrom(data: Bytes, offset: int, count: nat): Option<Bytes>
    decreases count
  {
    if count == 0 then Some([])
    else
      var flag := FlagOfLine(data, offset);
      if flag.None? then None
      else if flag.value.0 then NameAt(data, flag.value.1)
      else NameFrom(data, flag.value.1, count - 1)
  }

  function ReadFunctionName(data: Bytes): Option<Bytes> {
    var h := ReadHeader(data);
    if h.None? then None else NameFrom(data, h.value.end, h.value.count as int)
  }

  /** Finds the first name, for any bytes, and fails only on those read up to it. */
  method DecodeFunctionName(data: Bytes) returns (r: Option<Bytes>)
    ensures r == ReadFunctionName(data)
  {
    hide ReadUvarint, ReadFlag, ReadString, ReadOptionalMapping, ReadLine;
    var addr := ReadUvarint(data, 0);
    if addr.None? {
      return None;
    }
    var lineNumber := ReadUvarint(data, addr.value.1);
    if lineNumber.None? {
      return None;
    }
    var m := ReadOptionalMapping(data, lineNumber.value.1);
    if m.None? {
      return None;
    }
    r := NameInLines(data, m.value.1, lineNumber.value.0 as int);
  }

  method NameInLines(data: Bytes, start: int, count: nat) returns (r: Option<Bytes>)
    ensures r == NameFrom(data, start, count)
  {
    var offset := start;
    hide ReadUvarint, ReadFlag, NameAt;
    for i := 0 to count
      invariant NameFrom(data, offset, count - i) == NameFrom(data, start, count)
    {
      var line := ReadUvarint(data, offset);
      if line.None? {
        return None;
      }
      var column := ReadUvarint(data, line.value.1);
      if column.None? {
        return None;
      }
      var hasFunction := ReadFlag(data, column.value.1);
      if hasFunction.None? {
        return None;
      }
      offset := hasFunction.value.1;
      if hasFunction.value.0 {
        r := NameOfFunction(data, offset);
        return;
      }
    }
    return Some([]);
  }

  method NameOfFunction(data: Bytes, offset: int) returns (r: Option<Bytes>)
    ensures r == NameAt(data, offset)
  {
    hide ReadUvarint, ReadString;
    var startLine := ReadUvarint(data, offset);
    if startLine.None? {
      return None;
    }
    var name := ReadString(data, startLine.value.1);
    if name.None? {
      return None;
    }
    if |name.value.0| == 0 {
      var systemName := ReadString(data, name.value.1);
      return if systemName.None? then None else Some(systemName.value.0);
    }
    return Some(name.value.0);
  }

  lemma {:induction false} NameOfReadLines(data: Bytes, offset: int, count: nat)
    requires ReadLines(data, offset, count).Some?
    ensures NameFrom(data, offset, count) == Some(FirstName(ReadLines(data, offset, count).value.0))
    decreases count
  {
    hide ReadUvarint, ReadFlag, ReadString, ReadLine;
    if count > 0 {
      NextLine(data, offset, count);
      var flag := FlagOfLine(data, offset).value;
      if !flag.0 {
        NameOfReadLines(data, flag.1, count - 1);
      }
    }
  }

  /** Where the full decoder accepts, this one finds the name of its first line that has a function. */
  lemma {:induction false} FunctionNameAgrees(data: Bytes)
    requires ReadLocation(data).Some?
    ensures ReadFunctionName(data) == Some(FirstName(ReadLocation(data).value.0.lines))
  {
    hide ReadHeader, ReadLines, NameFrom, FirstName;
    var h := ReadHeader(data).value;
    NameOfReadLines(data, h.end, h.count as int);
  }

  lemma {:induction false} NextLine(data: Bytes, offset: int, count: nat)
    requires count > 0 && ReadLines(data, offset, count).Some?
    ensures ReadLine(data, offset).Some? && ReadUvarint(data, offset).Some?
    ensures ReadUvarint(data, ReadUvarint(data, offset).value.1).Some?
    ensures
      var lines := ReadLines(data, offset, count).value.0;
      var column := ReadUvarint(data, ReadUvarint(data, offset).value.1).value;
      var flag := ReadFlag(data, column.1);
      && flag.Some?
      && (flag.value.0 ==>
            && ReadFunction(data, flag.value.1).Some?
            && FirstName(lines) == ReadFunction(data, flag.value.1).value.0.name)
      && (!flag.value.0 ==>
            && ReadLines(data, flag.value.1, count - 1).Some?
            && FirstName(lines) == FirstName(ReadLines(data, flag.value.1, count - 1).value.0))
  {
    hide ReadUvarint, ReadFlag, ReadFunction, ReadLine;
    LineStart(data, offset);
    var lines := ReadLines(data, offset, count).value.0;
    var rest := ReadLines(data, ReadLine(data, offset).value.1, count - 1).value.0;
    assert lines[1..] == rest;
  }

  /** On every encoded location the partial decoders agree with the full one. */
  method PartialDecoders(l: WireLocation) returns (info: Option<(SymbolizationInfo, Uint64)>, name: Option<Bytes>)
    requires Encodable(l)
    ensures info == Some((SymbolizationInfo(l.address, Meaning(l).mapping), |l.lines| as Uint64))
    ensures name == Some(FirstName(Meaning(l).lines))
  {
    LocationRoundTrip(l);
    var data := LocationBytes(l);
    assert data[0..|data|] == data;
    ReadsHeader(data, l);
    hide LocationBytes, ReadLocation, ReadHeader, Meaning;
    info := DecodeSymbolizationInfo(data);
    name := DecodeFunctionName(data);
    hide ReadFunctionName;
    FunctionNameAgrees(data);
  }
}
