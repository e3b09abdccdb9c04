/** The two location encoders: they compute the size, allocate the buffer and fill it by offset. */
module LocationEncoder {
  import opened Options
  import opened Varint
  import opened LocationWire

  datatype PprofLine = PprofLine(line: Int64, functionId: Uint64)
  datatype PprofLocation = PprofLocation(address: Uint64, lines: seq<PprofLine>)
  datatype PprofMapping = PprofMapping(buildId: Int64, filename: Int64, memoryStart: Uint64, memoryLimit: Uint64,
      fileOffset: Uint64)
  datatype PprofFunction = PprofFunction(startLine: Int64, name: Int64, systemName: Int64, filename: Int64)

  /** The string and function tables of a pprof profile. */
  datatype Tables = Tables(strings: seq<Text>, funcs: seq<PprofFunction>)

  predicate ValidString(t: Tables, idx: Int64) {
    idx == 0 || 0 < idx as int < |t.strings|
  }

  predicate ValidMapping(t: Tables, m: PprofMapping) {
    ValidString(t, m.buildId) && ValidString(t, m.filename)
  }

  predicate ValidFunction(t: Tables, f: PprofFunction) {
    ValidString(t, f.name) && ValidString(t, f.systemName) && ValidString(t, f.filename)
  }

  predicate ValidLine(t: Tables, l: PprofLine) {
    l.functionId != 0 ==> (l.functionId as int) <= |t.funcs| && ValidFunction(t, t.funcs[l.functionId as int - 1])
  }

  ghost predicate ValidLocation(t: Tables, l: PprofLocation, m: Option<PprofMapping>) {
    && |l.lines| < 0x8000_0000_0000_0000
    && (m.Some? ==> ValidMapping(t, m.value))
    && forall i :: 0 <= i < |l.lines| ==> ValidLine(t, l.lines[i])
  }

  function StringOf(t: Tables, idx: Int64): Text
    requires ValidString(t, idx)
  {
    if idx != 0 then t.strings[idx as int] else []
  }

  function MappingOf(t: Tables, m: Option<PprofMapping>): Option<WireMapping>
    requires m.Some? ==> ValidMapping(t, m.value)
  {
    match m
    case None => None
    case Some(m) =>
      Some(WireMapping(StringOf(t, m.buildId), StringOf(t, m.filename), m.memoryStart,
                       Sub(m.memoryLimit, m.memoryStart), m.fileOffset))
  }

  function LineOf(t: Tables, l: PprofLine): WireLine
    requires ValidLine(t, l)
  {
    if l.functionId == 0 then WireLine(ToUint64(l.line), 0, None)
    else
      var f := t.funcs[l.functionId as int - 1];
      WireLine(ToUint64(l.line), 0, Some(WireFunction(
        ToUint64(f.startLine), StringOf(t, f.name), StringOf(t, f.systemName), StringOf(t, f.filename))))
  }

  function LinesOf(t: Tables, lines: seq<PprofLine>): (r: seq<WireLine>)
    requires forall i :: 0 <= i < |lines| ==> ValidLine(t, lines[i])
    ensures |r| == |lines| && forall i :: 0 <= i < |lines| ==> r[i] == LineOf(t, lines[i])
  {
    if lines == [] then [] else [LineOf(t, lines[0])] + LinesOf(t, lines[1..])
  }

  /** The location a pprof location stands for. */
  function PprofWire(t: Tables, l: PprofLocation, m: Option<PprofMapping>): WireLocation
    requires ValidLocation(t, l, m)
  {
    WireLocation(l.address, MappingOf(t, m), LinesOf(t, l.lines))
  }

  // Sizes

  function SizeOfString(s: Text): (n: int)
    ensures n == |StringBytes(s)|
  {
    SizeIsExact(|s| as Uint64);
    UvarintSize(|s| as Uint64) + |s|
  }

  method AddMappingSize(size: int, m: Option<WireMapping>) returns (r: int)
    ensures r == size + |MappingBytes(m)|
  {
    r := size + 1;
    if m.Some? {
      var w := m.value;
      SizeIsExact(w.start);
      SizeIsExact(w.length);
      SizeIsExact(w.offset);
      hide UvarintSize, Encode, StringBytes, SizeOfString;
      r := r + SizeOfString(w.buildID);
      r := r + SizeOfString(w.file);
      r := r + UvarintSize(w.start);
      r := r + UvarintSize(w.length);
      r := r + UvarintSize(w.offset);
    }
  }

  method AddLineSize(size: int, l: WireLine) returns (r: int)
    ensures r == size + |LineBytes(l)|
  {
    SizeIsExact(l.line);
    SizeIsExact(l.column);
    hide UvarintSize, Encode, StringBytes, SizeOfString;
    r := size + UvarintSize(l.line);
    r := r + UvarintSize(l.column);
    r := r + 1;
    if l.fn.Some? {
      var f := l.fn.value;
      SizeIsExact(f.startLine);
      r := r + UvarintSize(f.startLine);
      r := r + SizeOfString(f.name);
      r := r + SizeOfString(f.systemName);
      r := r + SizeOfString(f.filename);
    }
  }

  lemma {:induction false} LinesSnoc(lines: seq<WireLine>, l: WireLine)
    ensures LinesBytes(lines + [l]) == LinesBytes(lines) + LineBytes(l)
  {
    hide LineBytes;
    if lines == [] {
      assert [l][1..] == [];
    } else {
      LinesSnoc(lines[1..], l);
      assert (lines + [l])[1..] == lines[1..] + [l];
      Assoc(LineBytes(lines[0]), LinesBytes(lines[1..]), LineBytes(l));
    }
  }

  lemma {:induction false} LinesUpTo(lines: seq<WireLine>, i: int)
    requires 0 <= i < |lines|
    ensures LinesBytes(lines[..i + 1]) == LinesBytes(lines[..i]) + LineBytes(lines[i])
  {
    assert lines[..i + 1] == lines[..i] + [lines[i]];
    LinesSnoc(lines[..i], lines[i]);
  }

  ghost function SizeUpTo(lines: seq<WireLine>, i: int): int
    requires 0 <= i <= |lines|
  {
    |LinesBytes(lines[..i])|
  }

  lemma {:induction false} SizeStep(lines: seq<WireLine>, i: int)
    requires 0 <= i < |lines|
    ensures SizeUpTo(lines, i + 1) == SizeUpTo(lines, i) + |LineBytes(lines[i])|
  {
    LinesUpTo(lines, i);
  }

  lemma {:induction false} SizeEnds(lines: seq<WireLine>)
    ensures SizeUpTo(lines, 0) == 0 && SizeUpTo(lines, |lines|) == |LinesBytes(lines)|
  {
    assert lines[..|lines|] == lines;
  }

  lemma {:induction false} LinesFit(lines: seq<WireLine>, i: int)
    requires 0 <= i <= |lines|
    ensures |LinesBytes(lines[..i])| <= |LinesBytes(lines)|
    decreases |lines| - i
  {
    if i < |lines| {
      LinesUpTo(lines, i);
      LinesFit(lines, i + 1);
    } else {
      assert lines[..i] == lines;
    }
  }

  // Writing

  /** The library's PutUvarint on the buffer from the offset on. */
  method PutUvarint(buf: array<Byte>, offset: int, x: Uint64) returns (n: int)
    requires 0 <= offset && offset + |Encode(x)| <= buf.Length
    modifies buf
    ensures n == |Encode(x)| && buf[..offset + n] == old(buf[..offset]) + Encode(x)
    ensures forall i :: offset + n <= i < buf.Length ==> buf[i] == old(buf[i])
  {
    var rest := x;
    n := 0;
    ghost var before := buf[..offset];
    while rest >= 0x80
      invariant 0 <= n && offset + n + |Encode(rest)| == offset + |Encode(x)| <= buf.Length
      invariant buf[..offset + n] + Encode(rest) == before + Encode(x)
      invariant forall i :: offset + n <= i < buf.Length ==> buf[i] == old(buf[i])
      decreases rest as int
    {
      ghost var written := buf[..offset + n];
      buf[offset + n] := (rest as int % 0x80 + 0x80) as Byte;
      assert buf[..offset + n + 1] == written + [(rest as int % 0x80 + 0x80) as Byte];
      rest := rest / 0x80;
      n := n + 1;
    }
    ghost var written := buf[..offset + n];
    buf[offset + n] := rest as int as Byte;
    n := n + 1;
    assert buf[..offset + n] == written + [rest as int as Byte];
  }

  method WriteUint64(buf: array<Byte>, offset: int, x: Uint64) returns (end: int)
    requires 0 <= offset && offset + |Encode(x)| <= buf.Length
    modifies buf
    ensures end == offset + |Encode(x)| && buf[..end] == old(buf[..offset]) + Encode(x)
    ensures forall i :: end <= i < buf.Length ==> buf[i] == old(buf[i])
  {
    var n := PutUvarint(buf, offset, x);
    end := offset + n;
  }

  method WriteFlag(buf: array<Byte>, offset: int, flag: Byte) returns (end: int)
    requires 0 <= offset && offset + 1 <= buf.Length
    modifies buf
    ensures end == offset + 1 && buf[..end] == old(buf[..offset]) + [flag]
    ensures forall i :: end <= i < buf.Length ==> buf[i] == old(buf[i])
  {
    buf[offset] := flag;
    end := offset + 1;
  }

  method WriteString(buf: array<Byte>, offset: int, s: Text) returns (end: int)
    requires 0 <= offset && offset + |StringBytes(s)| <= buf.Length
    modifies buf
    ensures end == offset + |StringBytes(s)| && buf[..end] == old(buf[..offset]) + StringBytes(s)
    ensures forall i :: end <= i < buf.Length ==> buf[i] == old(buf[i])
  {
    var n := PutUvarint(buf, offset, |s| as Uint64);
    end := offset + n;
    ghost var written := buf[..end];
    forall i | 0 <= i < |s| {
      buf[end + i] := s[i];
    }
    assert buf[..end + |s|] == written + s;
    end := end + |s|;
  }

  lemma Assoc(a: Bytes, b: Bytes, c: Bytes)
    ensures (a + b) + c == a + (b + c)
  {
  }

  lemma {:induction false} Nest4(z: Bytes, a: Bytes, b: Bytes, c: Bytes, d: Bytes)
    ensures (((z + a) + b) + c) + d == z + (a + (b + (c + d)))
  {
    Assoc((z + a) + b, c, d);
    Assoc(z + a, b, c + d);
    Assoc(z, a, b + (c + d));
  }

  lemma {:induction false} Nest6(z: Bytes, a: Bytes, b: Bytes, c: Bytes, d: Bytes, e: Bytes, f: Bytes)
    ensures (((((z + a) + b) + c) + d) + e) + f == z + (a + (b + (c + (d + (e + f)))))
  {
    Assoc((((z + a) + b) + c) + d, e, f);
    Assoc(((z + a) + b) + c, d, e + f);
    Nest4(z, a, b, c, d + (e + f));
  }

  method WriteMapping(buf: array<Byte>, offset: int, m: Option<WireMapping>) returns (end: int)
    requires 0 <= offset && offset + |MappingBytes(m)| <= buf.Length
    modifies buf
    ensures end == offset + |MappingBytes(m)| && buf[..end] == old(buf[..offset]) + MappingBytes(m)
    ensures forall i :: end <= i < buf.Length ==> buf[i] == old(buf[i])
  {
    hide Encode, StringBytes;
    if m.None? {
      end := WriteFlag(buf, offset, 0);
    } else {
      var w := m.value;
      end := WriteFlag(buf, offset, 1);
      end := WriteString(buf, end, w.buildID);
      end := WriteString(buf, end, w.file);
      end := WriteUint64(buf, end, w.start);
      end := WriteUint64(buf, end, w.length);
      end := WriteUint64(buf, end, w.offset);
      Nest6(old(buf[..offset]), [1], StringBytes(w.buildID), StringBytes(w.file),
            Encode(w.start), Encode(w.length), Encode(w.offset));
    }
  }

  method WriteFunction(buf: array<Byte>, offset: int, fn: Option<WireFunction>) returns (end: int)
    requires 0 <= offset && offset + |FunctionBytes(fn)| <= buf.Length
    modifies buf
    ensures end == offset + |FunctionBytes(fn)| && buf[..end] == old(buf[..offset]) + FunctionBytes(fn)
    ensures forall i :: end <= i < buf.Length ==> buf[i] == old(buf[i])
  {
    hide Encode, StringBytes;
    if fn.Some? {
      var f := fn.value;
      end := WriteFlag(buf, offset, 1);
      end := WriteUint64(buf, end, f.startLine);
      end := WriteString(buf, end, f.name);
      end := WriteString(buf, end, f.systemName);
      end := WriteString(buf, end, f.filename);
      Assoc(old(buf[..offset]), [1], Encode(f.startLine));
      Nest4(old(buf[..offset]) + [1], Encode(f.startLine), StringBytes(f.name), StringBytes(f.systemName),
        StringBytes(f.filename));
      Assoc(old(buf[..offset]), [1],
            Encode(f.startLine) + (StringBytes(f.name) + (StringBytes(f.systemName) + StringBytes(f.filename))));
    } else {
      end := WriteFlag(buf, offset, 0);
    }
  }

  method WriteLine(buf: array<Byte>, offset: int, l: WireLine) returns (end: int)
    requires 0 <= offset && offset + |LineBytes(l)| <= buf.Length
    modifies buf
    ensures end == offset + |LineBytes(l)| && buf[..end] == old(buf[..offset]) + LineBytes(l)
    ensures forall i :: end <= i < buf.Length ==> buf[i] == old(buf[i])
  {
    hide Encode, FunctionBytes;
    end := WriteUint64(buf, offset, l.line);
    end := WriteUint64(buf, end, l.column);
    end := WriteFunction(buf, end, l.fn);
    Assoc(old(buf[..offset]) + Encode(l.line), Encode(l.column), FunctionBytes(l.fn));
    Assoc(old(buf[..offset]), Encode(l.line), Encode(l.column) + FunctionBytes(l.fn));
  }

  // The pprof encoder

  method SerializedPprofLocationSize(t: Tables, l: PprofLocation, m: Option<PprofMapping>) returns (size: int)
    requires ValidLocation(t, l, m)
    ensures size == |LocationBytes(PprofWire(t, l, m))|
  {
    var wire := MappingOf(t, m);
    ghost var lines := LinesOf(t, l.lines);
    SizeIsExact(l.address);
    SizeIsExact(|l.lines| as Uint64);
    SizeEnds(lines);
    hide UvarintSize, Encode, MappingBytes, LineBytes, LinesBytes, SizeUpTo, ValidLocation;
    size := UvarintSize(l.address) + UvarintSize(|l.lines| as Uint64);
    size := AddMappingSize(size, wire);
    ghost var header := size;
    for i := 0 to |l.lines|
      invariant size == header + SizeUpTo(lines, i)
    {
      SizeStep(lines, i);
      size := AddLineSize(size, LineOf(t, l.lines[i]));
    }
  }

  /** Writes the address, the number of lines and the mapping. */
  method WriteHeader(buf: array<Byte>, address: Uint64, count: Uint64, m: Option<WireMapping>) returns (offset: int)
    requires |Encode(address)| + |Encode(count)| + |MappingBytes(m)| <= buf.Length
    modifies buf
    ensures offset == |Encode(address)| + |Encode(count)| + |MappingBytes(m)|
    ensures buf[..offset] == Encode(address) + (Encode(count) + MappingBytes(m))
  {
    hide Encode, MappingBytes;
    offset := PutUvarint(buf, 0, address);
    assert buf[..offset] == Encode(address);
    offset := WriteUint64(buf, offset, count);
    offset := WriteMapping(buf, offset, m);
    Assoc(Encode(address), Encode(count), MappingBytes(m));
  }

  /** The header and the first i lines. */
  ghost function Filled(header: Bytes, lines: seq<WireLine>, i: int): Bytes
    requires 0 <= i <= |lines|
  {
    header + LinesBytes(lines[..i])
  }

  lemma {:induction false} FilledEnds(header: Bytes, lines: seq<WireLine>)
    ensures Filled(header, lines, 0) == header && Filled(header, lines, |lines|) == header + LinesBytes(lines)
  {
    assert lines[..|lines|] == lines;
  }

  lemma {:induction false} FilledStep(header: Bytes, lines: seq<WireLine>, i: int)
    requires 0 <= i < |lines|
    ensures Filled(header, lines, i + 1) == Filled(header, lines, i) + LineBytes(lines[i])
    ensures |Filled(header, lines, i + 1)| <= |header| + |LinesBytes(lines)|
  {
    LinesUpTo(lines, i);
    LinesFit(lines, i + 1);
    hide LinesBytes, LineBytes;
    Assoc(header, LinesBytes(lines[..i]), LineBytes(lines[i]));
  }

  /** Writes the next line behind the filled part of the buffer. */
  method WriteNextLine(buf: array<Byte>, offset: int, l: WireLine, ghost header: Bytes, ghost lines: seq<WireLine>,
      ghost i: int)
    returns (end: int)
    requires 0 <= i < |lines| && lines[i] == l && buf.Length == |header| + |LinesBytes(lines)|
    requires 0 <= offset <= buf.Length && buf[..offset] == Filled(header, lines, i)
    modifies buf
    ensures offset <= end <= buf.Length && buf[..end] == Filled(header, lines, i + 1)
  {
    hide Filled, LinesBytes, LineBytes;
    FilledStep(header, lines, i);
    end := WriteLine(buf, offset, l);
  }

  method EncodePprofLocation(t: Tables, l: PprofLocation, m: Option<PprofMapping>) returns (buf: array<Byte>)
    requires ValidLocation(t, l, m)
    ensures fresh(buf) && buf[..] == LocationBytes(PprofWire(t, l, m))
  {
    var size := SerializedPprofLocationSize(t, l, m);
    buf := new Byte[size];
    var wire := MappingOf(t, m);
    ghost var lines := LinesOf(t, l.lines);
    ghost var header := Encode(l.address) + (Encode(|l.lines| as Uint64) + MappingBytes(wire));
    FilledEnds(header, lines);
    hide Encode, MappingBytes, LineBytes, LinesBytes, Filled, ValidLocation;
    HeaderThenLines(PprofWire(t, l, m));
    var offset := WriteHeader(buf, l.address, |l.lines| as Uint64, wire);
    for i := 0 to |l.lines|
      invariant 0 <= offset <= buf.Length && buf[..offset] == Filled(header, lines, i)
    {
      offset := WriteNextLine(buf, offset, LineOf(t, l.lines[i]), header, lines, i);
    }
    assert buf[..offset] == buf[..];
  }

  lemma {:induction false} HeaderThenLines(l: WireLocation)
    requires Encodable(l)
    ensures LocationBytes(l)
         == (Encode(l.address) + (Encode(|l.lines| as Uint64) + MappingBytes(l.mapping))) + LinesBytes(l.lines)
  {
    hide Encode, MappingBytes, LinesBytes;
    Assoc(Encode(l.address), Encode(|l.lines| as Uint64) + MappingBytes(l.mapping), LinesBytes(l.lines));
    Assoc(Encode(|l.lines| as Uint64), MappingBytes(l.mapping), LinesBytes(l.lines));
  }

  /** The text that a string index stands for: none for zero, else the entry of the table. */
  ghost predicate Denotes(t: Tables, idx: Int64, s: Bytes) {
    (idx == 0 ==> s == []) && (idx != 0 ==> 0 < idx as int < |t.strings| && s == t.strings[idx as int])
  }

  /** What the profile says of a line is what was read back; an empty name is replaced by the system name. */
  ghost predicate PprofLineRead(t: Tables, l: PprofLine, d: Line) {
    && d.line == l.line && d.column == 0 && (d.fn.None? <==> l.functionId == 0)
    && (d.fn.Some? ==>
          && (l.functionId as int) <= |t.funcs|
          && var f := t.funcs[l.functionId as int - 1];
          && d.fn.value.startLine == f.startLine
          && (if f.name == 0 || (0 < f.name as int < |t.strings| && t.strings[f.name as int] == [])
              then d.fn.value.name == d.fn.value.systemName
              else Denotes(t, f.name, d.fn.value.name))
          && Denotes(t, f.systemName, d.fn.value.systemName) && Denotes(t, f.filename, d.fn.value.filename))
  }

  lemma {:induction false} PprofLineMeaning(t: Tables, l: PprofLine)
    requires ValidLine(t, l)
    ensures PprofLineRead(t, l, MeaningOfLine(LineOf(t, l)))
  {
    SignedRoundTrip(l.line);
    if l.functionId != 0 {
      SignedRoundTrip(t.funcs[l.functionId as int - 1].startLine);
    }
  }

  /**
   What the full decoder gets back from an encoded pprof location: all bytes are consumed, the mapping
   comes back with its limit, and every line with its function.
   */
  lemma {:induction false} PprofRoundTrip(t: Tables, l: PprofLocation, m: Option<PprofMapping>)
    requires ValidLocation(t, l, m)
    ensures
      var data := LocationBytes(PprofWire(t, l, m));
      && ReadLocation(data).Some? && ReadLocation(data).value.1 == |data|
      && var d := ReadLocation(data).value.0;
      && d.address == l.address && |d.lines| == |l.lines|
      && (forall i :: 0 <= i < |l.lines| ==> PprofLineRead(t, l.lines[i], d.lines[i]))
      && (d.mapping.Some? <==> m.Some?)
      && (m.Some? ==>
            && Denotes(t, m.value.buildId, d.mapping.value.buildID)
            && Denotes(t, m.value.filename, d.mapping.value.file)
            && d.mapping.value.start == m.value.memoryStart && d.mapping.value.limit == m.value.memoryLimit
            && d.mapping.value.offset == m.value.fileOffset)
  {
    hide LocationBytes, ReadLocation, PprofLineRead;
    var w := PprofWire(t, l, m);
    LocationRoundTrip(w);
    if m.Some? {
      AddSub(m.value.memoryStart, m.value.memoryLimit);
    }
    forall i | 0 <= i < |l.lines| ensures PprofLineRead(t, l.lines[i], Meaning(w).lines[i]) {
      PprofLineMeaning(t, l.lines[i]);
    }
  }

  // The encoder of the second Arrow ingest format

  /** The columns of the format; a missing column is None, null entries are None. */
  datatype V2Reader = V2Reader(
    address: seq<Uint64>,
    mappingFile: Option<seq<Option<int>>>, mappingFileVals: seq<Text>,
    buildID: Option<seq<Option<int>>>, buildIDVals: seq<Text>,
    lines: Option<seq<Option<(int, int)>>>,
    lineNumber: seq<Uint64>, lineColumn: seq<Uint64>,
    fn: Option<seq<Option<int>>>,
    startLine: seq<Uint64>, systemName: Option<seq<Option<Text>>>,
    filename: Option<seq<Option<int>>>, filenameVal: seq<Text>)

  ghost predicate ValidIndices(column: Option<seq<Option<int>>>, rows: int, values: int) {
    column.Some? ==>
      && |column.value| == rows
      && forall i :: 0 <= i < rows && column.value[i].Some? ==> 0 <= column.value[i].value < values
  }

  ghost predicate ValidReader(r: V2Reader) {
    && ValidIndices(r.mappingFile, |r.address|, |r.mappingFileVals|)
    && ValidIndices(r.buildID, |r.address|, |r.buildIDVals|)
    && (r.lines.Some? ==>
          && |r.lines.value| == |r.address|
          && forall i :: 0 <= i < |r.address| && r.lines.value[i].Some? ==>
               0 <= r.lines.value[i].value.0 <= r.lines.value[i].value.1 <= |r.lineNumber|)
    && |r.lineNumber| == |r.lineColumn| < 0x8000_0000_0000_0000
    && ValidIndices(r.fn, |r.lineNumber|, |r.startLine|)
    && (r.systemName.Some? ==> |r.systemName.value| == |r.startLine|)
    && ValidIndices(r.filename, |r.startLine|, |r.filenameVal|)
  }

  function V2FunctionIndex(r: V2Reader, lineIdx: int): Option<int>
    requires ValidReader(r) && 0 <= lineIdx < |r.lineNumber|
  {
    if r.fn.None? then None else r.fn.value[lineIdx]
  }

  function V2FunctionSystemName(r: V2Reader, fIdx: int): Text
    requires ValidReader(r) && 0 <= fIdx < |r.startLine|
  {
    if r.systemName.None? || r.systemName.value[fIdx].None? then [] else r.systemName.value[fIdx].value
  }

  function V2FunctionFilename(r: V2Reader, fIdx: int): Text
    requires ValidReader(r) && 0 <= fIdx < |r.startLine|
  {
    if r.filename.None? || r.filename.value[fIdx].None? then [] else r.filenameVal[r.filename.value[fIdx].value]
  }

  /** The mapping has no addresses; it exists when either of its names does. */
  function V2Mapping(r: V2Reader, locIdx: int): Option<WireMapping>
    requires ValidReader(r) && 0 <= locIdx < |r.address|
  {
    var hasFile := r.mappingFile.Some? && r.mappingFile.value[locIdx].Some?;
    var hasBuildID := r.buildID.Some? && r.buildID.value[locIdx].Some?;
    if hasFile || hasBuildID then
      Some(WireMapping(
        if hasBuildID then r.buildIDVals[r.buildID.value[locIdx].value] else [],
        if hasFile then r.mappingFileVals[r.mappingFile.value[locIdx].value] else [], 0, 0, 0))
    else None
  }

  /** The system name is written as the name too. */
  function V2Line(r: V2Reader, i: int): WireLine
    requires ValidReader(r) && 0 <= i < |r.lineNumber|
  {
    var f := V2FunctionIndex(r, i);
    WireLine(r.lineNumber[i], r.lineColumn[i],
      if f.None? then None
      else
        var name := V2FunctionSystemName(r, f.value);
        Some(WireFunction(r.startLine[f.value], name, name, V2FunctionFilename(r, f.value))))
  }

  function V2Bounds(r: V2Reader, locIdx: int): (int, int)
    requires ValidReader(r) && 0 <= locIdx < |r.address|
  {
    if r.lines.None? || r.lines.value[locIdx].None? then (0, 0) else r.lines.value[locIdx].value
  }

  function V2Lines(r: V2Reader, start: int, end: int): (lines: seq<WireLine>)
    requires ValidReader(r) && 0 <= start <= end <= |r.lineNumber|
    ensures |lines| == end - start && forall i :: start <= i < end ==> lines[i - start] == V2Line(r, i)
    decreases end - start
  {
    if start == end then [] else [V2Line(r, start)] + V2Lines(r, start + 1, end)
  }

  function V2Wire(r: V2Reader, locIdx: int): WireLocation
    requires ValidReader(r) && 0 <= locIdx < |r.address|
  {
    var o := V2Bounds(r, locIdx);
    WireLocation(r.address[locIdx], V2Mapping(r, locIdx), V2Lines(r, o.0, o.1))
  }

  method V2Size(r: V2Reader, locIdx: int) returns (size: int)
    requires ValidReader(r) && 0 <= locIdx < |r.address|
    ensures size == |LocationBytes(V2Wire(r, locIdx))|
  {
    var o := V2Bounds(r, locIdx);
    var count := (o.1 - o.0) as Uint64;
    ghost var lines := V2Lines(r, o.0, o.1);
    SizeIsExact(r.address[locIdx]);
    SizeIsExact(count);
    SizeEnds(lines);
    hide UvarintSize, Encode, MappingBytes, LineBytes, LinesBytes, SizeUpTo, V2Line, V2Mapping, ValidReader;
    size := UvarintSize(r.address[locIdx]) + UvarintSize(count);
    size := AddMappingSize(size, V2Mapping(r, locIdx));
    ghost var header := size;
    for i := o.0 to o.1
      invariant size == header + SizeUpTo(lines, i - o.0)
    {
      SizeStep(lines, i - o.0);
      size := AddLineSize(size, V2Line(r, i));
    }
  }

  method EncodeV2Location(r: V2Reader, locIdx: int) returns (written: Bytes)
    requires ValidReader(r) && 0 <= locIdx < |r.address|
    ensures written == LocationBytes(V2Wire(r, locIdx))
  {
    var size := V2Size(r, locIdx);
    var buf := new Byte[size];
    var o := V2Bounds(r, locIdx);
    var count := (o.1 - o.0) as Uint64;
    ghost var lines := V2Lines(r, o.0, o.1);
    ghost var header := Encode(r.address[locIdx]) + (Encode(count) + MappingBytes(V2Mapping(r, locIdx)));
    FilledEnds(header, lines);
    hide Encode, MappingBytes, LineBytes, LinesBytes, Filled, V2Line, V2Mapping, ValidReader;
    HeaderThenLines(V2Wire(r, locIdx));
    var offset := WriteHeader(buf, r.address[locIdx], count, V2Mapping(r, locIdx));
    for i := o.0 to o.1
      invariant 0 <= offset <= buf.Length && buf[..offset] == Filled(header, lines, i - o.0)
    {
      offset := WriteNextLine(buf, offset, V2Line(r, i), header, lines, i - o.0);
    }
    written := buf[..offset];
  }

  /** The text of a row of a column of indices: none for a missing column or a null entry. */
  ghost predicate RowReads(column: Option<seq<Option<int>>>, values: seq<Text>, i: int, text: Bytes) {
    if column.None? then text == []
    else
      && 0 <= i < |column.value|
      && (column.value[i].None? ==> text == [])
      && (column.value[i].Some? ==>
            0 <= column.value[i].value < |values| && text == values[column.value[i].value])
  }

  /** What the reader says of a line is what was read back: both names are the system name. */
  ghost predicate V2LineRead(r: V2Reader, i: int, d: Line)
    requires ValidReader(r) && 0 <= i < |r.lineNumber|
  {
    && d.line == ToInt64(r.lineNumber[i]) && d.column == r.lineColumn[i]
    && (d.fn.None? <==> r.fn.None? || r.fn.value[i].None?)
    && (d.fn.Some? ==>
          var f := r.fn.value[i].value;
          && d.fn.value.startLine == ToInt64(r.startLine[f])
          && d.fn.value.name == d.fn.value.systemName
          && d.fn.value.systemName
             == (if r.systemName.None? || r.systemName.value[f].None? then [] else r.systemName.value[f].value)
          && RowReads(r.filename, r.filenameVal, f, d.fn.value.filename))
  }

  /** What the reader says of a location is what was read back; there is a mapping if either name is there. */
  ghost predicate V2LocationRead(r: V2Reader, locIdx: int, d: Location)
    requires ValidReader(r) && 0 <= locIdx < |r.address|
  {
    && d.address == r.address[locIdx] && V2MappingRead(r, locIdx, d.mapping)
    && (if r.lines.None? || r.lines.value[locIdx].None? then d.lines == []
        else
          var (start, end) := r.lines.value[locIdx].value;
          && |d.lines| == end - start
          && forall k :: 0 <= k < |d.lines| ==> V2LineRead(r, start + k, d.lines[k]))
  }

  ghost predicate V2MappingRead(r: V2Reader, locIdx: int, m: Option<Mapping>)
    requires ValidReader(r) && 0 <= locIdx < |r.address|
  {
    && (m.None? <==>
          && (r.mappingFile.None? || r.mappingFile.value[locIdx].None?)
          && (r.buildID.None? || r.buildID.value[locIdx].None?))
    && (m.Some? ==>
          && RowReads(r.buildID, r.buildIDVals, locIdx, m.value.buildID)
          && RowReads(r.mappingFile, r.mappingFileVals, locIdx, m.value.file)
          && m.value.start == m.value.limit == m.value.offset == 0)
  }

  lemma V2LineMeaning(r: V2Reader, i: int)
    requires ValidReader(r) && 0 <= i < |r.lineNumber|
    ensures V2LineRead(r, i, MeaningOfLine(V2Line(r, i)))
  {
  }

  lemma V2MappingMeaning(r: V2Reader, locIdx: int)
    requires ValidReader(r) && 0 <= locIdx < |r.address|
    ensures
      var m := V2Mapping(r, locIdx);
      V2MappingRead(r, locIdx, if m.Some? then Some(MeaningOfMapping(m.value)) else None)
  {
  }

  lemma BoundsInRange(r: V2Reader, locIdx: int)
    requires ValidReader(r) && 0 <= locIdx < |r.address|
    ensures 0 <= V2Bounds(r, locIdx).0 <= V2Bounds(r, locIdx).1 <= |r.lineNumber| < 0x8000_0000_0000_0000
    ensures r.lines.None? || |r.lines.value| == |r.address|
    ensures V2Bounds(r, locIdx) ==
      if r.lines.None? || r.lines.value[locIdx].None? then (0, 0) else r.lines.value[locIdx].value
  {
  }

  lemma {:induction false} V2Meaning(r: V2Reader, locIdx: int)
    requires ValidReader(r) && 0 <= locIdx < |r.address|
    ensures Encodable(V2Wire(r, locIdx)) && V2LocationRead(r, locIdx, Meaning(V2Wire(r, locIdx)))
  {
    hide V2Line, V2LineRead, MeaningOfLine, V2Bounds, ValidIndices;
    var (start, end) := V2Bounds(r, locIdx);
    BoundsInRange(r, locIdx);
    var lines := V2Lines(r, start, end);
    var d := Meaning(V2Wire(r, locIdx));
    V2MappingMeaning(r, locIdx);
    hide ValidReader, V2Mapping, V2MappingRead, MeaningOfMapping;
    forall k | 0 <= k < |d.lines| ensures V2LineRead(r, start + k, d.lines[k]) {
      V2LineMeaning(r, start + k);
      assert lines[start + k - start] == V2Line(r, start + k);
    }
  }

  /** What the full decoder gets back from an encoded v2 location: all bytes are consumed, nothing is lost. */
  lemma {:induction false} V2RoundTrip(r: V2Reader, locIdx: int)
    requires ValidReader(r) && 0 <= locIdx < |r.address|
    ensures
      var data := LocationBytes(V2Wire(r, locIdx));
      exists d :: ReadLocation(data) == Some((d, |data|)) && V2LocationRead(r, locIdx, d)
  {
    hide LocationBytes, ReadLocation, Meaning, V2LocationRead, V2Wire;
    V2Meaning(r, locIdx);
    LocationRoundTrip(V2Wire(r, locIdx));
  }
}
