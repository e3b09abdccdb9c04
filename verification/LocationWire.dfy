/** The wire format of a location, and the reading of it as a function of the data and an offset. */
module LocationWire {
  import opened Options
  import opened Varint

  datatype WireMapping = WireMapping(buildID: Text, file: Text, start: Uint64, length: Uint64, offset: Uint64)
  datatype WireFunction = WireFunction(startLine: Uint64, name: Text, systemName: Text, filename: Text)
  datatype WireLine = WireLine(line: Uint64, column: Uint64, fn: Option<WireFunction>)
  datatype WireLocation = WireLocation(address: Uint64, mapping: Option<WireMapping>, lines: seq<WireLine>)

  ghost predicate Encodable(l: WireLocation) {
    |l.lines| < 0x8000_0000_0000_0000
  }

  function StringBytes(s: Text): Bytes {
    Encode(|s| as Uint64) + s
  }

  function MappingBytes(m: Option<WireMapping>): Bytes {
    match m
    case None => [0]
    case Some(m) =>
      [1] + (StringBytes(m.buildID) + (StringBytes(m.file) + (Encode(m.start) + (Encode(m.length) + Encode(m.offset)))))
  }

  function FunctionBytes(f: Option<WireFunction>): Bytes {
    match f
    case None => [0]
    case Some(f) =>
      [1] + (Encode(f.startLine) + (StringBytes(f.name) + (StringBytes(f.systemName) + StringBytes(f.filename))))
  }

  function LineBytes(l: WireLine): Bytes {
    Encode(l.line) + (Encode(l.column) + FunctionBytes(l.fn))
  }

  function LinesBytes(lines: seq<WireLine>): Bytes {
    if lines == [] then [] else LineBytes(lines[0]) + LinesBytes(lines[1..])
  }

  function LocationBytes(l: WireLocation): Bytes
    requires Encodable(l)
  {
    Encode(l.address) + (Encode(|l.lines| as Uint64) + (MappingBytes(l.mapping) + LinesBytes(l.lines)))
  }

  // Reading. None stands for a run-time panic: an index or slice bound out of range.

  /** A varint in the data from an offset on; the offset moves by the count, whatever its sign. */
  function ReadUvarint(data: Bytes, offset: int): Option<(Uint64, int)> {
    if 0 <= offset <= |data| then
      var r := Uvarint(data[offset..]);
      Some((r.0, offset + r.1))
    else None
  }

  function ReadFlag(data: Bytes, offset: int): Option<(bool, int)> {
    if 0 <= offset < |data| then Some((data[offset] == 1, offset + 1)) else None
  }

  function ReadString(data: Bytes, offset: int): Option<(Bytes, int)> {
    if 0 <= offset <= |data| then
      var r := Uvarint(data[offset..]);
      var length := ToInt64(r.0) as int;
      if 0 <= r.1 <= r.1 + length <= |data| - offset then
        Some((data[offset + r.1..offset + r.1 + length], offset + r.1 + length))
      else None
    else None
  }

  datatype Mapping = Mapping(buildID: Bytes, file: Bytes, start: Uint64, limit: Uint64, offset: Uint64)
  datatype Function = Function(startLine: Int64, name: Bytes, systemName: Bytes, filename: Bytes)
  datatype Line = Line(line: Int64, column: Uint64, fn: Option<Function>)
  datatype Location = Location(address: Uint64, mapping: Option<Mapping>, lines: seq<Line>)

  function ReadMapping(data: Bytes, offset: int): Option<(Mapping, int)> {
    var buildID := ReadString(data, offset);
    if buildID.None? then None else
    var file := ReadString(data, buildID.value.1);
    if file.None? then None else
    var start := ReadUvarint(data, file.value.1);
    if start.None? then None else
    var length := ReadUvarint(data, start.value.1);
    if length.None? then None else
    var off := ReadUvarint(data, length.value.1);
    if off.None? then None else
    Some((Mapping(buildID.value.0, file.value.0, start.value.0, Add(start.value.0, length.value.0), off.value.0),
          off.value.1))
  }

  function ReadOptionalMapping(data: Bytes, offset: int): Option<(Option<Mapping>, int)> {
    var flag := ReadFlag(data, offset);
    if flag.None? then None
    else if !flag.value.0 then Some((None, flag.value.1))
    else
      var m := ReadMapping(data, flag.value.1);
      if m.None? then None else Some((Some(m.value.0), m.value.1))
  }

  function ReadFunction(data: Bytes, offset: int): Option<(Function, int)> {
    var startLine := ReadUvarint(data, offset);
    if startLine.None? then None else
    var name := ReadString(data, startLine.value.1);
    if name.None? then None else
    var systemName := ReadString(data, name.value.1);
    if systemName.None? then None else
    var filename := ReadString(data, systemName.value.1);
    if filename.None? then None else
    Some((Function(ToInt64(startLine.value.0), if name.value.0 == [] then systemName.value.0 else name.value.0,
                   systemName.value.0, filename.value.0), filename.value.1))
  }

  function ReadOptionalFunction(data: Bytes, offset: int): Option<(Option<Function>, int)> {
    var flag := ReadFlag(data, offset);
    if flag.None? then None
    else if !flag.value.0 then Some((None, flag.value.1))
    else
      var f := ReadFunction(data, flag.value.1);
      if f.None? then None else Some((Some(f.value.0), f.value.1))
  }

  function ReadLine(data: Bytes, offset: int): Option<(Line, int)> {
    var line := ReadUvarint(data, offset);
    if line.None? then None else
    var column := ReadUvarint(data, line.value.1);
    if column.None? then None else
    var f := ReadOptionalFunction(data, column.value.1);
    if f.None? then None else
    Some((Line(ToInt64(line.value.0), column.value.0, f.value.0), f.value.1))
  }

  function ReadLines(data: Bytes, offset: int, count: nat): Option<(seq<Line>, int)>
    decreases count
  {
    if count == 0 then Some(([], offset))
    else
      var line := ReadLine(data, offset);
      if line.None? then None else
      var rest := ReadLines(data, line.value.1, count - 1);
      if rest.None? then None else
      Some(([line.value.0] + rest.value.0, rest.value.1))
  }

  /** The address, the number of lines and the mapping. */
  datatype Header = Header(address: Uint64, count: Uint64, mapping: Option<Mapping>, end: int)

  function ReadHeader(data: Bytes): Option<Header> {
    var address := ReadUvarint(data, 0);
    if address.None? then None else
    var count := ReadUvarint(data, address.value.1);
    if count.None? then None else
    var m := ReadOptionalMapping(data, count.value.1);
    if m.None? then None else
    Some(Header(address.value.0, count.value.0, m.value.0, m.value.1))
  }

  function ReadLocation(data: Bytes): Option<(Location, int)> {
    var h := ReadHeader(data);
    if h.None? then None else
    var lines := ReadLines(data, h.value.end, h.value.count as int);
    if lines.None? then None else
    Some((Location(h.value.address, h.value.mapping, lines.value.0), lines.value.1))
  }

  // What a wire location means to the reader.

  function MeaningOfMapping(m: WireMapping): Mapping {
    Mapping(m.buildID, m.file, m.start, Add(m.start, m.length), m.offset)
  }

  /** An empty name is replaced by the system name. */
  function MeaningOfFunction(f: WireFunction): Function {
    Function(ToInt64(f.startLine), if f.name == [] then f.systemName else f.name, f.systemName, f.filename)
  }

  function MeaningOfLine(l: WireLine): Line {
    Line(ToInt64(l.line), l.column, if l.fn.Some? then Some(MeaningOfFunction(l.fn.value)) else None)
  }

  function MeaningOfLines(lines: seq<WireLine>): (r: seq<Line>)
    ensures |r| == |lines| && forall i :: 0 <= i < |lines| ==> r[i] == MeaningOfLine(lines[i])
  {
    if lines == [] then [] else [MeaningOfLine(lines[0])] + MeaningOfLines(lines[1..])
  }

  function Meaning(l: WireLocation): Location {
    Location(l.address, if l.mapping.Some? then Some(MeaningOfMapping(l.mapping.value)) else None,
      MeaningOfLines(l.lines))
  }

  // Round trips.

  /** The bytes stand in the data at the offset. */
  ghost predicate At(data: Bytes, offset: int, bytes: Bytes) {
    0 <= offset <= offset + |bytes| <= |data| && data[offset..offset + |bytes|] == bytes
  }

  lemma {:induction false} Split(data: Bytes, offset: int, a: Bytes, b: Bytes)
    requires At(data, offset, a + b)
    ensures At(data, offset, a) && At(data, offset + |a|, b)
  {
    var both := data[offset..offset + |a + b|];
    assert data[offset..offset + |a|] == both[..|a|];
    assert data[offset + |a|..offset + |a| + |b|] == both[|a|..];
  }

  lemma {:induction false} ReadsUvarint(data: Bytes, offset: int, x: Uint64)
    requires At(data, offset, Encode(x))
    ensures ReadUvarint(data, offset) == Some((x, offset + |Encode(x)|))
  {
    var rest := data[offset + |Encode(x)|..];
    assert data[offset..] == Encode(x) + rest;
    UvarintRoundTrip(x, rest);
  }

  lemma {:induction false} ReadsString(data: Bytes, offset: int, s: Text)
    requires At(data, offset, StringBytes(s))
    ensures ReadString(data, offset) == Some((s, offset + |StringBytes(s)|))
  {
    var n := |s| as Uint64;
    Split(data, offset, Encode(n), s);
    var rest := data[offset + |Encode(n)|..];
    assert data[offset..] == Encode(n) + rest;
    UvarintRoundTrip(n, rest);
  }

  lemma {:induction false} ReadsMapping(data: Bytes, offset: int, m: WireMapping)
    requires At(data, offset, MappingBytes(Some(m)))
    ensures ReadOptionalMapping(data, offset) == Some((Some(MeaningOfMapping(m)), offset + |MappingBytes(Some(m))|))
  {
    hide StringBytes, Encode, ReadUvarint, ReadString, At;
    var c4 := Encode(m.length) + Encode(m.offset);
    var c3 := Encode(m.start) + c4;
    var c2 := StringBytes(m.file) + c3;
    var c1 := StringBytes(m.buildID) + c2;
    FlagAt(data, offset, 1, c1);
    var o1 := offset + 1;
    Split(data, o1, StringBytes(m.buildID), c2);
    ReadsString(data, o1, m.buildID);
    var o2 := o1 + |StringBytes(m.buildID)|;
    Split(data, o2, StringBytes(m.file), c3);
    ReadsString(data, o2, m.file);
    var o3 := o2 + |StringBytes(m.file)|;
    Split(data, o3, Encode(m.start), c4);
    ReadsUvarint(data, o3, m.start);
    var o4 := o3 + |Encode(m.start)|;
    Split(data, o4, Encode(m.length), Encode(m.offset));
    ReadsUvarint(data, o4, m.length);
    ReadsUvarint(data, o4 + |Encode(m.length)|, m.offset);
  }

  lemma {:induction false} FlagAt(data: Bytes, offset: int, flag: Byte, rest: Bytes)
    requires At(data, offset, [flag] + rest)
    ensures ReadFlag(data, offset) == Some((flag == 1, offset + 1)) && At(data, offset + 1, rest)
  {
    Split(data, offset, [flag], rest);
    assert data[offset..offset + 1][0] == flag;
  }

  lemma {:induction false} ReadsOptionalMapping(data: Bytes, offset: int, m: Option<WireMapping>)
    requires At(data, offset, MappingBytes(m))
    ensures ReadOptionalMapping(data, offset)
         == Some((if m.Some? then Some(MeaningOfMapping(m.value)) else None, offset + |MappingBytes(m)|))
  {
    hide At, ReadFlag, ReadMapping, MeaningOfMapping, StringBytes, Encode;
    match m
    case None =>
      assert [0] + [] == MappingBytes(m);
      FlagAt(data, offset, 0, []);
    case Some(w) => ReadsMapping(data, offset, w);
  }

  lemma {:induction false} ReadsFunction(data: Bytes, offset: int, f: WireFunction)
    requires At(data, offset, FunctionBytes(Some(f)))
    ensures ReadOptionalFunction(data, offset) == Some((Some(MeaningOfFunction(f)), offset + |FunctionBytes(Some(f))|))
  {
    hide StringBytes, Encode, ReadUvarint, ReadString, At;
    var c3 := StringBytes(f.systemName) + StringBytes(f.filename);
    var c2 := StringBytes(f.name) + c3;
    var c1 := Encode(f.startLine) + c2;
    FlagAt(data, offset, 1, c1);
    var o1 := offset + 1;
    Split(data, o1, Encode(f.startLine), c2);
    ReadsUvarint(data, o1, f.startLine);
    var o2 := o1 + |Encode(f.startLine)|;
    Split(data, o2, StringBytes(f.name), c3);
    ReadsString(data, o2, f.name);
    var o3 := o2 + |StringBytes(f.name)|;
    Split(data, o3, StringBytes(f.systemName), StringBytes(f.filename));
    ReadsString(data, o3, f.systemName);
    ReadsString(data, o3 + |StringBytes(f.systemName)|, f.filename);
  }

  lemma {:induction false} ReadsOptionalFunction(data: Bytes, offset: int, f: Option<WireFunction>)
    requires At(data, offset, FunctionBytes(f))
    ensures ReadOptionalFunction(data, offset)
         == Some((if f.Some? then Some(MeaningOfFunction(f.value)) else None, offset + |FunctionBytes(f)|))
  {
    hide At, ReadFlag, ReadFunction, MeaningOfFunction, StringBytes, Encode;
    match f
    case None =>
      assert [0] + [] == FunctionBytes(f);
      FlagAt(data, offset, 0, []);
    case Some(w) => ReadsFunction(data, offset, w);
  }

  lemma {:induction false} ReadsLine(data: Bytes, offset: int, l: WireLine)
    requires At(data, offset, LineBytes(l))
    ensures ReadLine(data, offset) == Some((MeaningOfLine(l), offset + |LineBytes(l)|))
  {
    hide FunctionBytes, Encode, ReadUvarint, ReadOptionalFunction, At;
    Split(data, offset, Encode(l.line), Encode(l.column) + FunctionBytes(l.fn));
    ReadsUvarint(data, offset, l.line);
    var o1 := offset + |Encode(l.line)|;
    Split(data, o1, Encode(l.column), FunctionBytes(l.fn));
    ReadsUvarint(data, o1, l.column);
    ReadsOptionalFunction(data, o1 + |Encode(l.column)|, l.fn);
  }

  lemma {:induction false} ReadsLines(data: Bytes, offset: int, lines: seq<WireLine>)
    requires At(data, offset, LinesBytes(lines))
    ensures ReadLines(data, offset, |lines|) == Some((MeaningOfLines(lines), offset + |LinesBytes(lines)|))
    decreases |lines|
  {
    hide LineBytes, ReadLine;
    if lines != [] {
      Split(data, offset, LineBytes(lines[0]), LinesBytes(lines[1..]));
      ReadsLine(data, offset, lines[0]);
      ReadsLines(data, offset + |LineBytes(lines[0])|, lines[1..]);
    }
  }

  lemma {:induction false} ReadsHeader(data: Bytes, l: WireLocation)
    requires Encodable(l) && At(data, 0, LocationBytes(l))
    ensures ReadHeader(data) == Some(Header(l.address, |l.lines| as Uint64, Meaning(l).mapping,
      |Encode(l.address)| + |Encode(|l.lines| as Uint64)| + |MappingBytes(l.mapping)|))
    ensures At(data, ReadHeader(data).value.end, LinesBytes(l.lines))
  {
    hide MappingBytes, LinesBytes, Encode, ReadUvarint, ReadOptionalMapping, At, MeaningOfLines;
    var n := |l.lines| as Uint64;
    var c2 := MappingBytes(l.mapping) + LinesBytes(l.lines);
    Split(data, 0, Encode(l.address), Encode(n) + c2);
    ReadsUvarint(data, 0, l.address);
    var o1 := |Encode(l.address)|;
    Split(data, o1, Encode(n), c2);
    ReadsUvarint(data, o1, n);
    var o2 := o1 + |Encode(n)|;
    Split(data, o2, MappingBytes(l.mapping), LinesBytes(l.lines));
    ReadsOptionalMapping(data, o2, l.mapping);
  }

  lemma {:induction false} ReadsLocation(data: Bytes, l: WireLocation)
    requires Encodable(l) && At(data, 0, LocationBytes(l))
    ensures ReadLocation(data) == Some((Meaning(l), |LocationBytes(l)|))
  {
    hide At, ReadHeader, ReadLines, Encode, MappingBytes, LinesBytes, MeaningOfLines;
    ReadsHeader(data, l);
    ReadsLines(data, ReadHeader(data).value.end, l.lines);
  }

  /** Reading an encoded location consumes all of it and returns its meaning. */
  lemma {:induction false} LocationRoundTrip(l: WireLocation)
    requires Encodable(l)
    ensures ReadLocation(LocationBytes(l)) == Some((Meaning(l), |LocationBytes(l)|))
  {
    hide LocationBytes, ReadLocation, Meaning;
    var data := LocationBytes(l);
    assert data[0..|data|] == data;
    ReadsLocation(data, l);
  }

  lemma EncodeSmall(x: Uint64)
    requires x < 0x80
    ensures Encode(x) == [x as int as Byte]
  {
  }

  lemma {:induction false} BytesOfMapping()
    ensures MappingBytes(Some(WireMapping([98], [47, 120], 1, 2, 3))) == [1, 1, 98, 2, 47, 120, 1, 2, 3]
  {
    EncodeSmall(1);
    EncodeSmall(2);
    EncodeSmall(3);
    hide Encode;
  }

  lemma {:induction false} BytesOfFunction()
    ensures FunctionBytes(Some(WireFunction(6, [110], [115, 121], [102]))) == [1, 6, 1, 110, 2, 115, 121, 1, 102]
  {
    EncodeSmall(1);
    EncodeSmall(2);
    EncodeSmall(6);
    hide Encode;
  }

  lemma {:induction false} BytesOfLine(l: WireLine)
    requires l.line < 0x80 && l.column < 0x80
    ensures LinesBytes([l]) == [l.line as int as Byte, l.column as int as Byte] + FunctionBytes(l.fn)
  {
    EncodeSmall(l.line);
    EncodeSmall(l.column);
    hide Encode, FunctionBytes;
    assert [l][1..] == [];
  }

  /** The bytes of a location with a mapping and a function, and of one with neither. */
  lemma {:induction false} BytesOfLocation(l: WireLocation, bare: WireLocation)
    requires l == WireLocation(300, Some(WireMapping([98], [47, 120], 1, 2, 3)),
                               [WireLine(4, 5, Some(WireFunction(6, [110], [115, 121], [102])))])
    requires bare == WireLocation(7, None, [WireLine(9, 8, None)])
    ensures LocationBytes(l)
         == [0xAC, 2] + [1] + [1, 1, 98, 2, 47, 120, 1, 2, 3] + [4, 5] + [1, 6, 1, 110, 2, 115, 121, 1, 102]
    ensures LocationBytes(bare) == [7, 1, 0, 9, 8, 0]
  {
    assert Encode(300) == [0xAC, 2];
    EncodeSmall(1);
    EncodeSmall(7);
    BytesOfMapping();
    BytesOfFunction();
    BytesOfLine(l.lines[0]);
    BytesOfLine(bare.lines[0]);
    hide Encode, LinesBytes;
  }
}
