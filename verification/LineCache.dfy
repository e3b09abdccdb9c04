/** The symbolizer's cache of lines: its codec, its keys and the liner that uses it. */
module LineCache {
  import opened Options
  import opened Varint
  import opened LocationWire
  import opened LocationEncoder

  datatype CachedFunction = CachedFunction(startLine: Int64, name: Text, systemName: Text, filename: Text)
  datatype LocationLine = LocationLine(line: Int64, fn: Option<CachedFunction>)

  type Lines = s: seq<LocationLine> | |s| < 0x8000_0000_0000_0000

  function WireFn(f: Option<CachedFunction>): Option<WireFunction> {
    if f.None? then None
    else Some(WireFunction(ToUint64(f.value.startLine), f.value.name, f.value.systemName, f.value.filename))
  }

  function EntryBytes(l: LocationLine): Bytes {
    Encode(ToUint64(l.line)) + FunctionBytes(WireFn(l.fn))
  }

  function EntriesBytes(lines: seq<LocationLine>): Bytes {
    if lines == [] then [] else EntryBytes(lines[0]) + EntriesBytes(lines[1..])
  }

  function CacheBytes(lines: Lines): Bytes {
    Encode(|lines| as Uint64) + EntriesBytes(lines)
  }

  // Encoding

  method AddEntrySize(size: int, l: LocationLine) returns (r: int)
    ensures r == size + |EntryBytes(l)|
  {
    SizeIsExact(ToUint64(l.line));
    hide UvarintSize, Encode, StringBytes, SizeOfString;
    r := size + UvarintSize(ToUint64(l.line)) + 1;
    if l.fn.Some? {
      var f := l.fn.value;
      SizeIsExact(ToUint64(f.startLine));
      r := r + UvarintSize(ToUint64(f.startLine));
      r := r + SizeOfString(f.name);
      r := r + SizeOfString(f.systemName);
      r := r + SizeOfString(f.filename);
    }
  }

  lemma {:induction false} EntriesSnoc(lines: seq<LocationLine>, l: LocationLine)
    ensures EntriesBytes(lines + [l]) == EntriesBytes(lines) + EntryBytes(l)
  {
    hide EntryBytes;
    if lines == [] {
      assert [l][1..] == [];
    } else {
      EntriesSnoc(lines[1..], l);
      assert (lines + [l])[1..] == lines[1..] + [l];
      Assoc(EntryBytes(lines[0]), EntriesBytes(lines[1..]), EntryBytes(l));
    }
  }

  /** The count and the first i entries. */
  ghost function FilledTo(lines: Lines, i: int): Bytes
    requires 0 <= i <= |lines|
  {
    Encode(|lines| as Uint64) + EntriesBytes(lines[..i])
  }

  lemma {:induction false} FilledToEnds(lines: Lines)
    ensures FilledTo(lines, 0) == Encode(|lines| as Uint64) && FilledTo(lines, |lines|) == CacheBytes(lines)
  {
    assert lines[..|lines|] == lines;
  }

  lemma {:induction false} FilledToStep(lines: Lines, i: int)
    requires 0 <= i < |lines|
    ensures FilledTo(lines, i + 1) == FilledTo(lines, i) + EntryBytes(lines[i])
  {
    assert lines[..i + 1] == lines[..i] + [lines[i]];
    EntriesSnoc(lines[..i], lines[i]);
    hide EntriesBytes, EntryBytes;
    Assoc(Encode(|lines| as Uint64), EntriesBytes(lines[..i]), EntryBytes(lines[i]));
  }

  lemma {:induction false} FilledToGrows(lines: Lines, i: int)
    requires 0 <= i <= |lines|
    ensures |FilledTo(lines, i)| <= |CacheBytes(lines)|
    decreases |lines| - i
  {
    FilledToEnds(lines);
    hide FilledTo, CacheBytes, EntryBytes;
    if i < |lines| {
      FilledToStep(lines, i);
      FilledToGrows(lines, i + 1);
    }
  }

  method EncodeLinesSize(lines: Lines) returns (size: int)
    ensures size == |CacheBytes(lines)|
  {
    SizeIsExact(|lines| as Uint64);
    FilledToEnds(lines);
    hide UvarintSize, FilledTo, CacheBytes, EntryBytes;
    size := UvarintSize(|lines| as Uint64);
    for i := 0 to |lines|
      invariant size == |FilledTo(lines, i)|
    {
      FilledToStep(lines, i);
      size := AddEntrySize(size, lines[i]);
    }
  }

  method WriteEntry(buf: array<Byte>, offset: int, l: LocationLine) returns (end: int)
    requires 0 <= offset && offset + |EntryBytes(l)| <= buf.Length
    modifies buf
    ensures end == offset + |EntryBytes(l)| && buf[..end] == old(buf[..offset]) + EntryBytes(l)
    ensures forall i :: end <= i < buf.Length ==> buf[i] == old(buf[i])
  {
    hide Encode, FunctionBytes;
    end := WriteUint64(buf, offset, ToUint64(l.line));
    end := WriteFunction(buf, end, WireFn(l.fn));
    Assoc(old(buf[..offset]), Encode(ToUint64(l.line)), FunctionBytes(WireFn(l.fn)));
  }

  method EncodeLines(lines: Lines) returns (data: Bytes)
    ensures data == CacheBytes(lines)
  {
    var size := EncodeLinesSize(lines);
    var buf := new Byte[size];
    FilledToEnds(lines);
    FilledToGrows(lines, 0);
    hide Encode, FilledTo, CacheBytes, EntryBytes;
    var offset := PutUvarint(buf, 0, |lines| as Uint64);
    assert buf[..0] == [];
    for i := 0 to |lines|
      invariant 0 <= offset <= buf.Length == |CacheBytes(lines)| && buf[..offset] == FilledTo(lines, i)
    {
      FilledToStep(lines, i);
      FilledToGrows(lines, i + 1);
      offset := WriteEntry(buf, offset, lines[i]);
    }
    data := buf[..];
  }

  // Decoding

  function ReadCachedFunction(data: Bytes, offset: int): Option<(CachedFunction, int)> {
    var startLine := ReadUvarint(data, offset);
    if startLine.None? then None else
    var name := ReadString(data, startLine.value.1);
    if name.None? then None else
    var systemName := ReadString(data, name.value.1);
    if systemName.None? then None else
    var filename := ReadString(data, systemName.value.1);
    if filename.None? then None else
    Some((CachedFunction(ToInt64(startLine.value.0), name.value.0, systemName.value.0, filename.value.0),
      filename.value.1))
  }

  function ReadEntry(data: Bytes, offset: int): Option<(LocationLine, int)> {
    var line := ReadUvarint(data, offset);
    if line.None? then None else
    var flag := ReadFlag(data, line.value.1);
    if flag.None? then None
    else if !flag.value.0 then Some((LocationLine(ToInt64(line.value.0), None), flag.value.1))
    else
      var f := ReadCachedFunction(data, flag.value.1);
      if f.None? then None else Some((LocationLine(ToInt64(line.value.0), Some(f.value.0)), f.value.1))
  }

  function ReadEntries(data: Bytes, offset: int, count: nat): Option<(seq<LocationLine>, int)>
    decreases count
  {
    if count == 0 then Some(([], offset))
    else
      var line := ReadEntry(data, offset);
      if line.None? then None else
      var rest := ReadEntries(data, line.value.1, count - 1);
      if rest.None? then None else
      Some(([line.value.0] + rest.value.0, rest.value.1))
  }

  /** The meaning of the data; None stands for a run-time panic. */
  function ReadCache(data: Bytes): Option<(seq<LocationLine>, int)> {
    var count := ReadUvarint(data, 0);
    if count.None? then None
    else ReadEntries(data, count.value.1, count.value.0 as int)
  }

  lemma {:induction false} ReadsCachedFunction(data: Bytes, offset: int, f: CachedFunction)
    requires At(data, offset, FunctionBytes(WireFn(Some(f))))
    ensures ReadFlag(data, offset) == Some((true, offset + 1))
    ensures ReadCachedFunction(data, offset + 1) == Some((f, offset + |FunctionBytes(WireFn(Some(f)))|))
  {
    hide StringBytes, Encode, ReadUvarint, ReadString, At, ToUint64, ToInt64;
    var start := ToUint64(f.startLine);
    SignedRoundTrip(f.startLine);
    var c3 := StringBytes(f.systemName) + StringBytes(f.filename);
    var c2 := StringBytes(f.name) + c3;
    FlagAt(data, offset, 1, Encode(start) + c2);
    var o1 := offset + 1;
    Split(data, o1, Encode(start), c2);
    ReadsUvarint(data, o1, start);
    var o2 := o1 + |Encode(start)|;
    Split(data, o2, StringBytes(f.name), c3);
    ReadsString(data, o2, f.name);
    var o3 := o2 + |StringBytes(f.name)|;
    Split(data, o3, StringBytes(f.systemName), StringBytes(f.filename));
    ReadsString(data, o3, f.systemName);
    ReadsString(data, o3 + |StringBytes(f.systemName)|, f.filename);
  }

  lemma {:induction false} ReadsEntry(data: Bytes, offset: int, l: LocationLine)
    requires At(data, offset, EntryBytes(l))
    ensures ReadEntry(data, offset) == Some((l, offset + |EntryBytes(l)|))
  {
    hide StringBytes, Encode, ReadUvarint, ReadFlag, ReadCachedFunction, At, ToUint64, ToInt64;
    var line := ToUint64(l.line);
    SignedRoundTrip(l.line);
    Split(data, offset, Encode(line), FunctionBytes(WireFn(l.fn)));
    ReadsUvarint(data, offset, line);
    var o1 := offset + |Encode(line)|;
    if l.fn.Some? {
      ReadsCachedFunction(data, o1, l.fn.value);
    } else {
      assert [0] + [] == FunctionBytes(None);
      FlagAt(data, o1, 0, []);
    }
  }

  lemma {:induction false} ReadsEntries(data: Bytes, offset: int, lines: seq<LocationLine>)
    requires At(data, offset, EntriesBytes(lines))
    ensures ReadEntries(data, offset, |lines|) == Some((lines, offset + |EntriesBytes(lines)|))
    decreases |lines|
  {
    hide EntryBytes, ReadEntry;
    if lines != [] {
      Split(data, offset, EntryBytes(lines[0]), EntriesBytes(lines[1..]));
      ReadsEntry(data, offset, lines[0]);
      ReadsEntries(data, offset + |EntryBytes(lines[0])|, lines[1..]);
      assert lines == [lines[0]] + lines[1..];
    }
  }

  lemma {:induction false} ReadsCache(data: Bytes, lines: Lines)
    requires At(data, 0, CacheBytes(lines))
    ensures ReadCache(data) == Some((lines, |CacheBytes(lines)|))
  {
    hide Encode, EntriesBytes, ReadUvarint, ReadEntries, At;
    Split(data, 0, Encode(|lines| as Uint64), EntriesBytes(lines));
    ReadsUvarint(data, 0, |lines| as Uint64);
    ReadsEntries(data, |Encode(|lines| as Uint64)|, lines);
  }

  /** Decoding the encoded lines gives them back and consumes all bytes. */
  lemma {:induction false} LinesRoundTrip(lines: Lines)
    ensures ReadCache(CacheBytes(lines)) == Some((lines, |CacheBytes(lines)|))
  {
    hide CacheBytes, ReadCache;
    WholeAt(CacheBytes(lines));
    ReadsCache(CacheBytes(lines), lines);
  }

  lemma WholeAt(data: Bytes)
    ensures At(data, 0, data)
  {
  }

  method DecodeLines(data: Bytes) returns (r: Option<seq<LocationLine>>)
    ensures r.Some? <==> ReadCache(data).Some?
    ensures r.Some? ==> r.value == ReadCache(data).value.0
  {
    hide ReadUvarint, ReadEntry;
    var count := ReadUvarint(data, 0);
    if count.None? {
      return None;
    }
    var n, offset := count.value.0 as int, count.value.1;
    var lines := [];
    ghost var whole := ReadEntries(data, offset, n);
    for i := 0 to n
      invariant whole.Some? <==> ReadEntries(data, offset, n - i).Some?
      invariant whole.Some? ==> whole.value.0 == lines + ReadEntries(data, offset, n - i).value.0
    {
      var line := ReadEntry(data, offset);
      if line.None? {
        return None;
      }
      lines := lines + [line.value.0];
      offset := line.value.1;
    }
    return Some(lines);
  }

  // Keys

  /** The lower-case hexadecimal digits of a number, most significant first. */
  function Hex(x: Uint64): (h: Bytes)
    ensures |h| >= 1 && SLASH !in h
    decreases x as int
  {
    if x < 16 then [Digit(x as int)] else Hex(x / 16) + [Digit((x % 16) as int)]
  }

  const SLASH: Byte := 0x2F

  function Digit(d: int): (b: Byte)
    requires 0 <= d < 16
    ensures b != SLASH
  {
    if d < 10 then (0x30 + d) as Byte else (0x61 + d - 10) as Byte
  }

  function MakeKey(buildID: Bytes, addr: Uint64): Bytes {
    buildID + [SLASH] + ([0x30, 0x78] + Hex(addr))
  }

  lemma {:induction false} HexInjective(x: Uint64, y: Uint64)
    requires Hex(x) == Hex(y)
    ensures x == y
    decreases x as int
  {
    var h := Hex(x);
    if x >= 16 && y >= 16 {
      assert h[..|h| - 1] == Hex(x / 16) == Hex(y / 16);
      assert h[|h| - 1] == Digit((x % 16) as int) == Digit((y % 16) as int);
      HexInjective(x / 16, y / 16);
    } else {
      assert h[|h| - 1] == Digit((x % 16) as int) == Digit((y % 16) as int);
      HexLength(x);
      HexLength(y);
    }
  }

  lemma HexLength(x: Uint64)
    ensures |Hex(x)| == 1 <==> x < 16
  {
  }

  /** The key of address 0x1f of the build id "b" reads b/0x1f. */
  lemma KeyReads(b: Bytes)
    requires b == [98]
    ensures MakeKey(b, 0x1F) == [98, 47, 48, 120, 49, 102]
  {
    assert Hex(0x1F) == Hex(1) + [102] && Hex(1) == [49];
  }

  /** The bytes of an entry of two lines, one with a function. */
  lemma {:induction false} EntryReads(lines: Lines)
    requires lines == [LocationLine(3, None), LocationLine(4, Some(CachedFunction(5, [110], [115, 121], [102])))]
    ensures CacheBytes(lines) == [2] + ([3, 0] + [4, 1, 5, 1, 110, 2, 115, 121, 1, 102])
  {
    EncodeSmall(1);
    EncodeSmall(2);
    EncodeSmall(3);
    EncodeSmall(4);
    EncodeSmall(5);
    hide Encode;
    assert lines[1..][0] == lines[1] && lines[1..][1..] == [];
    assert EntryBytes(lines[0]) == [3, 0];
    assert EntryBytes(lines[1]) == [4, 1, 5, 1, 110, 2, 115, 121, 1, 102];
    hide EntryBytes;
    assert EntriesBytes(lines[1..]) == EntryBytes(lines[1]) + [];
  }

  /** Equal keys come from the same build ID and address, even when build IDs contain slashes. */
  lemma {:induction false} KeyInjective(b1: Bytes, a1: Uint64, b2: Bytes, a2: Uint64)
    requires MakeKey(b1, a1) == MakeKey(b2, a2)
    ensures b1 == b2 && a1 == a2
  {
    var key := MakeKey(b1, a1);
    var t1, t2 := [0x30, 0x78] + Hex(a1), [0x30, 0x78] + Hex(a2);
    LastSlash(b1, t1, b2, t2);
    assert t1[2..] == Hex(a1) && t2[2..] == Hex(a2);
    HexInjective(a1, a2);
  }

  lemma {:induction false} LastSlash(b1: Bytes, t1: Bytes, b2: Bytes, t2: Bytes)
    requires SLASH !in t1 && SLASH !in t2 && b1 + [SLASH] + t1 == b2 + [SLASH] + t2
    ensures b1 == b2 && t1 == t2
  {
    var key := b1 + [SLASH] + t1;
    assert key[|b1|] == SLASH && key[|b2|] == SLASH;
    assert forall i :: |b1| < i < |key| ==> key[i] == t1[i - |b1| - 1];
    assert forall i :: |b2| < i < |key| ==> key[i] == t2[i - |b2| - 1];
    assert |b1| == |b2|;
    assert key[..|b1|] == b1 && key[..|b2|] == b2;
    assert key[|b1| + 1..] == t1 && key[|b2| + 1..] == t2;
  }

  // The cache and the cached liner

  datatype Result<+T> = Success(value: T) | Failure

  class BadgerCache {
    var db: map<Bytes, Bytes>

    constructor ()
      ensures db == map[]
    {
      db := map[];
    }

    /** The stored lines, if there are any; a failure stands for data that cannot be decoded. */
    method Get(buildID: Bytes, addr: Uint64) returns (r: Result<Option<seq<LocationLine>>>)
      ensures MakeKey(buildID, addr) !in db ==> r == Success(None)
      ensures MakeKey(buildID, addr) in db ==>
        var stored := ReadCache(db[MakeKey(buildID, addr)]);
        r == if stored.Some? then Success(Some(stored.value.0)) else Failure
    {
      var key := MakeKey(buildID, addr);
      if key !in db {
        return Success(None);
      }
      var lines := DecodeLines(db[key]);
      return if lines.Some? then Success(Some(lines.value)) else Failure;
    }

    method Set(buildID: Bytes, addr: Uint64, lines: Lines)
      modifies this
      ensures db == old(db)[MakeKey(buildID, addr) := CacheBytes(lines)]
    {
      var data := EncodeLines(lines);
      db := db[MakeKey(buildID, addr) := data];
    }
  }

  /** What the symbol tables of all build IDs say: whether a liner can be made and what it resolves. */
  datatype Resolver = Resolver(create: Bytes -> bool, resolve: (Bytes, Uint64) -> Result<Lines>)

  /** Every stored entry holds what the resolver says for its build ID and address. */
  ghost predicate Consistent(db: map<Bytes, Bytes>, s: Resolver) {
    forall key :: key in db ==> exists b, a :: key == MakeKey(b, a) && Stores(s, b, a, db[key])
  }

  ghost predicate Stores(s: Resolver, b: Bytes, a: Uint64, data: Bytes) {
    s.create(b) && s.resolve(b, a).Success? && data == CacheBytes(s.resolve(b, a).value)
  }

  lemma {:induction false} StoredLines(db: map<Bytes, Bytes>, s: Resolver, b: Bytes, a: Uint64)
    requires Consistent(db, s) && MakeKey(b, a) in db
    ensures Stores(s, b, a, db[MakeKey(b, a)])
    ensures ReadCache(db[MakeKey(b, a)]).Some? && ReadCache(db[MakeKey(b, a)]).value.0 == s.resolve(b, a).value
  {
    var key := MakeKey(b, a);
    var b', a' :| key == MakeKey(b', a') && Stores(s, b', a', db[key]);
    KeyInjective(b, a, b', a');
    LinesRoundTrip(s.resolve(b, a).value);
  }

  lemma {:induction false} ConsistentSet(db: map<Bytes, Bytes>, s: Resolver, b: Bytes, a: Uint64)
    requires Consistent(db, s) && s.create(b) && s.resolve(b, a).Success?
    ensures Consistent(db[MakeKey(b, a) := CacheBytes(s.resolve(b, a).value)], s)
  {
    hide MakeKey, CacheBytes;
    var db' := db[MakeKey(b, a) := CacheBytes(s.resolve(b, a).value)];
    assert Stores(s, b, a, db'[MakeKey(b, a)]);
  }

  class CachedLiner {
    const buildID: Bytes
    const cache: BadgerCache
    // Whether the concrete liner was created.
    var liner: bool

    constructor (buildID: Bytes, cache: BadgerCache)
      ensures this.buildID == buildID && this.cache == cache && !liner
    {
      this.buildID, this.cache, this.liner := buildID, cache, false;
    }

    /**
     The lines of a program counter, exactly as the concrete liner resolves them, whatever calls for
     this or other build IDs went before. Failures are not cached.
     */
    method PCToLines(pc: Uint64, s: Resolver) returns (r: Result<seq<LocationLine>>)
      requires Consistent(cache.db, s) && (liner ==> s.create(buildID))
      modifies this, cache
      ensures Consistent(cache.db, s) && (liner ==> s.create(buildID))
      ensures r == if s.create(buildID) && s.resolve(buildID, pc).Success?
                   then Success(s.resolve(buildID, pc).value) else Failure
      ensures old(cache.db).Keys <= cache.db.Keys <= old(cache.db).Keys + {MakeKey(buildID, pc)}
    {
      hide Consistent, MakeKey, CacheBytes, ReadCache;
      var cached := cache.Get(buildID, pc);
      if MakeKey(buildID, pc) in cache.db {
        StoredLines(cache.db, s, buildID, pc);
      }
      if cached.Failure? {
        return Failure;
      }
      if cached.value.Some? {
        return Success(cached.value.value);
      }
      if !liner {
        if !s.create(buildID) {
          return Failure;
        }
        liner := true;
      }
      var lines := s.resolve(buildID, pc);
      if lines.Failure? {
        return Failure;
      }
      ConsistentSet(cache.db, s, buildID, pc);
      cache.Set(buildID, pc, lines.value);
      return Success(lines.value);
    }
  }
}
