/**
 The choice of the ELF segment a mapped address belongs to, and the translation of the address to the
 one in the symbol table, in wrapping 64-bit arithmetic.
 */
module AddressNormalizer {
  import opened Options

  type U64 = x: int | 0 <= x < 0x1_0000_0000_0000_0000

  function Wrap(x: int): U64 {
    x % 0x1_0000_0000_0000_0000
  }

  const PAGE_SIZE: U64 := 4096

  datatype ProgHeader = ProgHeader(off: U64, vaddr: U64, memsz: U64)
  datatype Mapping = Mapping(start: U64, end: U64, offset: U64)
  datatype ElfType = Exec | Rel | Dyn | Other

  /** The segments of a file; the index of the one with the code is -1 if there is none. */
  datatype ExecutableInfo = ExecutableInfo(elfType: ElfType, text: int, headers: seq<ProgHeader>)

  datatype Result<+T> = Ok(value: T) | Err

  ghost predicate TextInRange(ei: ExecutableInfo) {
    -1 <= ei.text < |ei.headers|
  }

  /** Whether a segment may be the one behind a mapping of the given file range. */
  predicate Matches(p: ProgHeader, mapOff: U64, mapSz: U64) {
    var mapLimit, segLimit := Wrap(mapOff + mapSz), Wrap(p.off + p.memsz);
    && mapOff < segLimit && p.off < mapLimit
    && !(mapOff < (if p.off > p.vaddr % PAGE_SIZE then p.off - p.vaddr % PAGE_SIZE else 0))
    && !(mapOff > p.off && segLimit < Wrap(mapOff + PAGE_SIZE) && mapLimit >= Wrap(segLimit + PAGE_SIZE))
  }

  /** The positions of the matching segments among the first `n`, in order. */
  function Candidates(headers: seq<ProgHeader>, n: nat, mapOff: U64, mapSz: U64): seq<nat>
    requires n <= |headers|
  {
    if n == 0 then []
    else Candidates(headers, n - 1, mapOff, mapSz) + (if Matches(headers[n - 1], mapOff, mapSz) then [n - 1] else [])
  }

  lemma {:induction false} CandidatesMatch(headers: seq<ProgHeader>, n: nat, mapOff: U64, mapSz: U64)
    requires n <= |headers|
    ensures forall i :: i in Candidates(headers, n, mapOff, mapSz) <==> 0 <= i < n && Matches(headers[i], mapOff, mapSz)
    ensures Increasing(Candidates(headers, n, mapOff, mapSz))
  {
    hide Matches;
    if n > 0 {
      CandidatesMatch(headers, n - 1, mapOff, mapSz);
      var r := Candidates(headers, n - 1, mapOff, mapSz);
      assert forall i :: 0 <= i < |r| ==> r[i] in r;
    }
  }

  ghost predicate Increasing(s: seq<nat>) {
    forall i, j :: 0 <= i < j < |s| ==> s[i] < s[j]
  }

  method ProgramHeadersForMapping(headers: seq<ProgHeader>, mapOff: U64, mapSz: U64) returns (r: seq<nat>)
    ensures r == Candidates(headers, |headers|, mapOff, mapSz)
  {
    var mapLimit := Wrap(mapOff + mapSz);
    r := [];
    for i := 0 to |headers|
      invariant r == Candidates(headers, i, mapOff, mapSz)
    {
      var p := headers[i];
      var segLimit := Wrap(p.off + p.memsz);
      assert Candidates(headers, i + 1, mapOff, mapSz) == r + (if Matches(p, mapOff, mapSz) then [i] else []);
      if mapOff < segLimit && p.off < mapLimit {
        var aligned: U64 := 0;
        if p.off > p.vaddr % PAGE_SIZE {
          aligned := p.off - p.vaddr % PAGE_SIZE;
        }
        if mapOff < aligned {
          continue;
        }
        if mapOff > p.off && segLimit < Wrap(mapOff + PAGE_SIZE) && mapLimit >= Wrap(segLimit + PAGE_SIZE) {
          continue;
        }
        r := r + [i];
      }
    }
  }

  predicate Contains(p: ProgHeader, fileOffset: U64) {
    p.off <= fileOffset < Wrap(p.off + p.memsz)
  }

  /** Exactly one of the candidates contains the offset, and it is this one. */
  ghost predicate OnlyOne(headers: seq<ProgHeader>, candidates: seq<nat>, fileOffset: U64, i: nat) {
    && i in candidates && i < |headers| && Contains(headers[i], fileOffset)
    && forall j :: j in candidates && j < |headers| && Contains(headers[j], fileOffset) ==> j == i
  }

  method HeaderForFileOffset(headers: seq<ProgHeader>, candidates: seq<nat>, fileOffset: U64) returns (r: Result<nat>)
    requires forall k :: 0 <= k < |candidates| ==> candidates[k] < |headers|
    requires Increasing(candidates)
    ensures r.Ok? ==> OnlyOne(headers, candidates, fileOffset, r.value)
    ensures r.Err? ==> forall i :: !OnlyOne(headers, candidates, fileOffset, i)
  {
    var ph: Option<nat> := None;
    for k := 0 to |candidates|
      invariant ph.Some? ==> OnlyOne(headers, candidates[..k], fileOffset, ph.value)
      invariant ph.None? ==> forall i :: i in candidates[..k] ==> !Contains(headers[i], fileOffset)
    {
      var h := candidates[k];
      assert candidates[..k + 1] == candidates[..k] + [h];
      if Contains(headers[h], fileOffset) {
        if ph.Some? {
          assert ph.value in candidates && h in candidates && ph.value != h;
          return Err;
        }
        ph := Some(h);
      }
    }
    assert candidates[..|candidates|] == candidates;
    if ph.None? {
      return Err;
    }
    r := Ok(ph.value);
  }

  /** The segment an address belongs to: none where there is nothing to choose from, or an error. */
  ghost function HeaderOf(ei: ExecutableInfo, m: Mapping, addr: U64): Result<Option<nat>>
    requires TextInRange(ei)
  {
    if m.start >= m.end || m.end >= 0x8000_0000_0000_0000 then Ok(if ei.text == -1 then None else Some(ei.text))
    else if ei.headers == [] then Ok(None)
    else
      var c := Candidates(ei.headers, |ei.headers|, m.offset, m.end - m.start);
      if c == [] then Err
      else if |c| == 1 then Ok(Some(c[0]))
      else if i: nat :| OnlyOne(ei.headers, c, FileOffset(m, addr), i) then Ok(Some(i))
      else Err
  }

  function FileOffset(m: Mapping, addr: U64): U64 {
    Wrap(addr - m.start + m.offset)
  }

  method FindProgramHeader(ei: ExecutableInfo, m: Mapping, addr: U64) returns (r: Result<Option<nat>>)
    requires TextInRange(ei)
    ensures r == HeaderOf(ei, m, addr)
  {
    hide Candidates, Contains;
    if m.start >= m.end || m.end >= 0x8000_0000_0000_0000 {
      return Ok(if ei.text == -1 then None else Some(ei.text));
    }
    if |ei.headers| == 0 {
      return Ok(None);
    }
    var headers := ProgramHeadersForMapping(ei.headers, m.offset, m.end - m.start);
    CandidatesMatch(ei.headers, |ei.headers|, m.offset, m.end - m.start);
    assert forall k :: 0 <= k < |headers| ==> headers[k] in headers;
    if |headers| == 0 {
      return Err;
    }
    if |headers| == 1 {
      return Ok(Some(headers[0]));
    }
    var h := HeaderForFileOffset(ei.headers, headers, FileOffset(m, addr));
    if h.Err? {
      return Err;
    }
    r := Ok(Some(h.value));
  }

  /** What is subtracted from an address, once its segment is known. */
  function Base(ei: ExecutableInfo, m: Mapping, header: Option<nat>): Result<U64>
    requires header.Some? ==> header.value < |ei.headers|
  {
    if header.None? then Ok(0)
    else if m.start == 0 && m.offset == 0 && (m.end == 0xFFFF_FFFF_FFFF_FFFF || m.end == 0) then Ok(0)
    else
      var h := ei.headers[header.value];
      match ei.elfType
      case Exec => Ok(Wrap(m.start - m.offset + h.off - h.vaddr))
      case Rel => if m.offset != 0 then Err else Ok(m.start)
      case Dyn => Ok(Wrap(m.start - m.offset + h.off - h.vaddr))
      case Other => Err
  }

  lemma {:induction false} HeaderInRange(ei: ExecutableInfo, m: Mapping, addr: U64)
    requires TextInRange(ei)
    ensures
      var h := HeaderOf(ei, m, addr);
      h.Ok? && h.value.Some? ==> h.value.value < |ei.headers|
  {
    if m.start < m.end {
      CandidatesMatch(ei.headers, |ei.headers|, m.offset, m.end - m.start);
      var c := Candidates(ei.headers, |ei.headers|, m.offset, m.end - m.start);
      assert forall k :: 0 <= k < |c| ==> c[k] in c;
    }
  }

  ghost function Normalized(ei: ExecutableInfo, m: Mapping, addr: U64): Result<U64>
    requires TextInRange(ei)
  {
    HeaderInRange(ei, m, addr);
    match HeaderOf(ei, m, addr)
    case Err => Err
    case Ok(header) =>
      match Base(ei, m, header)
      case Err => Err
      case Ok(base) => Ok(Wrap(addr - base))
  }

  /** An error leaves the address as it is. */
  method NormalizeAddress(addr: U64, ei: ExecutableInfo, m: Mapping) returns (r: U64, ok: bool)
    requires TextInRange(ei)
    ensures ok == Normalized(ei, m, addr).Ok?
    ensures r == if ok then Normalized(ei, m, addr).value else addr
  {
    HeaderInRange(ei, m, addr);
    hide HeaderOf;
    var header := FindProgramHeader(ei, m, addr);
    if header.Err? {
      return addr, false;
    }
    var base := Base(ei, m, header.value);
    if base.Err? {
      return addr, false;
    }
    return Wrap(addr - base.value), true;
  }

  // What normalization means.

  /** A segment whose file range and address range do not wrap. */
  ghost predicate Bounded(p: ProgHeader) {
    p.off + p.memsz < 0x1_0000_0000_0000_0000 && p.vaddr + p.memsz <= 0x1_0000_0000_0000_0000
  }

  /** The mapping is a piece of a user space file, so that its segment is searched. */
  ghost predicate Searched(ei: ExecutableInfo, m: Mapping) {
    m.start < m.end < 0x8000_0000_0000_0000 && ei.headers != []
  }

  lemma {:induction false} WrapShift(x: int, k: int)
    ensures Wrap(Wrap(x) + k) == Wrap(x + k) && Wrap(k - Wrap(x)) == Wrap(k - x)
  {
    var q := x / 0x1_0000_0000_0000_0000;
    WrapMultiple(Wrap(x) + k, q);
    WrapMultiple(k - x, q);
    assert x == Wrap(x) + 0x1_0000_0000_0000_0000 * q;
  }

  lemma {:induction false} WrapMultiple(x: int, q: int)
    ensures Wrap(x + 0x1_0000_0000_0000_0000 * q) == Wrap(x)
  {
    var p := x / 0x1_0000_0000_0000_0000;
    assert x + 0x1_0000_0000_0000_0000 * q == 0x1_0000_0000_0000_0000 * (p + q) + Wrap(x);
  }

  /** For executables and shared objects the result is the address of the same byte of the segment. */
  lemma {:induction false} NormalizedIsFileByte(ei: ExecutableInfo, m: Mapping, addr: U64, i: nat)
    requires TextInRange(ei) && Searched(ei, m) && ei.elfType in {Exec, Dyn}
    requires HeaderOf(ei, m, addr) == Ok(Some(i)) && i < |ei.headers|
    ensures Normalized(ei, m, addr) == Ok(Wrap(FileOffset(m, addr) - ei.headers[i].off + ei.headers[i].vaddr))
  {
    hide HeaderOf;
    var h := ei.headers[i];
    WrapShift(m.start - m.offset + h.off - h.vaddr, addr);
    WrapShift(addr - m.start + m.offset, h.vaddr - h.off);
    assert addr - (m.start - m.offset + h.off - h.vaddr) == addr - m.start + m.offset + (h.vaddr - h.off);
  }

  lemma WrapOnce(x: int)
    requires -0x1_0000_0000_0000_0000 <= x < 0x2_0000_0000_0000_0000
    ensures Wrap(x) ==
      if x < 0 then x + 0x1_0000_0000_0000_0000
      else if x >= 0x1_0000_0000_0000_0000 then x - 0x1_0000_0000_0000_0000
      else x
  {
  }

  /** A byte of a bounded segment has an address in the segment, and no other byte has. */
  lemma {:induction false} ByteInSegment(h: ProgHeader, fileOffset: U64)
    requires Bounded(h)
    ensures h.vaddr <= Wrap(fileOffset - h.off + h.vaddr) < h.vaddr + h.memsz <==> Contains(h, fileOffset)
    ensures Contains(h, fileOffset) ==> Wrap(fileOffset - h.off + h.vaddr) == fileOffset - h.off + h.vaddr
  {
    WrapOnce(h.off + h.memsz);
    WrapOnce(fileOffset - h.off + h.vaddr);
    hide Wrap;
  }

  /** The result lies in the chosen segment exactly if the segment holds the byte the address maps. */
  lemma {:induction false} NormalizedInSegment(ei: ExecutableInfo, m: Mapping, addr: U64, i: nat)
    requires TextInRange(ei) && Searched(ei, m) && ei.elfType in {Exec, Dyn}
    requires HeaderOf(ei, m, addr) == Ok(Some(i)) && i < |ei.headers| && Bounded(ei.headers[i])
    ensures
      var (r, h) := (Normalized(ei, m, addr), ei.headers[i]);
      r.Ok? && (h.vaddr <= r.value < h.vaddr + h.memsz <==> Contains(h, FileOffset(m, addr)))
  {
    hide HeaderOf, Wrap, Normalized, Contains, Bounded, FileOffset;
    NormalizedIsFileByte(ei, m, addr, i);
    ByteInSegment(ei.headers[i], FileOffset(m, addr));
  }

  ghost predicate Ambiguous(ei: ExecutableInfo, m: Mapping) {
    Searched(ei, m) && |Candidates(ei.headers, |ei.headers|, m.offset, m.end - m.start)| >= 2
  }

  /** The position is that of the only matching segment with the byte an address maps. */
  ghost predicate OnlyHolder(ei: ExecutableInfo, m: Mapping, addr: U64, i: nat)
    requires Searched(ei, m)
  {
    OnlyOne(ei.headers, Candidates(ei.headers, |ei.headers|, m.offset, m.end - m.start), FileOffset(m, addr), i)
  }

  lemma {:induction false} AmbiguousHeader(ei: ExecutableInfo, m: Mapping, addr: U64)
    requires TextInRange(ei) && Ambiguous(ei, m)
    ensures forall i: nat :: OnlyHolder(ei, m, addr, i) <==> HeaderOf(ei, m, addr) == Ok(Some(i))
    ensures (forall i: nat :: !OnlyHolder(ei, m, addr, i)) <==> HeaderOf(ei, m, addr) == Err
  {
    hide Candidates, Contains;
    assert HeaderOf(ei, m, addr).Ok? ==> HeaderOf(ei, m, addr).value.Some?;
  }

  /**
   With several matching segments an address is accepted exactly if one segment alone contains its byte;
   the result is that byte's address in this segment.
   */
  lemma {:induction false} AmbiguousIsUnique(ei: ExecutableInfo, m: Mapping, addr: U64, i: nat)
    requires TextInRange(ei) && Ambiguous(ei, m) && ei.elfType in {Exec, Dyn}
    requires forall p :: p in ei.headers ==> Bounded(p)
    ensures Normalized(ei, m, addr).Ok? <==> exists k: nat :: OnlyHolder(ei, m, addr, k)
    ensures OnlyHolder(ei, m, addr, i) ==>
      var (r, h) := (Normalized(ei, m, addr), ei.headers[i]);
      r == Ok(FileOffset(m, addr) - h.off + h.vaddr) && h.vaddr <= r.value < h.vaddr + h.memsz
  {
    AmbiguousHeader(ei, m, addr);
    hide OnlyHolder, HeaderOf, Candidates, Contains, FileOffset, Wrap, Bounded;
    HeaderInRange(ei, m, addr);
    if HeaderOf(ei, m, addr).Ok? {
      var k := HeaderOf(ei, m, addr).value.value;
      assert OnlyHolder(ei, m, addr, k);
      HolderContains(ei, m, addr, k);
      NormalizedIsFileByte(ei, m, addr, k);
      ByteInSegment(ei.headers[k], FileOffset(m, addr));
      hide Normalized, Ambiguous;
    }
  }

  lemma HolderContains(ei: ExecutableInfo, m: Mapping, addr: U64, i: nat)
    requires Searched(ei, m) && OnlyHolder(ei, m, addr, i)
    ensures i < |ei.headers| && Contains(ei.headers[i], FileOffset(m, addr))
  {
  }

  lemma {:induction false} WrapDifference(a: int, b: int, base: int)
    ensures Wrap(Wrap(a - base) - Wrap(b - base)) == Wrap(a - b)
  {
    hide Wrap;
    WrapShift(b - base, Wrap(a - base));
    WrapShift(a - base, -(b - base));
    assert a - base - (b - base) == a - b;
  }

  lemma {:induction false} DistancesKept(ei: ExecutableInfo, m: Mapping, a: U64, b: U64, i: nat)
    requires TextInRange(ei) && Searched(ei, m) && ei.elfType in {Exec, Dyn} && i < |ei.headers|
    requires HeaderOf(ei, m, a) == HeaderOf(ei, m, b) == Ok(Some(i))
    ensures Normalized(ei, m, a).Ok? && Normalized(ei, m, b).Ok?
    ensures Wrap(Normalized(ei, m, a).value - Normalized(ei, m, b).value) == Wrap(a - b)
  {
    hide HeaderOf, Wrap;
    var h := ei.headers[i];
    var base := Wrap(m.start - m.offset + h.off - h.vaddr);
    assert Normalized(ei, m, a) == Ok(Wrap(a - base)) && Normalized(ei, m, b) == Ok(Wrap(b - base));
    WrapDifference(a, b, base);
  }

  /** With a single matching segment the byte is not checked: the result can lie outside of it. */
  lemma {:induction false} SingleSegmentUnchecked()
    ensures
      var m := Mapping(0x1000, 0x3000, 0);
      var ei := ExecutableInfo(Dyn, 0, [ProgHeader(0, 0, 0x1000)]);
      && HeaderOf(ei, m, 0x2800) == Ok(Some(0)) && Normalized(ei, m, 0x2800) == Ok(0x1800)
      && !Contains(ei.headers[0], FileOffset(m, 0x2800))
  {
    var ei := ExecutableInfo(Dyn, 0, [ProgHeader(0, 0, 0x1000)]);
    assert Candidates(ei.headers, 0, 0, 0x2000) == [];
    assert Candidates(ei.headers, 1, 0, 0x2000) == [0];
  }

  /**
   A segment matches if it overlaps the mapping's file range, does not begin on a later page than the
   mapping, and is not one whose last page alone the mapping reaches before going on for a page or more.
   */
  lemma MatchesExactly(p: ProgHeader, mapOff: U64, mapSz: U64)
    ensures
      var mapLimit := (mapOff + mapSz) % 0x1_0000_0000_0000_0000;
      var segLimit := (p.off + p.memsz) % 0x1_0000_0000_0000_0000;
      Matches(p, mapOff, mapSz) <==>
        && mapOff < segLimit && p.off < mapLimit
        && p.off - p.vaddr % 4096 <= mapOff
        && (|| mapOff <= p.off
            || (mapOff + 4096) % 0x1_0000_0000_0000_0000 <= segLimit
            || mapLimit < (segLimit + 4096) % 0x1_0000_0000_0000_0000)
  {
  }

  /** Exactly the i-th segment matches the mapping. */
  ghost predicate OnlyMatch(ei: ExecutableInfo, m: Mapping, i: nat)
    requires Searched(ei, m)
  {
    && i < |ei.headers|
    && forall k :: 0 <= k < |ei.headers| ==> (Matches(ei.headers[k], m.offset, m.end - m.start) <==> k == i)
  }

  lemma MatchesOnly(ei: ExecutableInfo, m: Mapping, i: nat)
    requires Searched(ei, m) && OnlyMatch(ei, m, i)
    ensures i < |ei.headers|
    ensures forall k :: 0 <= k < |ei.headers| ==> (Matches(ei.headers[k], m.offset, m.end - m.start) <==> k == i)
  {
  }

  /** If only the i-th segment matches, it is the only candidate once it was looked at. */
  lemma {:induction false} OneCandidate(headers: seq<ProgHeader>, n: nat, mapOff: U64, mapSz: U64, i: nat)
    requires n <= |headers| && forall k :: 0 <= k < n ==> (Matches(headers[k], mapOff, mapSz) <==> k == i)
    ensures Candidates(headers, n, mapOff, mapSz) == if i < n then [i] else []
  {
    hide Matches;
    if n > 0 {
      OneCandidate(headers, n - 1, mapOff, mapSz, i);
    }
  }

  /** Without a choice of segments: kernel ranges, files without segments, none that matches, just one. */
  lemma {:induction false} NothingToChoose(ei: ExecutableInfo, m: Mapping, addr: U64)
    requires TextInRange(ei)
    ensures m.start >= m.end || m.end >= 0x8000_0000_0000_0000 ==>
      HeaderOf(ei, m, addr) == Ok(if ei.text < 0 then None else Some(ei.text))
    ensures m.start < m.end < 0x8000_0000_0000_0000 && ei.headers == [] ==> HeaderOf(ei, m, addr) == Ok(None)
    ensures Searched(ei, m) ==>
      && ((forall p :: p in ei.headers ==> !Matches(p, m.offset, m.end - m.start)) ==> HeaderOf(ei, m, addr) == Err)
      && forall i: nat :: OnlyMatch(ei, m, i) ==> HeaderOf(ei, m, addr) == Ok(Some(i))
  {
    hide Matches, Candidates, OnlyMatch, Contains;
    if Searched(ei, m) {
      if forall p :: p in ei.headers ==> !Matches(p, m.offset, m.end - m.start) {
        assert forall k :: 0 <= k < |ei.headers| ==> ei.headers[k] in ei.headers;
        OneCandidate(ei.headers, |ei.headers|, m.offset, m.end - m.start, |ei.headers|);
      }
      forall i: nat | OnlyMatch(ei, m, i) ensures HeaderOf(ei, m, addr) == Ok(Some(i)) {
        MatchesOnly(ei, m, i);
        OneCandidate(ei.headers, |ei.headers|, m.offset, m.end - m.start, i);
      }
    }
  }

  /** Without a segment, and in a mapping of everything, addresses stay; other kinds of files differ. */
  lemma {:induction false} NormalizedOtherwise(ei: ExecutableInfo, m: Mapping, addr: U64)
    requires TextInRange(ei)
    ensures HeaderOf(ei, m, addr) == Err ==> Normalized(ei, m, addr) == Err
    ensures HeaderOf(ei, m, addr) == Ok(None) ==> Normalized(ei, m, addr) == Ok(addr)
    ensures HeaderOf(ei, m, addr).Ok? && m.start == m.offset == 0 && (m.end == 0 || m.end == 0xFFFF_FFFF_FFFF_FFFF) ==>
      Normalized(ei, m, addr) == Ok(addr)
    ensures HeaderOf(ei, m, addr).Ok? && HeaderOf(ei, m, addr).value.Some? && Searched(ei, m) ==>
      && (ei.elfType == Other ==> Normalized(ei, m, addr) == Err)
      && (ei.elfType == Rel ==>
            Normalized(ei, m, addr) == if m.offset == 0 then Ok((addr - m.start) % 0x1_0000_0000_0000_0000) else Err)
  {
    HeaderInRange(ei, m, addr);
    hide HeaderOf;
    WrapOnce(addr);
  }
}
