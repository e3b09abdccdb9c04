/** Column widths chosen by the trimmer, and what storing a 64-bit value in them keeps. */
module Columns {
  import opened Options

  /** An entry of an optional column: null entries still hold data. */
  datatype Cell = Cell(valid: bool, data: int)

  datatype UnsignedType = Uint8 | Uint16 | Uint32 | Uint64

  function Capacity(w: UnsignedType): int {
    match w
    case Uint8 => 0x100
    case Uint16 => 0x1_0000
    case Uint32 => 0x1_0000_0000
    case Uint64 => 0x1_0000_0000_0000_0000
  }

  /** The conversion of a signed 64-bit value to an unsigned one. */
  function ToUint64(x: int): int {
    x % 0x1_0000_0000_0000_0000
  }

  function SmallestUnsignedTypeFor(largest: int): UnsignedType {
    if largest < 0xFF then Uint8
    else if largest < 0xFFFF then Uint16
    else if largest < 0xFFFF_FFFF then Uint32
    else Uint64
  }

  /** The conversion to the column's type. */
  function Store(w: UnsignedType, x: int): int {
    x % Capacity(w)
  }

  function StoreCell(w: UnsignedType, c: Cell): Option<int> {
    if c.valid then Some(Store(w, c.data)) else None
  }

  function Max(a: int, b: int): int {
    if b > a then b else a
  }

  /** A value no larger than the largest one seen is stored without loss. */
  lemma {:induction false} StoreLossless(largest: int, x: int)
    requires ToUint64(x) <= largest
    ensures Store(SmallestUnsignedTypeFor(largest), x) == ToUint64(x)
    ensures 0 <= x < 0x1_0000_0000_0000_0000 ==> ToUint64(x) == x
  {
    var q, u := x / 0x1_0000_0000_0000_0000, ToUint64(x);
    match SmallestUnsignedTypeFor(largest)
    case Uint8 => Remainder(x, u, 0x100_0000_0000_0000 * q, 0x100);
    case Uint16 => Remainder(x, u, 0x1_0000_0000_0000 * q, 0x1_0000);
    case Uint32 => Remainder(x, u, 0x1_0000_0000 * q, 0x1_0000_0000);
    case Uint64 =>
  }

  /** The narrowest type whose largest value is above the given one, if any is; storing keeps the lowest bits. */
  lemma NarrowestType(largest: int, x: int)
    ensures SmallestUnsignedTypeFor(largest) == Uint8 <==> largest < 255
    ensures SmallestUnsignedTypeFor(largest) == Uint16 <==> 255 <= largest < 65535
    ensures SmallestUnsignedTypeFor(largest) == Uint32 <==> 65535 <= largest < 4294967295
    ensures SmallestUnsignedTypeFor(largest) == Uint64 <==> 4294967295 <= largest
    ensures Store(Uint8, x) == x % 256 && Store(Uint16, x) == x % 65536 && Store(Uint32, x) == x % 4294967296
    ensures Store(Uint64, x) == x % 0x1_0000_0000_0000_0000 == ToUint64(x)
  {
  }

  lemma {:induction false} Remainder(x: int, u: int, k: int, m: int)
    requires 0 <= u < m && x == m * k + u
    ensures x % m == u
  {
    var d := x / m - k;
    assert m * d == m * (x / m) - m * k;
    Multiples(m, d);
  }

  lemma {:induction false} Multiples(m: int, d: int)
    requires m > 0
    ensures d >= 1 ==> m * d >= m
    ensures d <= -1 ==> m * d <= -m
  {
    assert m * d == m + m * (d - 1) == -m + m * (d + 1);
  }

  // The diff column.

  datatype SignedType = Int8 | Int16 | Int32 | Int64

  /** The smallest value of the type; the largest one is below its negation. */
  function Lowest(w: SignedType): int {
    match w
    case Int8 => -0x80
    case Int16 => -0x8000
    case Int32 => -0x8000_0000
    case Int64 => -0x8000_0000_0000_0000
  }

  function SmallestSignedTypeFor(smallest: int, largest: int): SignedType {
    if largest < 0x7F && smallest > -0x80 then Int8
    else if largest < 0x7FFF && smallest > -0x8000 then Int16
    else if largest < 0x7FFF_FFFF && smallest > -0x8000_0000 then Int32
    else Int64
  }

  /** The conversion to a signed type: modulo its size, into its range. */
  function StoreSigned(w: SignedType, x: int): int {
    (x - Lowest(w)) % (-2 * Lowest(w)) + Lowest(w)
  }

  /** The narrowest signed type whose largest value is above the one bound and whose smallest is below the other. */
  lemma NarrowestSignedType(smallest: int, largest: int)
    ensures SmallestSignedTypeFor(smallest, largest) == Int8 <==> -128 < smallest && largest < 127
    ensures SmallestSignedTypeFor(smallest, largest) in {Int8, Int16} <==> -32768 < smallest && largest < 32767
    ensures SmallestSignedTypeFor(smallest, largest) == Int64 <==> !(-2147483648 < smallest && largest < 2147483647)
  {
  }

  /** A stored diff lies in the range of its type and differs from the diff by a multiple of the type's size. */
  lemma StoredSigned(w: SignedType, x: int)
    ensures Lowest(w) <= StoreSigned(w, x) < -Lowest(w)
    ensures (x - StoreSigned(w, x)) % (-2 * Lowest(w)) == 0
    ensures Lowest(Int8) == -128 && Lowest(Int16) == -32768 && Lowest(Int32) == -2147483648
  {
  }

  predicate FitsInt64(diffs: seq<int>) {
    forall i :: 0 <= i < |diffs| ==> Lowest(Int64) <= diffs[i] < -Lowest(Int64)
  }

  /** The largest diff, or zero if none is above it. */
  ghost predicate MeasuredAs(diffs: seq<int>, largest: int) {
    0 <= largest && (forall i :: 0 <= i < |diffs| ==> diffs[i] <= largest) && (largest == 0 || largest in diffs)
  }

  /** The column shows every diff as it is. */
  ghost predicate KeptExactly(diffs: seq<int>, largest: int) {
    forall i :: 0 <= i < |diffs| ==> StoreSigned(SmallestSignedTypeFor(largest, largest), diffs[i]) == diffs[i]
  }

  /** Both bounds start at zero and both are raised: no bound from below is measured. */
  method MeasureDiffs(diffs: seq<int>) returns (smallest: int, largest: int)
    ensures smallest == largest && MeasuredAs(diffs, largest)
  {
    smallest, largest := 0, 0;
    for k := 0 to |diffs|
      invariant smallest == largest && 0 <= largest
      invariant forall i :: 0 <= i < k ==> diffs[i] <= largest
      invariant largest == 0 || largest in diffs[..k]
    {
      assert diffs[..k + 1] == diffs[..k] + [diffs[k]];
      largest := Max(largest, diffs[k]);
      smallest := Max(smallest, diffs[k]);
    }
    assert diffs[..|diffs|] == diffs;
  }

  lemma StoreSignedExactly(w: SignedType, x: int)
    requires x < -Lowest(w)
    ensures StoreSigned(w, x) == x <==> Lowest(w) <= x
  {
  }

  /** The column keeps all diffs exactly if none is below the range of the type chosen for the largest one. */
  lemma {:induction false} DiffsKeptExactly(diffs: seq<int>, largest: int)
    requires FitsInt64(diffs) && MeasuredAs(diffs, largest)
    ensures KeptExactly(diffs, largest) <==>
      forall i :: 0 <= i < |diffs| ==> Lowest(SmallestSignedTypeFor(largest, largest)) <= diffs[i]
  {
    var w := SmallestSignedTypeFor(largest, largest);
    forall i | 0 <= i < |diffs| ensures StoreSigned(w, diffs[i]) == diffs[i] <==> Lowest(w) <= diffs[i] {
      StoreSignedExactly(w, diffs[i]);
    }
    hide StoreSigned;
  }

  /**
   A profile whose only diff is -200: whatever largest diff is measured, the column shows a growth by 56.
   */
  lemma {:induction false} LossOfDiff(diffs: seq<int>, largest: int)
    requires diffs == [-200] && MeasuredAs(diffs, largest)
    ensures !KeptExactly(diffs, largest) && StoreSigned(SmallestSignedTypeFor(largest, largest), diffs[0]) == 56
  {
    assert diffs[0] == -200 && largest == 0;
    DiffsKeptExactly(diffs, largest);
  }
}
