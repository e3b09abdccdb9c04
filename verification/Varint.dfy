/** Base-128 varints: the library encoding, its decoder and the size function used to allocate buffers. */
module Varint {
  newtype Byte = b: int | 0 <= b < 0x100
  newtype Uint64 = u: int | 0 <= u < 0x1_0000_0000_0000_0000
  newtype Int64 = i: int | -0x8000_0000_0000_0000 <= i < 0x8000_0000_0000_0000

  type Bytes = seq<Byte>

  /** A byte string short enough for its length to be a signed 64-bit number. */
  type Text = s: Bytes | |s| < 0x8000_0000_0000_0000

  /** Conversions keep the value modulo 2^64. */
  function ToUint64(i: Int64): (u: Uint64)
    ensures (u as int - i as int) % 0x1_0000_0000_0000_0000 == 0
  {
    if i < 0 then (i as int + 0x1_0000_0000_0000_0000) as Uint64 else i as int as Uint64
  }

  function ToInt64(u: Uint64): (i: Int64)
    ensures (i as int - u as int) % 0x1_0000_0000_0000_0000 == 0
  {
    if u < 0x8000_0000_0000_0000 then u as int as Int64 else (u as int - 0x1_0000_0000_0000_0000) as Int64
  }

  /** Wrapping addition and subtraction. */
  function Add(a: Uint64, b: Uint64): Uint64 {
    ((a as int + b as int) % 0x1_0000_0000_0000_0000) as Uint64
  }

  function Sub(a: Uint64, b: Uint64): Uint64 {
    ((a as int - b as int) % 0x1_0000_0000_0000_0000) as Uint64
  }

  lemma {:induction false} AddSub(a: Uint64, b: Uint64)
    ensures Add(a, Sub(b, a)) == b
  {
    if b as int >= a as int {
      assert Sub(b, a) as int == b as int - a as int;
    } else {
      assert Sub(b, a) as int == b as int - a as int + 0x1_0000_0000_0000_0000;
    }
  }

  lemma SignedRoundTrip(i: Int64)
    ensures ToInt64(ToUint64(i)) == i
  {
  }

  /** Seven bits a byte, least significant first, the high bit on every byte but the last. */
  function Encode(x: Uint64): (b: Bytes)
    ensures |b| >= 1
    decreases x as int
  {
    if x < 0x80 then [x as int as Byte]
    else [(x as int % 0x80 + 0x80) as Byte] + Encode(x / 0x80)
  }

  function Power128(i: nat): (p: int)
    ensures p >= 1
  {
    if i == 0 then 1 else 0x80 * Power128(i - 1)
  }

  lemma {:induction false} DivTwice(x: int, p: int)
    requires x >= 0 && p >= 1
    ensures x / 0x80 / p == x / (0x80 * p)
  {
    var q := x / (0x80 * p);
    var r := x - 0x80 * p * q;
    assert (0x80 * p) * q == 0x80 * (p * q);
    assert x / 0x80 == p * q + r / 0x80;
    DivOfSum(p, q, r / 0x80);
  }

  lemma {:induction false} DivOfSum(p: int, q: int, s: int)
    requires p >= 1 && 0 <= s < p
    ensures (p * q + s) / p == q
  {
    var d := (p * q + s) / p - q;
    assert p * (q + d) == p * q + p * d;
    Multiples(p, d);
  }

  lemma {:induction false} Multiples(m: int, d: int)
    requires m > 0
    ensures d >= 1 ==> m * d >= m
    ensures d <= -1 ==> m * d <= -m
  {
    assert m * d == m + m * (d - 1) == -m + m * (d + 1);
  }

  /** The i-th byte holds the i-th digit to the base 128, and its high bit says whether more follow. */
  lemma {:induction false} EncodedDigits(x: Uint64, i: nat)
    requires i < |Encode(x)|
    ensures Encode(x)[i] as int
         == (x as int / Power128(i)) % 0x80 + (if i + 1 < |Encode(x)| then 0x80 else 0)
    ensures (x as int / Power128(|Encode(x)| - 1)) < 0x80
    decreases x as int
  {
    if x >= 0x80 {
      var y := x / 0x80;
      EncodedDigits(y, if i == 0 then 0 else i - 1);
      DivTwice(x as int, Power128(|Encode(y)| - 1));
      if i > 0 {
        DivTwice(x as int, Power128(i - 1));
      }
    }
  }

  /** The thresholds: the largest values of one to nine bytes. */
  const MAX_VAL9: Uint64 := 0x7FFF_FFFF_FFFF_FFFF
  const MAX_VAL8: Uint64 := 0xFF_FFFF_FFFF_FFFF
  const MAX_VAL7: Uint64 := 0x1_FFFF_FFFF_FFFF
  const MAX_VAL6: Uint64 := 0x3FF_FFFF_FFFF
  const MAX_VAL5: Uint64 := 0x7_FFFF_FFFF
  const MAX_VAL4: Uint64 := 0xFFF_FFFF
  const MAX_VAL3: Uint64 := 0x1F_FFFF
  const MAX_VAL2: Uint64 := 0x3FFF
  const MAX_VAL1: Uint64 := 0x7F

  function UvarintSize(x: Uint64): int {
    if x <= MAX_VAL4 then
      if x <= MAX_VAL1 then 1
      else if x <= MAX_VAL2 then 2
      else if x <= MAX_VAL3 then 3
      else 4
    else if x <= MAX_VAL5 then 5
    else if x <= MAX_VAL6 then 6
    else if x <= MAX_VAL7 then 7
    else if x <= MAX_VAL8 then 8
    else if x <= MAX_VAL9 then 9
    else 10
  }

  /** The size function gives the exact length of the encoding. */
  lemma {:induction false} SizeIsExact(x: Uint64)
    ensures |Encode(x)| == UvarintSize(x)
    decreases x as int
  {
    if x >= 0x80 {
      SizeIsExact(x / 0x80);
    }
  }

  /** What is left of 64 bits after i bytes. */
  function Room(i: nat): int {
    if i == 0 then 0x1_0000_0000_0000_0000
    else if i == 1 then 0x200_0000_0000_0000
    else if i == 2 then 0x4_0000_0000_0000
    else if i == 3 then 0x800_0000_0000
    else if i == 4 then 0x10_0000_0000
    else if i == 5 then 0x2000_0000
    else if i == 6 then 0x40_0000
    else if i == 7 then 0x8000
    else if i == 8 then 0x100
    else if i == 9 then 2
    else 1
  }

  /**
   Reads a varint whose first i bytes were read before. The count is the number of bytes read, or not
   positive when the data is too short or the value exceeds 64 bits; the value is then zero.
   */
  function UvarintAt(data: Bytes, i: nat): (r: (int, int))
    requires i <= 10
    ensures 0 <= r.0 < Room(i)
    ensures r.1 > 0 ==> i < r.1 <= i + |data| && r.1 <= 10
    ensures r.1 <= 0 ==> r.0 == 0
    decreases |data|
  {
    if data == [] then (0, 0)
    else if i == 10 then (0, -11)
    else if data[0] < 0x80 then
      if i == 9 && data[0] > 1 then (0, -10) else (data[0] as int, i + 1)
    else
      var r := UvarintAt(data[1..], i + 1);
      if r.1 <= 0 then r
      else (data[0] as int - 0x80 + 0x80 * r.0, r.1)
  }

  function Uvarint(data: Bytes): (r: (Uint64, int))
    ensures r.1 <= |data|
  {
    var r := UvarintAt(data, 0);
    (r.0 as Uint64, r.1)
  }

  /** Reading back an encoding, whatever follows it. */
  lemma {:induction false} DecodeEncoded(x: Uint64, rest: Bytes, i: nat)
    requires i <= 9 && (x as int) < Room(i)
    ensures UvarintAt(Encode(x) + rest, i) == (x as int, i + |Encode(x)|)
    decreases x as int
  {
    var data := Encode(x) + rest;
    if x >= 0x80 {
      assert data[1..] == Encode(x / 0x80) + rest;
      DecodeEncoded(x / 0x80, rest, i + 1);
    }
  }

  lemma {:induction false} UvarintRoundTrip(x: Uint64, rest: Bytes)
    ensures Uvarint(Encode(x) + rest) == (x, |Encode(x)|)
  {
    DecodeEncoded(x, rest, 0);
  }

  /** The first k bytes all say that more follow. */
  ghost predicate GoesOn(data: Bytes, k: nat) {
    k <= |data| && forall i :: 0 <= i < k ==> data[i] >= 0x80
  }

  /** The count by the first byte that ends a varint, or by its absence. */
  lemma {:induction false} UvarintCount(data: Bytes, k: nat, i: nat)
    requires GoesOn(data, k) && i + k <= 10
    ensures k == |data| ==> UvarintAt(data, i) == (0, 0)
    ensures k < |data| && i + k == 10 ==> UvarintAt(data, i) == (0, -11)
    ensures k < |data| && data[k] < 0x80 && i + k < 9 ==> UvarintAt(data, i).1 == i + k + 1
    ensures k < |data| && data[k] < 0x80 && i + k == 9 ==>
      if data[k] > 1 then UvarintAt(data, i) == (0, -10) else UvarintAt(data, i).1 == 10
    decreases k
  {
    if k > 0 {
      assert forall j :: 0 <= j < k - 1 ==> data[1..][j] == data[j + 1];
      UvarintCount(data[1..], k - 1, i + 1);
    }
  }
}
