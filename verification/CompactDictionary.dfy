/** Compaction of a dictionary column: only referenced entries stay, and the indices follow them. */
module CompactDictionaries {
  import opened Options
  import opened Columns

  /** An index below the length is kept by the cast to the width chosen for that length. */
  lemma {:induction false} CastKeeps(newLen: nat, index: nat)
    requires index < newLen < 0x1_0000_0000_0000_0000
    ensures newLen <= Capacity(SmallestUnsignedTypeFor(newLen))
      && Store(SmallestUnsignedTypeFor(newLen), index) == index
  {
    StoreLossless(newLen, index);
  }

  predicate InRange<T>(dict: seq<T>, indices: seq<Option<nat>>) {
    forall i :: 0 <= i < |indices| && indices[i].Some? ==> indices[i].value < |dict|
  }

  /** The column that a dictionary and its indices stand for. */
  function Decode<T>(dict: seq<T>, indices: seq<Option<nat>>): seq<Option<T>>
    requires InRange(dict, indices)
  {
    seq(|indices|, i requires 0 <= i < |indices| => if indices[i].Some? then Some(dict[indices[i].value]) else None)
  }

  ghost predicate Referenced(indices: seq<Option<nat>>, v: nat) {
    Some(v) in indices
  }

  /** The referenced ones among the first `n` entries, in their order. */
  ghost function Kept<T>(dict: seq<T>, indices: seq<Option<nat>>, n: nat): seq<T>
    requires n <= |dict|
  {
    if n == 0 then [] else Kept(dict, indices, n - 1) + (if Referenced(indices, n - 1) then [dict[n - 1]] else [])
  }

  /** How many of the first `n` entries are referenced. */
  ghost function Rank(indices: seq<Option<nat>>, n: nat): nat {
    if n == 0 then 0 else Rank(indices, n - 1) + (if Referenced(indices, n - 1) then 1 else 0)
  }

  lemma {:induction false} KeptLength<T>(dict: seq<T>, indices: seq<Option<nat>>, n: nat)
    requires n <= |dict|
    ensures |Kept(dict, indices, n)| == Rank(indices, n)
  {
    if n > 0 {
      KeptLength(dict, indices, n - 1);
    }
  }

  /** A referenced entry stands at its rank. */
  lemma {:induction false} KeptAtRank<T>(dict: seq<T>, indices: seq<Option<nat>>, v: nat, n: nat)
    requires v < n <= |dict| && Referenced(indices, v)
    ensures Rank(indices, v) < Rank(indices, n)
    ensures |Kept(dict, indices, n)| == Rank(indices, n) && Kept(dict, indices, n)[Rank(indices, v)] == dict[v]
  {
    KeptLength(dict, indices, n - 1);
    if v < n - 1 {
      KeptAtRank(dict, indices, v, n - 1);
    }
  }

  lemma {:induction false} RankBounded(indices: seq<Option<nat>>, n: nat)
    ensures Rank(indices, n) <= n
  {
    if n > 0 {
      RankBounded(indices, n - 1);
    }
  }

  /** One more reference raises the rank exactly of the later entries, and only if the entry had none. */
  lemma {:induction false} RankAppend(indices: seq<Option<nat>>, x: Option<nat>, n: nat)
    ensures Rank(indices + [x], n) ==
            Rank(indices, n) + (if x.Some? && x.value < n && !Referenced(indices, x.value) then 1 else 0)
  {
    if n > 0 {
      RankAppend(indices, x, n - 1);
      assert Referenced(indices + [x], n - 1) <==> Referenced(indices, n - 1) || x == Some(n - 1);
    }
  }

  /** Counts how often each entry is referenced, and how many entries are. */
  method CountReferences(size: nat, indices: seq<Option<nat>>, keepValues: array<int>) returns (newLen: nat)
    requires keepValues.Length == size && forall v :: 0 <= v < size ==> keepValues[v] == 0
    requires forall i :: 0 <= i < |indices| && indices[i].Some? ==> indices[i].value < size
    modifies keepValues
    ensures newLen == Rank(indices, size)
    ensures forall v :: 0 <= v < size ==> keepValues[v] >= 0 && (keepValues[v] > 0 <==> Referenced(indices, v))
  {
    newLen := 0;
    RankNone(size);
    for i := 0 to |indices|
      invariant newLen == Rank(indices[..i], size)
      invariant forall v :: 0 <= v < size ==> keepValues[v] >= 0 && (keepValues[v] > 0 <==> Referenced(indices[..i], v))
    {
      assert indices[..i + 1] == indices[..i] + [indices[i]];
      RankAppend(indices[..i], indices[i], size);
      if indices[i].Some? {
        var v := indices[i].value;
        if keepValues[v] == 0 {
          newLen := newLen + 1;
        }
        keepValues[v] := keepValues[v] + 1;
      }
    }
    assert indices[..|indices|] == indices;
  }

  lemma {:induction false} RankNone(n: nat)
    ensures Rank([], n) == 0
  {
    if n > 0 {
      RankNone(n - 1);
    }
  }

  /** Copies the referenced entries and notes where each of them went. */
  method CopyValues<T>(dict: seq<T>, keepValues: array<int>, newValueIndices: array<int>,
      ghost indices: seq<Option<nat>>)
    returns (values: seq<T>)
    requires keepValues.Length == newValueIndices.Length == |dict| && keepValues != newValueIndices
    requires forall v :: 0 <= v < |dict| ==> keepValues[v] >= 0 && (keepValues[v] > 0 <==> Referenced(indices, v))
    modifies newValueIndices
    ensures values == Kept(dict, indices, |dict|)
    ensures forall v :: 0 <= v < |dict| && Referenced(indices, v) ==> newValueIndices[v] == Rank(indices, v)
  {
    values := [];
    for i := 0 to |dict|
      invariant values == Kept(dict, indices, i)
      invariant forall v :: 0 <= v < i && Referenced(indices, v) ==> newValueIndices[v] == Rank(indices, v)
    {
      if keepValues[i] != 0 {
        KeptLength(dict, indices, i);
        newValueIndices[i] := |values|;
        values := values + [dict[i]];
      }
    }
  }

  /**
   The compacted dictionary holds exactly the referenced entries in their order and stands for the
   same column; the cast to the chosen width loses no index.
   */
  method CompactDictionary<T>(dict: seq<T>, indices: seq<Option<nat>>)
    returns (values: seq<T>, newIndices: seq<Option<nat>>, width: UnsignedType)
    requires InRange(dict, indices) && |dict| < 0x1_0000_0000_0000_0000
    ensures values == Kept(dict, indices, |dict|)
    ensures InRange(values, newIndices) && Decode(values, newIndices) == Decode(dict, indices)
    ensures |newIndices| == |indices| && forall k :: 0 <= k < |indices| ==>
      Points(dict, values, indices[k], newIndices[k])
    ensures width == SmallestUnsignedTypeFor(|values|) && |values| <= Capacity(width)
  {
    var keepValues := new int[|dict|](_ => 0);
    var newLen := CountReferences(|dict|, indices, keepValues);
    var newValueIndices := new int[|dict|](_ => 0);
    values := CopyValues(dict, keepValues, newValueIndices, indices);
    width := SmallestUnsignedTypeFor(newLen);
    KeptLength(dict, indices, |dict|);
    RankBounded(indices, |dict|);
    newIndices := [];
    for i := 0 to |indices|
      invariant |newIndices| == i
      invariant forall v :: 0 <= v < |dict| && Referenced(indices, v) ==> newValueIndices[v] == Rank(indices, v)
      invariant forall k :: 0 <= k < i ==> Points(dict, values, indices[k], newIndices[k])
    {
      if indices[i].None? {
        newIndices := newIndices + [None];
      } else {
        var oldIndex := indices[i].value;
        assert Referenced(indices, oldIndex);
        KeptAtRank(dict, indices, oldIndex, |dict|);
        CastKeeps(newLen, newValueIndices[oldIndex]);
        newIndices := newIndices + [Some(Store(width, newValueIndices[oldIndex]))];
      }
    }
  }

  /** Two references, each null or denoting the same entry. */
  ghost predicate Points<T>(dict: seq<T>, values: seq<T>, a: Option<nat>, b: Option<nat>) {
    && a.Some? == b.Some?
    && (a.Some? ==> a.value < |dict| && b.value < |values| && values[b.value] == dict[a.value])
  }

  // What the kept entries are.

  /** Every kept entry is a referenced one, and different places hold different entries in order. */
  lemma {:induction false} KeptFrom<T>(dict: seq<T>, indices: seq<Option<nat>>, n: nat, k: nat) returns (v: nat)
    requires n <= |dict| && k < |Kept(dict, indices, n)|
    ensures v < n && Referenced(indices, v) && Rank(indices, v) == k && Kept(dict, indices, n)[k] == dict[v]
  {
    KeptLength(dict, indices, n - 1);
    if k < Rank(indices, n - 1) {
      v := KeptFrom(dict, indices, n - 1, k);
    } else {
      v := n - 1;
    }
  }
}
