/** What an LRU cache holds after a run of operations: the keys in order of last use, cut to the capacity. */
module LruSpec {
  import opened Options

  datatype Entry<K, V> = Entry(key: K, value: V)

  /** Most recently used first. */
  type Contents<K, V> = seq<Entry<K, V>>

  function Without<K(==), V>(s: Contents<K, V>, k: K): Contents<K, V> {
    if s == [] then [] else (if s[0].key == k then [] else [s[0]]) + Without(s[1..], k)
  }

  function Lookup<K(==), V>(s: Contents<K, V>, k: K): Option<V> {
    if s == [] then None else if s[0].key == k then Some(s[0].value) else Lookup(s[1..], k)
  }

  /** The first `limit` entries; zero means no limit. */
  function Cut<K, V>(s: Contents<K, V>, limit: nat): Contents<K, V> {
    if limit != 0 && |s| > limit then s[..limit] else s
  }

  function Used<K(==), V>(s: Contents<K, V>, k: K, v: V): Contents<K, V> {
    [Entry(k, v)] + Without(s, k)
  }

  function AfterAdd<K(==), V>(s: Contents<K, V>, limit: nat, k: K, v: V): Contents<K, V> {
    Cut(Used(s, k, v), limit)
  }

  function AfterGet<K(==), V>(s: Contents<K, V>, k: K): Contents<K, V> {
    match Lookup(s, k)
    case None => s
    case Some(v) => Used(s, k, v)
  }

  ghost predicate DistinctKeys<K, V>(s: Contents<K, V>) {
    forall i, j :: 0 <= i < j < |s| ==> s[i].key != s[j].key
  }

  ghost predicate HasKey<K, V>(s: Contents<K, V>, k: K) {
    exists i :: 0 <= i < |s| && s[i].key == k
  }

  lemma {:induction false} LookupFinds<K, V>(s: Contents<K, V>, k: K)
    ensures Lookup(s, k).Some? <==> HasKey(s, k)
    ensures Lookup(s, k).Some? ==> Entry(k, Lookup(s, k).value) in s
  {
    if s != [] && s[0].key != k {
      LookupFinds(s[1..], k);
      if i :| 0 <= i < |s| && s[i].key == k {
        assert s[1..][i - 1].key == k;
      }
    }
  }

  lemma {:induction false} WithoutMember<K, V>(s: Contents<K, V>, k: K, e: Entry<K, V>)
    ensures e in Without(s, k) <==> e in s && e.key != k
  {
    if s != [] {
      WithoutMember(s[1..], k, e);
      assert s == [s[0]] + s[1..];
    }
  }

  lemma {:induction false} WithoutAt<K, V>(s: Contents<K, V>, k: K, i: nat) returns (j: nat)
    requires i < |Without(s, k)|
    ensures i <= j < |s| && s[j] == Without(s, k)[i] && s[j].key != k
  {
    if s[0].key == k {
      var m := WithoutAt(s[1..], k, i);
      j := m + 1;
    } else if i == 0 {
      j := 0;
    } else {
      var m := WithoutAt(s[1..], k, i - 1);
      j := m + 1;
    }
  }

  lemma {:induction false} WithoutAbsent<K, V>(s: Contents<K, V>, k: K)
    requires !HasKey(s, k)
    ensures Without(s, k) == s
  {
    if s != [] {
      assert forall i :: 0 <= i < |s[1..]| ==> s[1..][i] == s[i + 1];
      WithoutAbsent(s[1..], k);
    }
  }

  /** Taking out a key that is among the first `n` commutes with cutting to one less. */
  lemma {:induction false} WithoutCut<K, V>(s: Contents<K, V>, k: K, n: nat)
    requires n <= |s| && DistinctKeys(s)
    ensures
      if HasKey(s[..n], k)
      then |Without(s, k)| == |s| - 1 && Without(s[..n], k) == Without(s, k)[..n - 1]
      else Without(s[..n], k) == s[..n] && |Without(s, k)| >= n && Without(s, k)[..n] == s[..n]
    decreases |s|
  {
    if n > 0 {
      if s[0].key == k {
        assert HasKey(s[..n], k) by { assert s[..n][0].key == k; }
        assert !HasKey(s[1..], k);
        WithoutAbsent(s[1..], k);
        assert s[..n][1..] == s[1..][..n - 1];
        assert !HasKey(s[1..][..n - 1], k);
        WithoutAbsent(s[1..][..n - 1], k);
      } else {
        var t := s[1..];
        WithoutCut(t, k, n - 1);
        assert s[..n][1..] == t[..n - 1];
        HasKeyTail(s[..n], k);
        assert Without(s, k) == [s[0]] + Without(t, k) && Without(s[..n], k) == [s[0]] + Without(t[..n - 1], k);
        if HasKey(t[..n - 1], k) {
          assert ([s[0]] + Without(t, k))[..n - 1] == [s[0]] + Without(t, k)[..n - 2];
        } else {
          assert ([s[0]] + Without(t, k))[..n] == [s[0]] + Without(t, k)[..n - 1];
          assert s[..n] == [s[0]] + t[..n - 1];
        }
      }
    }
  }

  lemma {:induction false} HasKeyTail<K, V>(s: Contents<K, V>, k: K)
    requires s != []
    ensures HasKey(s, k) <==> s[0].key == k || HasKey(s[1..], k)
  {
    if i :| 0 <= i < |s| && s[i].key == k && i > 0 {
      assert s[1..][i - 1].key == k;
    }
    if i :| 0 <= i < |s[1..]| && s[1..][i].key == k {
      assert s[i + 1].key == k;
    }
  }

  lemma {:induction false} WithoutDistinct<K, V>(s: Contents<K, V>, k: K)
    requires DistinctKeys(s)
    ensures DistinctKeys(Without(s, k)) && !HasKey(Without(s, k), k)
    ensures |Without(s, k)| == if HasKey(s, k) then |s| - 1 else |s|
  {
    if s != [] {
      var r := Without(s[1..], k);
      WithoutDistinct(s[1..], k);
      HasKeyTail(s, k);
      forall i | 0 <= i < |r| ensures r[i].key != s[0].key {
        var j := WithoutAt(s[1..], k, i);
        assert s[j + 1] == r[i];
      }
      if s[0].key == k {
        assert !HasKey(s[1..], k);
      }
    }
  }

  lemma {:induction false} UsedDistinct<K, V>(s: Contents<K, V>, k: K, v: V)
    requires DistinctKeys(s)
    ensures DistinctKeys(Used(s, k, v)) && |Used(s, k, v)| == if HasKey(s, k) then |s| else |s| + 1
  {
    WithoutDistinct(s, k);
    var r := Without(s, k);
    assert forall i :: 0 <= i < |r| ==> HasKey(r, r[i].key);
  }

  /** A key used is first, whether or not the others were cut before. */
  lemma {:induction false} UsedOfCut<K, V>(s: Contents<K, V>, limit: nat, k: K, v: V)
    requires DistinctKeys(s)
    ensures Cut(Used(Cut(s, limit), k, v), limit) == Cut(Used(s, k, v), limit)
  {
    if limit != 0 && |s| > limit {
      UsedDistinct(s, k, v);
      WithoutCut(s, k, limit);
      var n := |Without(s, k)|;
      WithoutDistinct(s, k);
      assert Used(s, k, v)[..limit] == [Entry(k, v)] + Without(s, k)[..limit - 1];
      if !HasKey(s[..limit], k) {
        assert s[..limit][..limit - 1] == Without(s, k)[..limit - 1];
      }
    }
  }

  // Runs.

  datatype Op<K, V> = Add(key: K, value: V) | Get(key: K) | Peek(key: K)

  function Apply<K(==), V>(s: Contents<K, V>, limit: nat, op: Op<K, V>): Contents<K, V> {
    match op
    case Add(k, v) => AfterAdd(s, limit, k, v)
    case Get(k) => AfterGet(s, k)
    case Peek(_) => s
  }

  function Run<K(==), V>(limit: nat, ops: seq<Op<K, V>>): Contents<K, V> {
    if ops == [] then [] else Apply(Run(limit, ops[..|ops| - 1]), limit, ops[|ops| - 1])
  }

  /** Whether an operation is a use of the key: it adds it, or gets it while the cache holds it. */
  ghost predicate UsesAt<K(!new), V(!new)>(limit: nat, ops: seq<Op<K, V>>, i: nat, k: K)
    requires i < |ops|
  {
    ops[i].key == k && (ops[i].Add? || (ops[i].Get? && HasKey(Run(limit, ops[..i]), k)))
  }

  /** When the key was used last. */
  ghost function LastUse<K(!new), V(!new)>(limit: nat, ops: seq<Op<K, V>>, k: K): Option<nat> {
    if ops == [] then None
    else if UsesAt(limit, ops, |ops| - 1, k) then Some(|ops| - 1)
    else LastUse(limit, ops[..|ops| - 1], k)
  }

  /** The value the key was given last. */
  function LastAdded<K(==), V>(ops: seq<Op<K, V>>, k: K): Option<V> {
    if ops == [] then None
    else if ops[|ops| - 1].Add? && ops[|ops| - 1].key == k then Some(ops[|ops| - 1].value)
    else LastAdded(ops[..|ops| - 1], k)
  }

  /** A cache without a limit, in which the same operations count as uses as in the limited one. */
  ghost function Unlimited<K(!new), V(!new)>(limit: nat, ops: seq<Op<K, V>>): Contents<K, V> {
    if ops == [] then []
    else
      var s, op := Unlimited(limit, ops[..|ops| - 1]), ops[|ops| - 1];
      match op
      case Add(k, v) => Used(s, k, v)
      case Get(k) => if HasKey(Run(limit, ops[..|ops| - 1]), k) then AfterGet(s, k) else s
      case Peek(_) => s
  }

  lemma {:induction false} CutHasKey<K, V>(s: Contents<K, V>, limit: nat, k: K)
    ensures HasKey(Cut(s, limit), k) ==> HasKey(s, k)
    ensures HasKey(Cut(s, limit), k) ==> Lookup(Cut(s, limit), k) == Lookup(s, k)
    decreases limit
  {
    if limit != 0 && |s| > limit && HasKey(s[..limit], k) {
      HasKeyTail(s[..limit], k);
      HasKeyTail(s, k);
      if s[0].key != k {
        assert s[..limit][1..] == s[1..][..limit - 1];
        CutHasKey(s[1..], limit - 1, k);
        assert limit > 1;
      }
    }
  }

  lemma {:induction false} UnlimitedDistinct<K(!new), V(!new)>(limit: nat, ops: seq<Op<K, V>>)
    ensures DistinctKeys(Unlimited(limit, ops))
  {
    if ops != [] {
      var init, op := ops[..|ops| - 1], ops[|ops| - 1];
      UnlimitedDistinct(limit, init);
      var s := Unlimited(limit, init);
      if op.Add? {
        UsedDistinct(s, op.key, op.value);
      } else if op.Get? && Lookup(s, op.key).Some? {
        UsedDistinct(s, op.key, Lookup(s, op.key).value);
      }
    }
  }

  /** The limited cache is the unlimited one cut to the limit, after every run. */
  lemma {:induction false} RunIsCut<K(!new), V(!new)>(limit: nat, ops: seq<Op<K, V>>)
    ensures Run(limit, ops) == Cut(Unlimited(limit, ops), limit)
  {
    if ops != [] {
      var init, op := ops[..|ops| - 1], ops[|ops| - 1];
      RunIsCut(limit, init);
      UnlimitedDistinct(limit, init);
      var s, c := Unlimited(limit, init), Run(limit, init);
      if op.Add? {
        UsedOfCut(s, limit, op.key, op.value);
      } else if op.Get? {
        LookupFinds(c, op.key);
        if HasKey(c, op.key) {
          CutHasKey(s, limit, op.key);
          var v := Lookup(c, op.key).value;
          UsedOfCut(s, limit, op.key, v);
          CutDistinct(s, limit);
          UsedDistinct(c, op.key, v);
        }
      }
    }
  }

  lemma CutDistinct<K, V>(s: Contents<K, V>, limit: nat)
    requires DistinctKeys(s)
    ensures DistinctKeys(Cut(s, limit)) && (limit != 0 ==> |Cut(s, limit)| <= limit)
  {
  }

  // The unlimited cache, described by the operations alone.

  lemma {:induction false} UsedLookup<K, V>(s: Contents<K, V>, k: K, v: V, x: K)
    ensures Lookup(Used(s, k, v), x) == if x == k then Some(v) else Lookup(s, x)
    ensures HasKey(Used(s, k, v), x) <==> x == k || HasKey(s, x)
  {
    if x != k {
      WithoutLookup(s, k, x);
      assert Used(s, k, v)[1..] == Without(s, k);
    }
    LookupFinds(Used(s, k, v), x);
    LookupFinds(s, x);
  }

  lemma {:induction false} WithoutLookup<K, V>(s: Contents<K, V>, k: K, x: K)
    requires x != k
    ensures Lookup(Without(s, k), x) == Lookup(s, x)
  {
    if s != [] {
      var w := Without(s[1..], k);
      WithoutLookup(s[1..], k, x);
      assert ([s[0]] + w)[1..] == w && [] + w == w;
    }
  }

  /** Whether the operation at the end is a use that moves its key to the front. */
  ghost predicate MovesKey<K(!new), V(!new)>(limit: nat, init: seq<Op<K, V>>, op: Op<K, V>) {
    op.Add? || (op.Get? && HasKey(Run(limit, init), op.key))
  }

  lemma {:induction false} UnlimitedStep<K(!new), V(!new)>(limit: nat, init: seq<Op<K, V>>,
      op: Op<K, V>) returns (v: Option<V>)
    ensures
      var s, ops := Unlimited(limit, init), init + [op];
      if MovesKey(limit, init, op)
      then
        && v.Some? && v == (if op.Add? then Some(op.value) else Lookup(s, op.key))
        && Unlimited(limit, ops) == Used(s, op.key, v.value)
      else v.None? && Unlimited(limit, ops) == s
    ensures
      forall k :: UsesAt(limit, init + [op], |init|, k) <==> MovesKey(limit, init, op) && k == op.key
  {
    var s, ops := Unlimited(limit, init), init + [op];
    assert ops[..|init|] == init;
    v := None;
    if op.Add? {
      v := Some(op.value);
    } else if MovesKey(limit, init, op) {
      RunIsCut(limit, init);
      CutHasKey(s, limit, op.key);
      LookupFinds(s, op.key);
      v := Lookup(s, op.key);
    }
  }

  /** It holds the keys ever used, each with the value given last. */
  lemma {:induction false} UnlimitedHolds<K(!new), V(!new)>(limit: nat, ops: seq<Op<K, V>>, k: K)
    ensures HasKey(Unlimited(limit, ops), k) <==> LastUse(limit, ops, k).Some?
    ensures Lookup(Unlimited(limit, ops), k) == LastAdded(ops, k)
  {
    if ops != [] {
      var init, op := ops[..|ops| - 1], ops[|ops| - 1];
      assert ops == init + [op];
      UnlimitedHolds(limit, init, k);
      var v := UnlimitedStep(limit, init, op);
      if v.Some? {
        UsedLookup(Unlimited(limit, init), op.key, v.value, k);
        UnlimitedHolds(limit, init, op.key);
      }
    }
  }

  ghost predicate MoreRecent<K(!new), V(!new)>(limit: nat, ops: seq<Op<K, V>>, a: K, b: K) {
    && LastUse(limit, ops, a).Some? && LastUse(limit, ops, b).Some?
    && LastUse(limit, ops, a).value > LastUse(limit, ops, b).value
  }

  ghost predicate ByRecency<K(!new), V(!new)>(limit: nat, ops: seq<Op<K, V>>, s: Contents<K, V>) {
    forall i, j :: 0 <= i < j < |s| ==> MoreRecent(limit, ops, s[i].key, s[j].key)
  }

  lemma {:induction false} LastUseBounded<K(!new), V(!new)>(limit: nat, ops: seq<Op<K, V>>, k: K)
    ensures LastUse(limit, ops, k).Some? ==> LastUse(limit, ops, k).value < |ops|
  {
    if ops != [] {
      LastUseBounded(limit, ops[..|ops| - 1], k);
    }
  }

  /** Taking a key out leaves the others in their order. */
  lemma {:induction false} WithoutPositions<K, V>(s: Contents<K, V>, k: K, i: nat, j: nat) returns (i': nat, j': nat)
    requires i < j < |Without(s, k)|
    ensures i' < j' < |s| && s[i'] == Without(s, k)[i] && s[j'] == Without(s, k)[j]
  {
    if s[0].key == k {
      var a, b := WithoutPositions(s[1..], k, i, j);
      i', j' := a + 1, b + 1;
    } else if i > 0 {
      var a, b := WithoutPositions(s[1..], k, i - 1, j - 1);
      i', j' := a + 1, b + 1;
    } else {
      var b := WithoutAt(s[1..], k, j - 1);
      i', j' := 0, b + 1;
    }
  }

  lemma {:induction false} UnlimitedByRecency<K(!new), V(!new)>(limit: nat, ops: seq<Op<K, V>>)
    ensures ByRecency(limit, ops, Unlimited(limit, ops))
  {
    if ops != [] {
      var init, op := ops[..|ops| - 1], ops[|ops| - 1];
      assert ops == init + [op];
      UnlimitedByRecency(limit, init);
      var v := UnlimitedStep(limit, init, op);
      var s, r := Unlimited(limit, init), Unlimited(limit, ops);
      forall i, j | 0 <= i < j < |r| ensures MoreRecent(limit, ops, r[i].key, r[j].key) {
        if v.None? {
          assert MoreRecent(limit, init, s[i].key, s[j].key);
        } else {
          RecentAfterUse(limit, init, op, v.value, i, j);
        }
      }
    }
  }

  lemma {:induction false} RecentAfterUse<K(!new), V(!new)>(limit: nat, init: seq<Op<K, V>>, op: Op<K, V>, v: V,
      i: nat, j: nat)
    requires ByRecency(limit, init, Unlimited(limit, init)) && MovesKey(limit, init, op)
    requires i < j < |Used(Unlimited(limit, init), op.key, v)|
    ensures
      var r := Used(Unlimited(limit, init), op.key, v);
      MoreRecent(limit, init + [op], r[i].key, r[j].key)
  {
    var s, ops := Unlimited(limit, init), init + [op];
    var w := Without(s, op.key);
    assert ops[..|init|] == init;
    var last := UnlimitedStep(limit, init, op);
    var b := WithoutAt(s, op.key, j - 1);
    if i == 0 {
      assert HasKey(s, s[b].key);
      UnlimitedHolds(limit, init, s[b].key);
      LastUseBounded(limit, init, s[b].key);
    } else {
      var a := WithoutAt(s, op.key, i - 1);
      var x, y := WithoutPositions(s, op.key, i - 1, j - 1);
      assert MoreRecent(limit, init, s[x].key, s[y].key);
    }
  }

  /** A key beyond the cut is less recent than all keys before it. */
  lemma {:induction false} BeyondTheCut<K(!new), V(!new)>(limit: nat, ops: seq<Op<K, V>>, s: Contents<K, V>, k: K)
    requires ByRecency(limit, ops, s) && HasKey(s, k) && !HasKey(Cut(s, limit), k)
    ensures |Cut(s, limit)| == limit
    ensures forall i :: 0 <= i < limit ==> MoreRecent(limit, ops, Cut(s, limit)[i].key, k)
  {
    hide MoreRecent;
    var held := Cut(s, limit);
    var i :| 0 <= i < |s| && s[i].key == k;
    assert held != s && held == s[..limit];
  }

  lemma {:induction false} CutByRecency<K(!new), V(!new)>(limit: nat, ops: seq<Op<K, V>>, s: Contents<K, V>)
    requires ByRecency(limit, ops, s)
    ensures ByRecency(limit, ops, Cut(s, limit))
  {
    hide MoreRecent;
  }

  /**
   After any run the cache holds the last value of each key it has, in order of last use; a key used
   but not held was used less recently than all those held, and there are `limit` of them.
   */
  lemma {:induction false} RunHoldsMostRecent<K(!new), V(!new)>(limit: nat, ops: seq<Op<K, V>>, k: K)
    ensures
      var held := Run(limit, ops);
      && DistinctKeys(held) && ByRecency(limit, ops, held)
      && (HasKey(held, k) ==> LastUse(limit, ops, k).Some? && Lookup(held, k) == LastAdded(ops, k))
      && (!HasKey(held, k) && LastUse(limit, ops, k).Some? ==>
            |held| == limit && forall i :: 0 <= i < |held| ==> MoreRecent(limit, ops, held[i].key, k))
  {
    hide Run, Unlimited, LastUse, LastAdded, ByRecency, MoreRecent, HasKey, Lookup, DistinctKeys, Cut;
    var s := Unlimited(limit, ops);
    RunIsCut(limit, ops);
    UnlimitedDistinct(limit, ops);
    CutDistinct(s, limit);
    UnlimitedByRecency(limit, ops);
    CutByRecency(limit, ops, s);
    UnlimitedHolds(limit, ops, k);
    CutHasKey(s, limit, k);
    if !HasKey(Run(limit, ops), k) && HasKey(s, k) {
      BeyondTheCut(limit, ops, s, k);
    }
  }
}
