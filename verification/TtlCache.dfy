/** The cache whose entries carry a deadline, and what its hits mean over every sequential run. */
module TtlCaches {
  import opened Options
  import opened LruSpec
  import opened LruCaches

  datatype Timed<V> = Timed(value: V, deadline: int)
  datatype Settings = Settings(maxEntries: nat, ttl: nat, updateDeadlineOnGet: bool, removeExpiredOnAdd: bool)

  /** The contents, and when expired entries are removed next. */
  datatype State<K, V> = State(contents: Contents<K, Timed<V>>, nextRemove: int)

  predicate Expired<V>(v: Timed<V>, now: int) {
    v.deadline < now
  }

  function Unexpired<K, V>(s: Contents<K, Timed<V>>, now: int): Contents<K, Timed<V>> {
    if s == [] then [] else (if Expired(s[0].value, now) then [] else [s[0]]) + Unexpired(s[1..], now)
  }

  lemma {:induction false} UnmatchedIsUnexpired<K(!new), V(!new)>(s: Contents<K, Timed<V>>, p: (K, Timed<V>) -> bool,
      now: int)
    requires forall k, t :: p(k, t) == Expired(t, now)
    ensures Unmatched(s, p) == Unexpired(s, now)
  {
    if s != [] {
      UnmatchedIsUnexpired(s[1..], p, now);
    }
  }

  /** An addition reads the clock for the deadline and, for a new key, once more for the removal. */
  function TtlAdd<K(==), V>(c: Settings, s: State<K, V>, k: K, v: V, now: int, later: int): State<K, V> {
    var added := AfterAdd(s.contents, c.maxEntries, k, Timed(v, now + c.ttl));
    if Lookup(s.contents, k).None? && c.removeExpiredOnAdd && s.nextRemove < later
    then State(Unexpired(added, later), later + c.ttl)
    else s.(contents := added)
  }

  function TtlGet<K(==), V>(c: Settings, s: State<K, V>, k: K, now: int, later: int): (State<K, V>, Option<V>) {
    match Lookup(s.contents, k)
    case None => (s, None)
    case Some(t) =>
      var touched := Used(s.contents, k, t);
      if Expired(t, now) then (s.(contents := Without(touched, k)), None)
      else if c.updateDeadlineOnGet
      then (s.(contents := AfterAdd(touched, c.maxEntries, k, Timed(t.value, later + c.ttl))), Some(t.value))
      else (s.(contents := touched), Some(t.value))
  }

  class LRUCacheWithTTL<K(==,!new), V(!new)> {
    const settings: Settings
    const lru: LRU<K, Timed<V>>
    var nextRemoveExpired: int

    ghost predicate Valid()
      reads this, lru
    {
      lru.Valid() && lru.maxEntries == settings.maxEntries
    }

    ghost function Abstract(): State<K, V>
      reads this, lru
      requires Valid()
    {
      State(lru.Contents(), nextRemoveExpired)
    }

    constructor (settings: Settings, now: int)
      ensures Valid() && this.settings == settings && Abstract() == State([], now + settings.ttl) && fresh(lru)
    {
      this.settings := settings;
      this.lru := new LRU(settings.maxEntries);
      this.nextRemoveExpired := now + settings.ttl;
    }

    method Add(key: K, value: V, now: int, later: int)
      requires Valid()
      modifies this, lru
      ensures Valid() && Abstract() == TtlAdd(settings, old(Abstract()), key, value, now, later)
    {
      LookupFinds(lru.Contents(), key);
      var added := lru.Add(key, Timed(value, now + settings.ttl));
      if added && settings.removeExpiredOnAdd && nextRemoveExpired < later {
        ghost var before := lru.Contents();
        var expired := (_: K, e: Timed<V>) => Expired(e, later);
        lru.RemoveMatching(expired);
        UnmatchedIsUnexpired(before, expired, later);
        nextRemoveExpired := later + settings.ttl;
      }
    }

    method Get(key: K, now: int, later: int) returns (value: Option<V>)
      requires Valid()
      modifies this, lru
      ensures Valid()
      ensures (Abstract(), value) == TtlGet(settings, old(Abstract()), key, now, later)
    {
      var found := lru.Get(key);
      if found.None? {
        return None;
      }
      if Expired(found.value, now) {
        lru.Remove(key);
        return None;
      }
      if settings.updateDeadlineOnGet {
        var added := lru.Add(key, Timed(found.value.value, later + settings.ttl));
      }
      value := Some(found.value.value);
    }
  }

  // Runs.

  datatype Op<K, V> =
    | Add(key: K, value: V, now: int, later: int)
    | Get(key: K, now: int, later: int)
    | Remove(key: K)
    | Purge

  function Apply<K(==), V>(c: Settings, s: State<K, V>, op: Op<K, V>): State<K, V> {
    match op
    case Add(k, v, now, later) => TtlAdd(c, s, k, v, now, later)
    case Get(k, now, later) => TtlGet(c, s, k, now, later).0
    case Remove(k) => s.(contents := Without(s.contents, k))
    case Purge => s.(contents := [])
  }

  function Run<K(==), V>(c: Settings, start: int, ops: seq<Op<K, V>>): State<K, V> {
    if ops == [] then State([], start + c.ttl) else Apply(c, Run(c, start, ops[..|ops| - 1]), ops[|ops| - 1])
  }

  /** The value a key was given last. */
  function LastAdded<K(==), V>(ops: seq<Op<K, V>>, k: K): Option<V> {
    if ops == [] then None
    else if ops[|ops| - 1].Add? && ops[|ops| - 1].key == k then Some(ops[|ops| - 1].value)
    else LastAdded(ops[..|ops| - 1], k)
  }

  /** The operation gives the key the deadline: it adds it, or hits it where hits renew deadlines. */
  ghost predicate Renews<K(!new), V(!new)>(c: Settings, start: int, ops: seq<Op<K, V>>, i: nat, k: K, deadline: int) {
    && i < |ops|
    && match ops[i]
       case Add(key, _, now, _) => key == k && deadline == now + c.ttl
       case Get(key, now, later) =>
         && key == k && deadline == later + c.ttl && c.updateDeadlineOnGet
         && TtlGet(c, Run(c, start, ops[..i]), k, now, later).1.Some?
       case _ => false
  }

  /** No operation after that one gives the key a deadline. */
  ghost predicate LastRenews<K(!new), V(!new)>(c: Settings, start: int, ops: seq<Op<K, V>>, i: nat, k: K,
      deadline: int)
  {
    Renews(c, start, ops, i, k, deadline) && forall j: nat, d :: i < j < |ops| ==> !Renews(c, start, ops, j, k, d)
  }

  /** An entry holds the value given last and the deadline given last. */
  ghost predicate Justified<K(!new), V(!new)>(c: Settings, start: int, ops: seq<Op<K, V>>, e: Entry<K, Timed<V>>) {
    && LastAdded(ops, e.key) == Some(e.value.value)
    && exists i: nat :: LastRenews(c, start, ops, i, e.key, e.value.deadline)
  }

  /** Whether an operation gives the key a deadline in a state. */
  ghost predicate RenewsIn<K(!new), V(!new)>(c: Settings, s: State<K, V>, op: Op<K, V>, k: K) {
    || (op.Add? && op.key == k)
    || (op.Get? && op.key == k && c.updateDeadlineOnGet && TtlGet(c, s, k, op.now, op.later).1.Some?)
  }

  lemma {:induction false} UnexpiredMember<K, V>(s: Contents<K, Timed<V>>, now: int, e: Entry<K, Timed<V>>)
    requires e in Unexpired(s, now)
    ensures e in s
  {
    if e in Unexpired(s[1..], now) {
      UnexpiredMember(s[1..], now, e);
    }
  }

  lemma {:induction false} StillJustified<K(!new), V(!new)>(c: Settings, start: int, init: seq<Op<K, V>>,
      op: Op<K, V>, e: Entry<K, Timed<V>>)
    requires Justified(c, start, init, e) && !RenewsIn(c, Run(c, start, init), op, e.key)
    ensures Justified(c, start, init + [op], e)
  {
    var ops := init + [op];
    assert ops[..|init|] == init;
    var i: nat :| LastRenews(c, start, init, i, e.key, e.value.deadline);
    assert ops[..i] == init[..i];
    assert Renews(c, start, ops, i, e.key, e.value.deadline);
    forall j: nat, d | i < j < |ops| ensures !Renews(c, start, ops, j, e.key, d) {
      if j < |init| {
        assert ops[..j] == init[..j];
        assert !Renews(c, start, init, j, e.key, d);
      }
    }
    assert LastRenews(c, start, ops, i, e.key, e.value.deadline);
  }

  lemma {:induction false} UsedMember<K, V>(s: Contents<K, V>, k: K, v: V, limit: nat, e: Entry<K, V>)
    requires e in Used(s, k, v) || e in Cut(Used(s, k, v), limit)
    ensures e == Entry(k, v) || (e in s && e.key != k)
  {
    assert e in Used(s, k, v);
    WithoutMember(s, k, e);
  }

  /** The hit renews the deadline of the entry. */
  ghost predicate RenewedByGet<K(!new), V(!new)>(c: Settings, s: State<K, V>, op: Op<K, V>, e: Entry<K, Timed<V>>) {
    && op.Get? && c.updateDeadlineOnGet && TtlGet(c, s, op.key, op.now, op.later).1.Some?
    && Lookup(s.contents, op.key).Some?
    && e == Entry(op.key, Timed(Lookup(s.contents, op.key).value.value, op.later + c.ttl))
  }

  /** What an operation leaves: entries from before whose deadline it does not give, or the one it adds or renews. */
  lemma {:induction false} ApplyMember<K(!new), V(!new)>(c: Settings, s: State<K, V>, op: Op<K, V>,
      e: Entry<K, Timed<V>>)
    requires e in Apply(c, s, op).contents
    ensures
      || (e in s.contents && !RenewsIn(c, s, op, e.key))
      || (op.Add? && e == Entry(op.key, Timed(op.value, op.now + c.ttl)))
      || RenewedByGet(c, s, op, e)
  {
    match op
    case Add(k, v, now, later) =>
      var added := AfterAdd(s.contents, c.maxEntries, k, Timed(v, now + c.ttl));
      if e !in added {
        UnexpiredMember(added, later, e);
      }
      UsedMember(s.contents, k, Timed(v, now + c.ttl), c.maxEntries, e);
    case Get(k, now, later) =>
      LookupFinds(s.contents, k);
      if Lookup(s.contents, k).Some? {
        GetMember(c, s, k, now, later, e);
      }
    case Remove(k) => WithoutMember(s.contents, k, e);
    case Purge =>
  }

  lemma {:induction false} GetMember<K(!new), V(!new)>(c: Settings, s: State<K, V>, k: K, now: int, later: int,
      e: Entry<K, Timed<V>>)
    requires Lookup(s.contents, k).Some? && e in TtlGet(c, s, k, now, later).0.contents
    ensures
      || (e in s.contents && !RenewsIn(c, s, Op.Get(k, now, later), e.key))
      || RenewedByGet(c, s, Op.Get(k, now, later), e)
  {
    var t := Lookup(s.contents, k).value;
    var touched := Used(s.contents, k, t);
    LookupFinds(s.contents, k);
    if Expired(t, now) {
      WithoutMember(touched, k, e);
      UsedMember(s.contents, k, t, 0, e);
    } else if c.updateDeadlineOnGet {
      UsedMember(touched, k, Timed(t.value, later + c.ttl), c.maxEntries, e);
      if e in touched {
        UsedMember(s.contents, k, t, 0, e);
      }
    } else {
      UsedMember(s.contents, k, t, 0, e);
    }
  }

  /** In every run each entry is justified. */
  lemma {:induction false} RunJustified<K(!new), V(!new)>(c: Settings, start: int, ops: seq<Op<K, V>>)
    ensures forall e :: e in Run(c, start, ops).contents ==> Justified(c, start, ops, e)
  {
    if ops != [] {
      var init, op := ops[..|ops| - 1], ops[|ops| - 1];
      assert ops == init + [op];
      RunJustified(c, start, init);
      var s := Run(c, start, init);
      LookupJustified(c, start, init, op);
      forall e | e in Run(c, start, ops).contents ensures Justified(c, start, ops, e) {
        ApplyMember(c, s, op, e);
        if e in s.contents && !RenewsIn(c, s, op, e.key) {
          StillJustified(c, start, init, op, e);
        } else {
          assert LastRenews(c, start, ops, |init|, e.key, e.value.deadline);
        }
      }
    }
  }

  lemma {:induction false} LookupJustified<K(!new), V(!new)>(c: Settings, start: int, init: seq<Op<K, V>>, op: Op<K, V>)
    requires forall e :: e in Run(c, start, init).contents ==> Justified(c, start, init, e)
    ensures op.Get? && Lookup(Run(c, start, init).contents, op.key).Some? ==>
      LastAdded(init + [op], op.key) == Some(Lookup(Run(c, start, init).contents, op.key).value.value)
  {
    assert (init + [op])[..|init|] == init;
    if op.Get? {
      LookupFinds(Run(c, start, init).contents, op.key);
    }
  }

  /** A hit gives the value added last, and is not past the deadline given last, by that addition or a hit since. */
  lemma {:induction false} HitsAreLive<K(!new), V(!new)>(c: Settings, start: int, ops: seq<Op<K, V>>, k: K, now: int,
      later: int)
    requires TtlGet(c, Run(c, start, ops), k, now, later).1.Some?
    ensures TtlGet(c, Run(c, start, ops), k, now, later).1 == LastAdded(ops, k)
    ensures exists i: nat, deadline :: LastRenews(c, start, ops, i, k, deadline) && now <= deadline
  {
    RunJustified(c, start, ops);
    LookupFinds(Run(c, start, ops).contents, k);
    var t := Lookup(Run(c, start, ops).contents, k).value;
    var e := Entry(k, t);
    assert Justified(c, start, ops, e);
    var i: nat :| LastRenews(c, start, ops, i, k, t.deadline);
  }

  // What is held is found.

  lemma {:induction false} UnexpiredExactly<K, V>(s: Contents<K, Timed<V>>, now: int, e: Entry<K, Timed<V>>)
    ensures e in Unexpired(s, now) <==> e in s && now <= e.value.deadline
  {
    if s != [] {
      UnexpiredExactly(s[1..], now, e);
      assert s == [s[0]] + s[1..];
    }
  }

  lemma {:induction false} DistinctUnexpired<K, V>(s: Contents<K, Timed<V>>, now: int)
    requires DistinctKeys(s)
    ensures DistinctKeys(Unexpired(s, now)) && |Unexpired(s, now)| <= |s|
  {
    if s != [] {
      var r := Unexpired(s[1..], now);
      DistinctUnexpired(s[1..], now);
      forall i | 0 <= i < |r| ensures r[i].key != s[0].key {
        UnexpiredMember(s[1..], now, r[i]);
      }
    }
  }

  /** No key is held twice, and no more than the capacity. */
  ghost predicate Sound<K, V>(c: Settings, s: Contents<K, Timed<V>>) {
    DistinctKeys(s) && (c.maxEntries != 0 ==> |s| <= c.maxEntries)
  }

  lemma {:induction false} UsedSound<K, V>(c: Settings, s: Contents<K, Timed<V>>, k: K, v: Timed<V>)
    requires Sound(c, s)
    ensures Sound(c, AfterAdd(s, c.maxEntries, k, v))
    ensures HasKey(s, k) ==> Sound(c, Used(s, k, v))
  {
    UsedDistinct(s, k, v);
    CutDistinct(Used(s, k, v), c.maxEntries);
    hide Used, DistinctKeys;
  }

  lemma {:induction false} ApplySound<K, V>(c: Settings, s: State<K, V>, op: Op<K, V>)
    requires Sound(c, s.contents)
    ensures Sound(c, Apply(c, s, op).contents)
  {
    hide Used, AfterAdd, Without, Cut, DistinctKeys;
    match op
    case Add(k, v, now, later) =>
      UsedSound(c, s.contents, k, Timed(v, now + c.ttl));
      SoundUnexpired(c, AfterAdd(s.contents, c.maxEntries, k, Timed(v, now + c.ttl)), later);
    case Get(k, now, later) =>
      LookupFinds(s.contents, k);
      if Lookup(s.contents, k).Some? {
        var t := Lookup(s.contents, k).value;
        UsedSound(c, s.contents, k, t);
        UsedSound(c, Used(s.contents, k, t), k, Timed(t.value, later + c.ttl));
        SoundWithout(c, Used(s.contents, k, t), k);
      }
    case Remove(k) => SoundWithout(c, s.contents, k);
    case Purge => NothingSound<K, V>(c);
  }

  lemma NothingSound<K, V>(c: Settings)
    ensures Sound<K, V>(c, [])
  {
  }

  lemma SoundWithout<K, V>(c: Settings, s: Contents<K, Timed<V>>, k: K)
    requires Sound(c, s)
    ensures Sound(c, Without(s, k))
  {
    WithoutDistinct(s, k);
  }

  lemma SoundUnexpired<K, V>(c: Settings, s: Contents<K, Timed<V>>, now: int)
    requires Sound(c, s)
    ensures Sound(c, Unexpired(s, now))
  {
    DistinctUnexpired(s, now);
  }

  lemma {:induction false} RunSound<K(!new), V(!new)>(c: Settings, start: int, ops: seq<Op<K, V>>)
    ensures Sound(c, Run(c, start, ops).contents)
  {
    if ops == [] {
      NothingSound<K, V>(c);
    } else {
      RunSound(c, start, ops[..|ops| - 1]);
      ApplySound(c, Run(c, start, ops[..|ops| - 1]), ops[|ops| - 1]);
    }
  }

  lemma {:induction false} LookupOnly<K, V>(s: Contents<K, V>, e: Entry<K, V>)
    requires DistinctKeys(s) && e in s
    ensures Lookup(s, e.key) == Some(e.value)
  {
    var i :| 0 <= i < |s| && s[i] == e;
    LookupFinds(s, e.key);
    if s[i].key == e.key {
      assert HasKey(s, e.key);
    }
    var j :| 0 <= j < |s| && s[j] == Entry(e.key, Lookup(s, e.key).value);
    assert i == j;
  }

  lemma {:induction false} HeldInState<K(!new), V(!new)>(c: Settings, s: State<K, V>, e: Entry<K, Timed<V>>,
      now: int, later: int)
    requires Sound(c, s.contents) && e in s.contents
    ensures
      var (after, answer) := TtlGet(c, s, e.key, now, later);
      if now <= e.value.deadline then answer == Some(e.value.value)
      else answer == None && !HasKey(after.contents, e.key)
  {
    LookupOnly(s.contents, e);
    UsedSound(c, s.contents, e.key, e.value);
    LookupFinds(s.contents, e.key);
    WithoutDistinct(Used(s.contents, e.key, e.value), e.key);
    hide DistinctKeys, Without, Used, Lookup;
  }

  /**
   In every run an entry that is held is a hit until its deadline has passed, and once it has passed is
   a miss that removes it; a key that is not held is a miss.
   */
  lemma {:induction false} HeldIsHit<K(!new), V(!new)>(c: Settings, start: int, ops: seq<Op<K, V>>, k: K, now: int,
      later: int)
    ensures
      var s := Run(c, start, ops);
      var (after, answer) := TtlGet(c, s, k, now, later);
      && (forall e :: e in s.contents && e.key == k ==>
            if now <= e.value.deadline then answer == Some(e.value.value)
            else answer == None && !HasKey(after.contents, k))
      && (!HasKey(s.contents, k) ==> answer == None && after == s)
  {
    var s := Run(c, start, ops);
    RunSound(c, start, ops);
    LookupFinds(s.contents, k);
    assert !HasKey(s.contents, k) ==> TtlGet(c, s, k, now, later) == (s, None);
    hide Run, Sound, Lookup, TtlGet, HasKey;
    forall e | e in s.contents && e.key == k
      ensures
        var (after, answer) := TtlGet(c, s, k, now, later);
        if now <= e.value.deadline then answer == Some(e.value.value)
        else answer == None && !HasKey(after.contents, k)
    {
      HeldInState(c, s, e, now, later);
    }
  }

  lemma {:induction false} WithoutMovesUp<K, V>(s: Contents<K, V>, k: K, i: nat) returns (j: nat)
    requires i < |s| && s[i].key != k
    ensures j <= i && j < |Without(s, k)| && Without(s, k)[j] == s[i]
  {
    if i == 0 {
      j := 0;
    } else {
      j := WithoutMovesUp(s[1..], k, i - 1);
      j := if s[0].key == k then j else j + 1;
    }
  }

  lemma {:induction false} AddKeeps<K, V>(c: Settings, s: State<K, V>, k: K, v: V, now: int, later: int, i: nat)
    requires i < |s.contents| && s.contents[i].key != k
    requires c.maxEntries == 0 || i + 1 < c.maxEntries
    requires later <= s.contents[i].value.deadline
    ensures s.contents[i] in TtlAdd(c, s, k, v, now, later).contents
  {
    var e, t := s.contents[i], Timed(v, now + c.ttl);
    var j := WithoutMovesUp(s.contents, k, i);
    hide Without;
    assert Used(s.contents, k, t)[j + 1] == e;
    assert AfterAdd(s.contents, c.maxEntries, k, t)[j + 1] == e;
    UnexpiredExactly(AfterAdd(s.contents, c.maxEntries, k, t), later, e);
  }

  /** An entry that an operation on another key does not push out or find expired stays as it is. */
  lemma {:induction false} OthersStay<K(!new), V(!new)>(c: Settings, start: int, ops: seq<Op<K, V>>, op: Op<K, V>,
      i: nat)
    requires i < |Run(c, start, ops).contents| && !op.Purge?
    requires op.key != Run(c, start, ops).contents[i].key
    requires op.Add? ==>
      && (c.maxEntries == 0 || i + 1 < c.maxEntries)
      && op.later <= Run(c, start, ops).contents[i].value.deadline
    ensures Run(c, start, ops).contents[i] in Apply(c, Run(c, start, ops), op).contents
  {
    var s := Run(c, start, ops);
    var e := s.contents[i];
    RunSound(c, start, ops);
    WithoutMember(s.contents, op.key, e);
    LookupFinds(s.contents, op.key);
    hide Run, Without, Lookup, HasKey;
    match op
    case Add(k, v, now, later) => AddKeeps(c, s, k, v, now, later, i);
    case Get(k, now, later) =>
      if Lookup(s.contents, k).Some? {
        GetKeeps(c, s, k, now, later, e);
      }
    case Remove(k) =>
  }

  lemma {:induction false} GetKeeps<K, V>(c: Settings, s: State<K, V>, k: K, now: int, later: int,
      e: Entry<K, Timed<V>>)
    requires Sound(c, s.contents) && Lookup(s.contents, k).Some? && e in s.contents && e.key != k
    ensures e in TtlGet(c, s, k, now, later).0.contents
  {
    var t := Lookup(s.contents, k).value;
    var touched, renewed := Used(s.contents, k, t), Timed(t.value, later + c.ttl);
    LookupFinds(s.contents, k);
    UsedDistinct(s.contents, k, t);
    UsedDistinct(touched, k, renewed);
    WithoutMember(s.contents, k, e);
    WithoutMember(touched, k, e);
    assert touched[0].key == k;
    hide DistinctKeys, Without;
    assert AfterAdd(touched, c.maxEntries, k, renewed) == Used(touched, k, renewed);
  }

  /** Adding a new key when a removal is due leaves no expired entry and puts the next removal off. */
  lemma {:induction false} RemovalOnAdd<K(!new), V(!new)>(c: Settings, s: State<K, V>, k: K, v: V, now: int,
      later: int)
    ensures
      var r := TtlAdd(c, s, k, v, now, later);
      if !HasKey(s.contents, k) && c.removeExpiredOnAdd && s.nextRemove < later
      then r.nextRemove == later + c.ttl && forall e :: e in r.contents ==> later <= e.value.deadline
      else r.nextRemove == s.nextRemove
  {
    LookupFinds(s.contents, k);
    hide Lookup, HasKey, AfterAdd, Unexpired;
    var added := AfterAdd(s.contents, c.maxEntries, k, Timed(v, now + c.ttl));
    forall e | e in Unexpired(added, later) ensures later <= e.value.deadline {
      UnexpiredExactly(added, later, e);
    }
  }
}
