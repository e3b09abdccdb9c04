/** The LRU cache: a list of elements and a map from keys to them. */
module LruCaches {
  import opened Options
  import opened LruSpec

  /** The identity of a list element; what it holds can change in place. */
  newtype Element = e: int | true

  function Unlink(list: seq<Element>, e: Element): seq<Element> {
    if list == [] then [] else if list[0] == e then list[1..] else [list[0]] + Unlink(list[1..], e)
  }

  ghost predicate Stored<K, V>(list: seq<Element>, entries: map<Element, Entry<K, V>>) {
    forall i :: 0 <= i < |list| ==> list[i] in entries
  }

  ghost function ContentsOf<K, V>(list: seq<Element>, entries: map<Element, Entry<K, V>>): Contents<K, V>
    requires Stored(list, entries)
  {
    seq(|list|, i requires 0 <= i < |list| => entries[list[i]])
  }

  ghost predicate AllDifferent(list: seq<Element>) {
    forall i, j :: 0 <= i < j < |list| ==> list[i] != list[j]
  }

  /** Map and list are in bijection: each key leads to the one element that holds it. */
  ghost predicate Linked<K, V>(list: seq<Element>, entries: map<Element, Entry<K, V>>, items: map<K, Element>,
      next: Element) {
    && Stored(list, entries) && AllDifferent(list)
    && (forall k :: k in items ==> items[k] in list && entries[items[k]].key == k)
    && (forall e :: e in list ==> e < next && entries[e].key in items && items[entries[e].key] == e)
  }

  lemma {:induction false} UnlinkMembers(list: seq<Element>, e: Element)
    requires AllDifferent(list)
    ensures AllDifferent(Unlink(list, e))
    ensures forall x :: x in Unlink(list, e) <==> x in list && x != e
  {
    if list != [] {
      var (first, rest) := (list[0], list[1..]);
      assert list == [first] + rest;
      assert first !in rest;
      UnlinkMembers(rest, e);
      if first != e {
        PrependDifferent(first, Unlink(rest, e));
      }
    }
  }

  lemma {:induction false} PrependDifferent(x: Element, s: seq<Element>)
    requires AllDifferent(s) && x !in s
    ensures AllDifferent([x] + s)
  {
    assert forall i :: 0 <= i < |s| ==> s[i] in s;
  }

  /** Unlinking an element takes its key out of the contents. */
  lemma {:induction false} UnlinkContents<K, V>(list: seq<Element>, entries: map<Element, Entry<K, V>>, e: Element,
      k: K)
    requires Stored(list, entries) && AllDifferent(list)
    requires forall x :: x in list ==> (entries[x].key == k <==> x == e)
    ensures Stored(Unlink(list, e), entries)
    ensures ContentsOf(Unlink(list, e), entries) == Without(ContentsOf(list, entries), k)
  {
    if list != [] {
      var t := list[1..];
      assert list[0] in list;
      forall x | x in t ensures entries[x].key == k <==> x == e { assert x in list; }
      UnlinkContents(t, entries, e, k);
      var s := ContentsOf(list, entries);
      assert s[1..] == ContentsOf(t, entries);
      if list[0] == e {
        assert !HasKey(s[1..], k);
        WithoutAbsent(s[1..], k);
      } else {
        assert ContentsOf([list[0]] + Unlink(t, e), entries) == [s[0]] + ContentsOf(Unlink(t, e), entries);
      }
    }
  }

  lemma {:induction false} LinkedKeys<K, V>(list: seq<Element>, entries: map<Element, Entry<K, V>>,
      items: map<K, Element>, next: Element, k: K)
    requires Linked(list, entries, items, next)
    ensures k in items ==> items[k] in list && items[k] in entries
    ensures Lookup(ContentsOf(list, entries), k) == if k in items then Some(entries[items[k]].value) else None
    ensures k in items <==> HasKey(ContentsOf(list, entries), k)
  {
    var s := ContentsOf(list, entries);
    LookupFinds(s, k);
    if k in items {
      var i :| 0 <= i < |list| && list[i] == items[k];
      assert s[i].key == k;
    }
    if Lookup(s, k).Some? {
      var i :| 0 <= i < |s| && s[i] == Entry(k, Lookup(s, k).value);
      assert list[i] in list;
    }
  }

  lemma {:induction false} LinkedDistinct<K, V>(list: seq<Element>, entries: map<Element, Entry<K, V>>,
      items: map<K, Element>, next: Element)
    requires Linked(list, entries, items, next)
    ensures DistinctKeys(ContentsOf(list, entries))
  {
    var s := ContentsOf(list, entries);
    forall i, j | 0 <= i < j < |s| ensures s[i].key != s[j].key {
      assert list[i] in list && list[j] in list;
    }
  }

  lemma OnlyElement<K, V>(list: seq<Element>, entries: map<Element, Entry<K, V>>,
      items: map<K, Element>, next: Element, e: Element)
    requires Linked(list, entries, items, next) && e in list
    ensures forall x :: x in list ==> (entries[x].key == entries[e].key <==> x == e)
  {
  }

  /** Removing an element from list and map keeps them in bijection. */
  lemma {:induction false} RemoveLinked<K, V>(list: seq<Element>, entries: map<Element, Entry<K, V>>,
      items: map<K, Element>, next: Element, e: Element)
    requires Linked(list, entries, items, next) && e in list
    ensures
      var k := entries[e].key;
      && Linked(Unlink(list, e), entries, items - {k}, next)
      && ContentsOf(Unlink(list, e), entries) == Without(ContentsOf(list, entries), k)
  {
    OnlyElement(list, entries, items, next, e);
    UnlinkContents(list, entries, e, entries[e].key);
    UnlinkMembers(list, e);
  }

  lemma {:induction false} ContentsFront<K, V>(rest: seq<Element>, entries: map<Element, Entry<K, V>>, e: Element,
      x: Entry<K, V>)
    requires Stored(rest, entries) && e !in rest
    ensures Stored([e] + rest, entries[e := x])
    ensures ContentsOf([e] + rest, entries[e := x]) == [x] + ContentsOf(rest, entries)
  {
    assert forall i :: 0 <= i < |rest| ==> rest[i] in rest;
  }

  lemma {:induction false} RelinkFront<K, V>(list: seq<Element>, entries: map<Element, Entry<K, V>>,
      items: map<K, Element>, next: Element,
      rest: seq<Element>, e: Element, v: V)
    requires Linked(list, entries, items, next) && e in list
    requires AllDifferent(rest) && forall x :: x in rest <==> x in list && x != e
    ensures Linked([e] + rest, entries[e := Entry(entries[e].key, v)], items, next)
  {
    var list', entries' := [e] + rest, entries[e := Entry(entries[e].key, v)];
    assert forall i :: 0 <= i < |rest| ==> rest[i] in rest;
    assert forall x :: x in list' <==> x in list;
    assert forall x :: x in list ==> entries'[x].key == entries[x].key;
  }

  /** Moving an element to the front, with a new value for its key. */
  lemma {:induction false} FrontLinked<K, V>(list: seq<Element>, entries: map<Element, Entry<K, V>>,
      items: map<K, Element>, next: Element, e: Element, v: V)
    requires Linked(list, entries, items, next) && e in list
    ensures
      var k := entries[e].key;
      var list', entries' := [e] + Unlink(list, e), entries[e := Entry(k, v)];
      && Linked(list', entries', items, next)
      && ContentsOf(list', entries') == Used(ContentsOf(list, entries), k, v)
  {
    RemoveLinked(list, entries, items, next, e);
    UnlinkMembers(list, e);
    RelinkFront(list, entries, items, next, Unlink(list, e), e, v);
    LinkedStored(Unlink(list, e), entries, items - {entries[e].key}, next);
    hide Linked;
    ContentsFront(Unlink(list, e), entries, e, Entry(entries[e].key, v));
  }

  /** Pushing a new element for a new key. */
  lemma {:induction false} PushLinked<K, V>(list: seq<Element>, entries: map<Element, Entry<K, V>>,
      items: map<K, Element>, next: Element, k: K, v: V)
    requires Linked(list, entries, items, next) && k !in items
    ensures
      var list', entries' := [next] + list, entries[next := Entry(k, v)];
      && Linked(list', entries', items[k := next], next + 1)
      && ContentsOf(list', entries') == Used(ContentsOf(list, entries), k, v)
  {
    var list', entries' := [next] + list, entries[next := Entry(k, v)];
    assert forall i :: 0 <= i < |list| ==> list[i] in list;
    LinkedKeys(list, entries, items, next, k);
    WithoutAbsent(ContentsOf(list, entries), k);
    ContentsFront(list, entries, next, Entry(k, v));
  }

  // Removal of a set of keys.

  function Dropped<K(==), V>(s: Contents<K, V>, keys: set<K>): Contents<K, V> {
    if s == [] then [] else (if s[0].key in keys then [] else [s[0]]) + Dropped(s[1..], keys)
  }

  function Unmatched<K, V>(s: Contents<K, V>, p: (K, V) -> bool): Contents<K, V> {
    if s == [] then [] else (if p(s[0].key, s[0].value) then [] else [s[0]]) + Unmatched(s[1..], p)
  }

  /** What is left are the entries that do not match. */
  lemma {:induction false} UnmatchedExactly<K, V>(s: Contents<K, V>, p: (K, V) -> bool, e: Entry<K, V>)
    ensures e in Unmatched(s, p) <==> e in s && !p(e.key, e.value)
  {
    if s != [] {
      UnmatchedExactly(s[1..], p, e);
      assert s == [s[0]] + s[1..];
    }
  }

  /** What is left is in the order it was in. */
  lemma {:induction false} UnmatchedInOrder<K, V>(s: Contents<K, V>, p: (K, V) -> bool, i: nat, j: nat)
    returns (i': nat, j': nat)
    requires i < j < |Unmatched(s, p)|
    ensures i' < j' < |s| && s[i'] == Unmatched(s, p)[i] && s[j'] == Unmatched(s, p)[j]
  {
    if p(s[0].key, s[0].value) {
      i', j' := UnmatchedInOrder(s[1..], p, i, j);
      i', j' := i' + 1, j' + 1;
    } else if i > 0 {
      i', j' := UnmatchedInOrder(s[1..], p, i - 1, j - 1);
      i', j' := i' + 1, j' + 1;
    } else {
      var e := Unmatched(s[1..], p)[j - 1];
      UnmatchedExactly(s[1..], p, e);
      var k :| 0 <= k < |s[1..]| && s[1..][k] == e;
      i', j' := 0, k + 1;
    }
  }

  lemma {:induction false} DropOneMore<K, V>(s: Contents<K, V>, keys: set<K>, k: K)
    ensures Without(Dropped(s, keys), k) == Dropped(s, keys + {k})
  {
    if s != [] {
      DropOneMore(s[1..], keys, k);
      var d := Dropped(s[1..], keys);
      assert ([s[0]] + d)[1..] == d && [] + d == d;
    }
  }

  lemma {:induction false} DropNone<K, V>(s: Contents<K, V>)
    ensures Dropped(s, {}) == s
  {
    if s != [] {
      DropNone(s[1..]);
    }
  }

  lemma {:induction false} DropMatching<K, V>(s: Contents<K, V>, keys: set<K>, p: (K, V) -> bool)
    requires forall e :: e in s ==> (e.key in keys <==> p(e.key, e.value))
    ensures Dropped(s, keys) == Unmatched(s, p)
  {
    if s != [] {
      assert s[0] in s && forall e :: e in s[1..] ==> e in s;
      DropMatching(s[1..], keys, p);
    }
  }

  class LRU<K(==), V> {
    const maxEntries: nat
    var evictList: seq<Element>
    var entries: map<Element, Entry<K, V>>
    var items: map<K, Element>
    var next: Element

    ghost predicate Valid()
      reads this
    {
      Linked(evictList, entries, items, next) && (maxEntries != 0 ==> |evictList| <= maxEntries)
    }

    ghost function Contents(): Contents<K, V>
      reads this
      requires Valid()
    {
      ContentsOf(evictList, entries)
    }

    constructor (maxEntries: nat)
      ensures Valid() && Contents() == [] && this.maxEntries == maxEntries
    {
      this.maxEntries := maxEntries;
      evictList, entries, items, next := [], map[], map[], 0;
    }

    method RemoveElement(e: Element)
      requires Linked(evictList, entries, items, next) && e in evictList
      modifies this`evictList, this`items
      ensures Linked(evictList, entries, items, next)
      ensures ContentsOf(evictList, entries) == Without(ContentsOf(old(evictList), entries), entries[e].key)
      ensures |evictList| == |old(evictList)| - 1
      ensures items == old(items) - {entries[e].key}
    {
      hide Linked;
      LinkedStored(evictList, entries, items, next);
      RemoveLinked(evictList, entries, items, next, e);
      RemoveLength(evictList, entries, items, next, e);
      evictList := Unlink(evictList, e);
      items := items - {entries[e].key};
    }

    /** Adds or renews a key; answers whether the key is new. */
    method Add(key: K, value: V) returns (added: bool)
      requires Valid()
      modifies this
      ensures Valid() && Contents() == AfterAdd(old(Contents()), maxEntries, key, value)
      ensures added <==> !HasKey(old(Contents()), key)
    {
      hide Linked;
      LinkedStored(evictList, entries, items, next);
      LinkedKeys(evictList, entries, items, next, key);
      LinkedDistinct(evictList, entries, items, next);
      UsedDistinct(Contents(), key, value);
      if key in items {
        var e := items[key];
        KeyOfElement(evictList, entries, items, next, key);
        FrontLinked(evictList, entries, items, next, e, value);
        evictList := [e] + Unlink(evictList, e);
        entries := entries[e := Entry(key, value)];
        return false;
      }
      PushLinked(evictList, entries, items, next, key, value);
      evictList := [next] + evictList;
      entries := entries[next := Entry(key, value)];
      items := items[key := next];
      next := next + 1;
      LinkedStored(evictList, entries, items, next);
      if maxEntries != 0 && |evictList| > maxEntries {
        OldestCut(evictList, entries, items, next, maxEntries);
        RemoveElement(evictList[|evictList| - 1]);
      }
      added := true;
    }

    /** A hit makes the key the most recent one. */
    method Get(key: K) returns (value: Option<V>)
      requires Valid()
      modifies this
      ensures Valid() && Contents() == AfterGet(old(Contents()), key) && value == Lookup(old(Contents()), key)
    {
      hide Linked;
      LinkedStored(evictList, entries, items, next);
      LinkedKeys(evictList, entries, items, next, key);
      if key !in items {
        return None;
      }
      var e := items[key];
      KeyOfElement(evictList, entries, items, next, key);
      FrontLinked(evictList, entries, items, next, e, entries[e].value);
      LinkedDistinct(evictList, entries, items, next);
      UsedDistinct(Contents(), key, entries[e].value);
      assert entries[e := Entry(key, entries[e].value)] == entries;
      evictList := [e] + Unlink(evictList, e);
      value := Some(entries[e].value);
    }

    method Peek(key: K) returns (value: Option<V>)
      requires Valid()
      ensures value == Lookup(Contents(), key)
    {
      LinkedKeys(evictList, entries, items, next, key);
      value := if key in items then Some(entries[items[key]].value) else None;
    }

    method Remove(key: K)
      requires Valid()
      modifies this
      ensures Valid() && Contents() == Without(old(Contents()), key)
    {
      LinkedKeys(evictList, entries, items, next, key);
      if key in items {
        RemoveElement(items[key]);
      } else {
        WithoutAbsent(Contents(), key);
      }
    }

    method Purge()
      requires Valid()
      modifies this
      ensures Valid() && Contents() == []
    {
      items := map[];
      evictList := [];
    }

    /** Removes every entry that the predicate matches, in any order. */
    method RemoveMatching(p: (K, V) -> bool)
      requires Valid()
      modifies this
      ensures Valid() && Contents() == Unmatched(old(Contents()), p)
    {
      ghost var before, all := Contents(), items;
      ghost var removed: set<K> := {};
      var keys := items.Keys;
      DropNone(before);
      while keys != {}
        invariant Linked(evictList, entries, items, next) && (maxEntries != 0 ==> |evictList| <= maxEntries)
        invariant entries == old(entries) && keys <= items.Keys && items == all - removed && removed !! keys
        invariant removed <= all.Keys
        invariant ContentsOf(evictList, entries) == Dropped(before, removed)
        invariant forall k :: k in all && k !in keys ==> (k in removed <==> p(k, old(entries)[all[k]].value))
        decreases keys
      {
        var k :| k in keys;
        keys := keys - {k};
        var e := items[k];
        KeyOfElement(evictList, entries, items, next, k);
        if p(k, entries[e].value) {
          DropOneMore(before, removed, k);
          RemoveElement(e);
          removed := removed + {k};
        }
      }
      MatchedKeys(old(evictList), old(entries), all, old(next), removed, p);
    }
  }

  lemma LinkedStored<K, V>(list: seq<Element>, entries: map<Element, Entry<K, V>>,
      items: map<K, Element>, next: Element)
    requires Linked(list, entries, items, next)
    ensures Stored(list, entries) && |ContentsOf(list, entries)| == |list|
  {
  }

  lemma KeyOfElement<K, V>(list: seq<Element>, entries: map<Element, Entry<K, V>>,
      items: map<K, Element>, next: Element, k: K)
    requires Linked(list, entries, items, next) && k in items
    ensures items[k] in list && items[k] in entries && entries[items[k]].key == k
  {
  }

  lemma {:induction false} RemoveLength<K, V>(list: seq<Element>, entries: map<Element, Entry<K, V>>,
      items: map<K, Element>, next: Element, e: Element)
    requires Linked(list, entries, items, next) && e in list
    ensures |Unlink(list, e)| == |list| - 1 && e in entries
  {
    RemoveLinked(list, entries, items, next, e);
    LinkedDistinct(list, entries, items, next);
    var i :| 0 <= i < |list| && list[i] == e;
    assert ContentsOf(list, entries)[i].key == entries[e].key;
    WithoutDistinct(ContentsOf(list, entries), entries[e].key);
  }

  /** Removing the last element of a list one too long is cutting it. */
  lemma {:induction false} OldestCut<K, V>(list: seq<Element>, entries: map<Element, Entry<K, V>>,
      items: map<K, Element>, next: Element, limit: nat)
    requires Linked(list, entries, items, next) && limit != 0 && |list| == limit + 1
    ensures
      var e := list[limit];
      e in entries && Without(ContentsOf(list, entries), entries[e].key) == Cut(ContentsOf(list, entries), limit)
  {
    var s, k := ContentsOf(list, entries), entries[list[limit]].key;
    LinkedDistinct(list, entries, items, next);
    WithoutDistinct(s, k);
    WithoutCut(s, k, limit);
    assert s[limit].key == k;
    assert !HasKey(s[..limit], k);
  }

  lemma {:induction false} MatchedKeys<K, V>(list: seq<Element>, entries: map<Element, Entry<K, V>>,
      items: map<K, Element>, next: Element,
      removed: set<K>, p: (K, V) -> bool)
    requires Linked(list, entries, items, next)
    requires forall k :: k in items ==> (k in removed <==> p(k, entries[items[k]].value))
    ensures Dropped(ContentsOf(list, entries), removed) == Unmatched(ContentsOf(list, entries), p)
  {
    var s := ContentsOf(list, entries);
    forall e | e in s ensures e.key in removed <==> p(e.key, e.value) {
      var i :| 0 <= i < |s| && s[i] == e;
      assert list[i] in list;
    }
    DropMatching(s, removed, p);
  }
}
