/** The critical sections as code on the pool's fields; each is one step of the protocol. */
module ScrapeSections {
  import opened ScrapePools
  import opened ScrapeProtocol

  /** A pool that gained running loops for some hashes and is otherwise as before. */
  ghost predicate Gained(p: Pool, p': Pool, hashes: set<int>) {
    && p'.activeTargets.Keys == p'.loops.Keys == p.loops.Keys + hashes
    && |p.table| <= |p'.table| && p'.table[..|p.table|] == p.table && p'.cancelled == p.cancelled
    && (forall h :: h in p.loops ==> p'.loops[h] == p.loops[h])
    && (forall h :: h in p'.loops && h !in p.loops ==>
          |p.table| <= p'.loops[h] < |p'.table| && p'.table[p'.loops[h]] == NewLoop(p, h, Running))
  }

  lemma {:induction false} GainsOne(p: Pool, p': Pool, hashes: set<int>, t: Target)
    requires Gained(p, p', hashes)
    ensures Gained(p, AddTarget(p', t), hashes + {t.hash})
  {
    var q := AddTarget(p', t);
    if t.hash in p'.activeTargets {
      assert q.loops == p'.loops && q.table == p'.table && q.activeTargets.Keys == p'.activeTargets.Keys;
    } else {
      assert q.activeTargets.Keys == p'.activeTargets.Keys + {t.hash} && q.loops.Keys == p'.loops.Keys + {t.hash};
      assert q.table[..|p.table|] == p'.table[..|p.table|];
    }
  }

  lemma {:induction false} AddsKeys(p: Pool, targets: seq<Target>)
    requires p.activeTargets.Keys == p.loops.Keys
    ensures Gained(p, AddTargets(p, targets), Hashes(targets))
  {
    if targets == [] {
      assert Hashes(targets) == {};
    } else {
      hide Hashes, Gained;
      var init, t := targets[..|targets| - 1], targets[|targets| - 1];
      AddsKeys(p, init);
      assert targets == init + [t];
      HashesSnoc(init, t);
      GainsOne(p, AddTargets(p, init), Hashes(init), t);
    }
  }

  lemma {:induction false} HashesSnoc(targets: seq<Target>, t: Target)
    ensures Hashes(targets + [t]) == Hashes(targets) + {t.hash}
  {
    assert (targets + [t])[|targets|] == t;
    assert forall i :: 0 <= i < |targets| ==> (targets + [t])[i] == targets[i];
  }

  ghost function Elements(hs: seq<int>): set<int> {
    set i | 0 <= i < |hs| :: hs[i]
  }

  lemma {:induction false} ElementsSnoc(hs: seq<int>, h: int)
    ensures Elements(hs + [h]) == Elements(hs) + {h}
  {
    assert (hs + [h])[|hs|] == h;
    assert forall i :: 0 <= i < |hs| ==> (hs + [h])[i] == hs[i];
  }

  /** A state that lost the loops of some hashes, which the sync thread now awaits. */
  ghost predicate Lost(s: State, s': State, hashes: set<int>) {
    && Synchronized(s'.pool) && s'.config == s.config && s'.pending == s.pending
    && s'.pool.loops == s.pool.loops - hashes && s'.pool.activeTargets == s.pool.activeTargets - hashes
    && |s'.pool.table| == |s.pool.table|
    && (forall l :: 0 <= l < |s.pool.table| ==> s'.pool.table[l].phase == s.pool.table[l].phase)
    && s'.sync == s.sync + (set h | h in hashes && h in s.pool.loops :: s.pool.loops[h])
  }

  lemma {:induction false} LosesOne(s: State, s': State, hashes: set<int>, h: int)
    requires Lost(s, s', hashes) && h !in hashes && h in s.pool.loops
    ensures h in s'.pool.loops && s'.pool.loops[h] < |s'.pool.table|
    ensures Lost(s, s'.(pool := RemoveTarget(s'.pool, h), sync := s'.sync + {s'.pool.loops[h]}), hashes + {h})
  {
    assert Synchronized(s'.pool) && h in s'.pool.loops;
    RemoveSynchronized(s'.pool, h);
    hide Synchronized;
    assert s'.pool.loops - {h} == s.pool.loops - (hashes + {h});
    assert s'.pool.activeTargets - {h} == s.pool.activeTargets - (hashes + {h});
  }

  /** Removing distinct current hashes takes exactly their loops out. */
  lemma {:induction false} RemovedForSync(s: State, removed: seq<int>)
    requires Synchronized(s.pool)
    requires forall i :: 0 <= i < |removed| ==> removed[i] in s.pool.loops
    requires forall i, j :: 0 <= i < j < |removed| ==> removed[i] != removed[j]
    ensures Lost(s, RemoveForSync(s, removed), Elements(removed))
  {
    if removed == [] {
      assert Elements(removed) == {};
    } else {
      hide Lost, Synchronized;
      var init, h := removed[..|removed| - 1], removed[|removed| - 1];
      RemovedForSync(s, init);
      assert removed == init + [h];
      ElementsSnoc(init, h);
      assert h !in Elements(init);
      LosesOne(s, RemoveForSync(s, init), Elements(init), h);
    }
  }

  /** The i-th of the targets is the last one with its hash. */
  ghost predicate LastOfHash(targets: seq<Target>, i: nat) {
    i < |targets| && forall j :: i < j < |targets| ==> targets[j].hash != targets[i].hash
  }

  /** A known target stays the one it was, and a new one has its hash; what is not given is untouched. */
  lemma {:induction false} TargetsStay(p: Pool, targets: seq<Target>, h: int)
    ensures
      var active := AddTargets(p, targets).activeTargets;
      && (h in active <==> h in p.activeTargets || h in Hashes(targets))
      && (h in active ==> active[h].hash == if h in p.activeTargets then p.activeTargets[h].hash else h)
      && (h in p.activeTargets && h !in Hashes(targets) ==> active[h] == p.activeTargets[h])
  {
    if targets == [] {
      assert Hashes(targets) == {};
    } else {
      var init, last := targets[..|targets| - 1], targets[|targets| - 1];
      assert targets == init + [last];
      TargetsStay(p, init, h);
      HashesSnoc(init, last);
      hide Hashes;
    }
  }

  /** A target shows the labels with which its hash was given last. */
  lemma {:induction false} LabelsGivenLast(p: Pool, targets: seq<Target>, i: nat)
    requires LastOfHash(targets, i)
    ensures
      var (active, h) := (AddTargets(p, targets).activeTargets, targets[i].hash);
      h in active && active[h].discoveredLabels == targets[i].discoveredLabels
  {
    var k := |targets| - 1;
    var init := targets[..k];
    if i < k {
      assert forall j :: i < j < k ==> init[j] == targets[j];
      LabelsGivenLast(p, init, i);
      assert targets[k].hash != targets[i].hash;
    }
  }

  /**
   What a sync section does: afterwards exactly the given hashes are active, loops of retained targets
   are untouched, new targets have running loops, and the loops of vanished targets are awaited.
   */
  lemma {:induction false} SyncEffect(s: State, targets: seq<Target>, removed: seq<int>, s': State)
    requires Inv(s) && Next(s, SyncCollect(targets, removed), s')
    ensures s'.pool.activeTargets.Keys == Hashes(targets) == s'.pool.loops.Keys
    ensures forall h :: h in s'.pool.loops && h in s.pool.loops ==> s'.pool.loops[h] == s.pool.loops[h]
    ensures forall h :: h in s'.pool.loops && h !in s.pool.loops ==> s'.pool.loops[h] >= |s.pool.table|
    ensures s'.sync == set h | h in s.pool.loops && h !in Hashes(targets) :: s.pool.loops[h]
  {
    var p := AddTargets(s.pool, targets);
    SynchronizedKeys(s.pool);
    AddsKeys(s.pool, targets);
    AddsInv(s, targets);
    RemovedForSync(s.(pool := p), removed);
    EnumeratedElements(removed, p.activeTargets.Keys - Hashes(targets));
    SynchronizedKeys(s'.pool);
    hide Inv, Synchronized, AddTargets, RemoveForSync, Elements, Hashes;
    assert s'.pool.loops.Keys == Hashes(targets);
  }

  /**
   What a sync section shows of its targets: each given hash has the labels it was given last, a known
   target is kept, and the loop of a new one is run.
   */
  lemma {:induction false} SyncShows(s: State, targets: seq<Target>, removed: seq<int>, s': State, i: nat)
    requires Inv(s) && Next(s, SyncCollect(targets, removed), s') && LastOfHash(targets, i)
    ensures
      var h := targets[i].hash;
      && h in s'.pool.activeTargets && h in s'.pool.loops
      && s'.pool.activeTargets[h].discoveredLabels == targets[i].discoveredLabels
      && s'.pool.activeTargets[h].hash == (if h in s.pool.activeTargets then s.pool.activeTargets[h].hash else h)
      && s'.pool.loops[h] < |s'.pool.table|
      && (h !in s.pool.loops ==> s'.pool.table[s'.pool.loops[h]].phase == Running)
  {
    var p, h := AddTargets(s.pool, targets), targets[i].hash;
    SyncLoses(s, targets, removed, s');
    TargetsStay(s.pool, targets, h);
    LabelsGivenLast(s.pool, targets, i);
    assert h in Hashes(targets);
    hide Inv, Next, Synchronized, AddTargets, Hashes, Gained;
    if h !in s.pool.loops {
      GainedLoop(s.pool, p, Hashes(targets), h);
    }
  }

  lemma {:induction false} SyncLoses(s: State, targets: seq<Target>, removed: seq<int>, s': State)
    requires Inv(s) && Next(s, SyncCollect(targets, removed), s')
    ensures
      var p := AddTargets(s.pool, targets);
      && Gained(s.pool, p, Hashes(targets)) && s.pool.activeTargets.Keys == s.pool.loops.Keys
      && p.activeTargets.Keys == p.loops.Keys && (forall h :: h in p.loops ==> p.loops[h] < |p.table|)
      && Lost(s.(pool := p), s', p.activeTargets.Keys - Hashes(targets))
  {
    var p := AddTargets(s.pool, targets);
    SynchronizedKeys(s.pool);
    AddsKeys(s.pool, targets);
    AddsInv(s, targets);
    SynchronizedKeys(p);
    assert forall h :: h in p.loops ==> p.loops[h] < |p.table| by { assert Synchronized(p); }
    RemovedForSync(s.(pool := p), removed);
    EnumeratedElements(removed, p.activeTargets.Keys - Hashes(targets));
    hide Inv, Synchronized, AddTargets, RemoveForSync, Elements, Hashes, Gained, Lost;
  }

  lemma GainedLoop(p: Pool, p': Pool, hashes: set<int>, h: int)
    requires Gained(p, p', hashes) && h in p'.loops && h !in p.loops
    ensures p'.loops[h] < |p'.table| && p'.table[p'.loops[h]].phase == Running
  {
  }

  /** The loops of some hashes were replaced by new ones that are not run yet. */
  ghost predicate Renewed(p: Pool, p': Pool, hashes: set<int>) {
    && p'.activeTargets == p.activeTargets && p'.loops.Keys == p.loops.Keys && |p.table| <= |p'.table|
    && (forall h :: h in p.loops && h !in hashes ==> p'.loops[h] == p.loops[h])
    && (forall h :: h in p.loops && h in hashes ==>
          && |p.table| <= p'.loops[h] < |p'.table|
          && p'.table[p'.loops[h]].phase == Created && p'.table[p'.loops[h]].hash == h)
  }

  /** The new loops wait for the old ones, which the config thread awaits, too. */
  ghost predicate Swapped(s: State, s': State, hashes: set<int>) {
    && Renewed(s.pool, s'.pool, hashes) && s'.sync == s.sync && s'.pool.loops.Keys == s.pool.loops.Keys
    && s'.config == Reloading(set h | h in hashes && h in s.pool.loops :: s.pool.loops[h])
    && s'.pending
       == s.pending + (set h | h in hashes && h in s.pool.loops :: Pair(s.pool.loops[h], s'.pool.loops[h]))
  }

  lemma {:induction false} RenewsOne(p: Pool, p': Pool, hashes: set<int>, h: int)
    requires Renewed(p, p', hashes) && h !in hashes && h in p.loops && p.loops[h] < |p.table|
    ensures h in p'.loops && p'.loops[h] == p.loops[h] < |p'.table|
    ensures Renewed(p, SwapLoop(p', h), hashes + {h})
    ensures SwapLoop(p', h).loops == p'.loops[h := |p'.table|]
  {
    var q := SwapLoop(p', h);
    assert q.loops.Keys == p'.loops.Keys;
    forall g | g in p.loops && g in hashes
      ensures q.loops[g] == p'.loops[g] && q.table[q.loops[g]].phase == p'.table[p'.loops[g]].phase
      ensures q.table[q.loops[g]].hash == p'.table[p'.loops[g]].hash
    {
    }
  }

  lemma {:induction false} SwapsOne(s: State, s': State, hashes: set<int>, h: int)
    requires Swapped(s, s', hashes) && h !in hashes && h in s.pool.loops && s.pool.loops[h] < |s.pool.table|
    ensures h in s'.pool.loops && s'.pool.loops[h] < |s'.pool.table| && s'.config.Reloading?
    ensures Swapped(s,
      s'.(pool := SwapLoop(s'.pool, h), config := Reloading(s'.config.olds + {s'.pool.loops[h]}),
        pending := s'.pending + {Pair(s'.pool.loops[h], |s'.pool.table|)}), hashes + {h})
  {
    RenewsOne(s.pool, s'.pool, hashes, h);
    hide Renewed, SwapLoop;
    assert (set g | g in hashes + {h} && g in s.pool.loops :: s.pool.loops[g])
        == (set g | g in hashes && g in s.pool.loops :: s.pool.loops[g]) + {s.pool.loops[h]};
    SwapsPairs(s.pool.loops, s'.pool.loops, SwapLoop(s'.pool, h).loops, hashes, h);
  }

  lemma {:induction false} SwapsPairs(old': map<int, nat>, loops: map<int, nat>, more: map<int, nat>, hashes: set<int>,
      h: int)
    requires old'.Keys == loops.Keys && h in loops && h !in hashes && h in more && more == loops[h := more[h]]
    ensures (set g | g in hashes + {h} && g in old' :: Pair(old'[g], more[g]))
         == (set g | g in hashes && g in old' :: Pair(old'[g], loops[g])) + {Pair(old'[h], more[h])}
  {
    var before, after := set g | g in hashes && g in old' :: Pair(old'[g], loops[g]),
      set g | g in hashes + {h} && g in old' :: Pair(old'[g], more[g]);
    forall q | q in before ensures q in after {
      var g :| g in hashes && g in old' && q == Pair(old'[g], loops[g]);
      assert more[g] == loops[g] && g in hashes + {h};
    }
    assert h in hashes + {h} && Pair(old'[h], more[h]) in after;
  }

  lemma {:induction false} SwappedMore(s: State, init: seq<int>, h: int)
    requires Swapped(s, SwapAll(s, init), Elements(init)) && h !in Elements(init)
    requires h in s.pool.loops && s.pool.loops[h] < |s.pool.table|
    ensures Swapped(s, SwapAll(s, init + [h]), Elements(init + [h]))
  {
    SwapsOne(s, SwapAll(s, init), Elements(init), h);
    ElementsSnoc(init, h);
    assert (init + [h])[..|init|] == init;
    hide Swapped, SwapLoop, Elements;
  }

  lemma NothingSwapped(s: State)
    ensures Swapped(s, SwapAll(s, []), Elements([]))
  {
    assert Elements([]) == {};
  }

  lemma NotAmong(hs: seq<int>, h: int)
    requires forall i :: 0 <= i < |hs| ==> hs[i] != h
    ensures h !in Elements(hs)
  {
  }

  lemma {:induction false} SwappedAll(s: State, order: seq<int>)
    requires Synchronized(s.pool)
    requires forall i :: 0 <= i < |order| ==> order[i] in s.pool.loops
    requires forall i, j :: 0 <= i < j < |order| ==> order[i] != order[j]
    ensures Swapped(s, SwapAll(s, order), Elements(order))
  {
    hide Swapped, SwapAll;
    if order == [] {
      NothingSwapped(s);
    } else {
      var init, h := order[..|order| - 1], order[|order| - 1];
      SynchronizedKeys(s.pool);
      LoopInTable(s.pool, h);
      SwappedAll(s, init);
      NotAmong(init, h);
      SwappedMore(s, init, h);
      assert order == init + [h];
    }
  }

  /**
   What a reload section does: no target changes, every loop is replaced by a new one of the same hash that
   waits for it and is not run yet, and all the old ones are awaited.
   */
  lemma {:induction false} ReloadEffect(s: State, order: seq<int>, s': State)
    requires Inv(s) && Next(s, ReloadCollect(order), s')
    ensures s'.pool.activeTargets == s.pool.activeTargets && s'.pool.loops.Keys == s.pool.loops.Keys
    ensures forall h :: h in s.pool.loops ==>
      && |s.pool.table| <= s'.pool.loops[h] < |s'.pool.table|
      && s'.pool.table[s'.pool.loops[h]].phase == Created && s'.pool.table[s'.pool.loops[h]].hash == h
      && Pair(s.pool.loops[h], s'.pool.loops[h]) in s'.pending
    ensures s'.config == Reloading(set h | h in s.pool.loops :: s.pool.loops[h])
    ensures forall q :: q in s'.pending && q !in s.pending ==>
      exists h :: h in s.pool.loops && q == Pair(s.pool.loops[h], s'.pool.loops[h])
  {
    SwappedAll(s, order);
    EnumeratedElements(order, s.pool.loops.Keys);
    assert (set h | h in s.pool.loops.Keys && h in s.pool.loops :: s.pool.loops[h])
        == (set h | h in s.pool.loops :: s.pool.loops[h]);
    hide Inv, SwapAll, Elements, Enumerates;
  }

  /** A state that lost the loops of some hashes, which the config thread now awaits. */
  ghost predicate Emptied(s: State, s': State, hashes: set<int>) {
    && s'.pool.activeTargets == s.pool.activeTargets - hashes && s'.pool.loops == s.pool.loops - hashes
    && |s'.pool.table| == |s.pool.table| && s'.sync == s.sync && s'.pending == s.pending
    && s'.config == Stopping(set h | h in hashes && h in s.pool.loops :: s.pool.loops[h])
  }

  lemma {:induction false} EmptiesOne(s: State, s': State, hashes: set<int>, h: int)
    requires Emptied(s, s', hashes) && h !in hashes && h in s.pool.loops && s.pool.loops[h] < |s.pool.table|
    ensures h in s'.pool.loops && s'.pool.loops[h] < |s'.pool.table| && s'.config.Stopping?
    ensures Emptied(s,
      s'.(pool := RemoveTarget(s'.pool, h), config := Stopping(s'.config.toStop + {s'.pool.loops[h]})), hashes + {h})
  {
    assert s'.pool.loops - {h} == s.pool.loops - (hashes + {h});
    assert s'.pool.activeTargets - {h} == s.pool.activeTargets - (hashes + {h});
    assert (set g | g in hashes + {h} && g in s.pool.loops :: s.pool.loops[g])
        == (set g | g in hashes && g in s.pool.loops :: s.pool.loops[g]) + {s.pool.loops[h]};
  }

  lemma {:induction false} EmptiedAll(s: State, removed: seq<int>)
    requires Synchronized(s.pool)
    requires forall i :: 0 <= i < |removed| ==> removed[i] in s.pool.loops
    requires forall i, j :: 0 <= i < j < |removed| ==> removed[i] != removed[j]
    ensures Emptied(s, RemoveForStop(s, removed), Elements(removed))
  {
    if removed == [] {
      assert Elements(removed) == {};
    } else {
      var init, h := removed[..|removed| - 1], removed[|removed| - 1];
      SynchronizedKeys(s.pool);
      LoopInTable(s.pool, h);
      hide Emptied, RemoveTarget, Synchronized;
      EmptiedAll(s, init);
      assert removed == init + [h];
      ElementsSnoc(init, h);
      assert h !in Elements(init);
      EmptiesOne(s, RemoveForStop(s, init), Elements(init), h);
      hide Elements;
    }
  }

  /** What a stop section does: no target and no loop is left, and all loops are awaited. */
  lemma {:induction false} StopEffect(s: State, removed: seq<int>, s': State)
    requires Inv(s) && Next(s, StopCollect(removed), s')
    ensures s'.pool.activeTargets == map[] && s'.pool.loops == map[]
    ensures s'.config == Stopping(set h | h in s.pool.loops :: s.pool.loops[h])
    ensures |s'.pool.table| == |s.pool.table| && s'.sync == s.sync && s'.pending == s.pending
  {
    EmptiedAll(s, removed);
    EnumeratedElements(removed, s.pool.loops.Keys);
    SynchronizedKeys(s.pool);
    assert (set h | h in s.pool.loops.Keys && h in s.pool.loops :: s.pool.loops[h])
        == (set h | h in s.pool.loops :: s.pool.loops[h]);
    hide Inv, RemoveForStop, Elements, Enumerates;
  }

  lemma {:induction false} EnumeratedElements(order: seq<int>, s: set<int>)
    requires Enumerates(order, s)
    ensures Elements(order) == s
    ensures forall i, j :: 0 <= i < j < |order| ==> order[i] != order[j]
  {
    forall h | h in s
      ensures h in Elements(order)
    {
      assert h in order;
      var i :| 0 <= i < |order| && order[i] == h;
    }
  }

  lemma SynchronizedKeys(p: Pool)
    requires Synchronized(p)
    ensures p.activeTargets.Keys == p.loops.Keys
  {
  }

  class ScrapePool {
    var activeTargets: map<int, Target>
    var loops: map<int, nat>
    var table: seq<Loop>
    var cancelled: bool

    ghost function View(): Pool
      reads this
    {
      Pool(activeTargets, loops, table, cancelled)
    }

    constructor ()
      ensures View() == Pool(map[], map[], [], false)
    {
      activeTargets, loops, table, cancelled := map[], map[], [], false;
    }

    /** Deduplicates the targets, runs loops for new ones and updates the labels of known ones. */
    method StartNew(targets: seq<Target>) returns (unique: set<int>)
      modifies this`activeTargets, this`loops, this`table
      ensures View() == AddTargets(old(View()), targets) && unique == Hashes(targets)
    {
      unique := {};
      for i := 0 to |targets|
        invariant View() == AddTargets(old(View()), targets[..i]) && unique == Hashes(targets[..i])
      {
        var t := targets[i];
        assert targets[..i + 1] == targets[..i] + [t] && targets[..i + 1][..i] == targets[..i];
        HashesSnoc(targets[..i], t);
        unique := unique + {t.hash};
        if t.hash !in activeTargets {
          var l := |table|;
          table := table + [Loop(t.hash, Running, false, cancelled, 1, 0, 0)];
          activeTargets := activeTargets[t.hash := t];
          loops := loops[t.hash := l];
        } else {
          // Keeps the most updated labels for display.
          var active := activeTargets[t.hash];
          activeTargets := activeTargets[t.hash := active.(discoveredLabels := t.discoveredLabels)];
        }
      }
      assert targets[..|targets|] == targets;
    }

    /** The section of sync: what it leaves behind, and the loops to stop after unlocking. */
    method Sync(targets: seq<Target>, ghost s: State) returns (toStop: seq<nat>, ghost removed: seq<int>)
      requires Inv(s) && s.pool == View() && s.sync == {}
      modifies this`activeTargets, this`loops, this`table
      ensures Next(s, SyncCollect(targets, removed), s.(pool := View(), sync := Loops(toStop)))
    {
      AddsInv(s, targets);
      hide Inv, AddTargets, Loops;
      var unique := StartNew(targets);
      ghost var s1 := s.(pool := View());
      toStop, removed := RemoveStale(unique, s1);
      assert s1 == s.(pool := AddTargets(s.pool, targets));
    }

    /** Takes the loops of vanished targets out of the pool. */
    method RemoveStale(unique: set<int>, ghost s: State) returns (toStop: seq<nat>, ghost removed: seq<int>)
      requires Inv(s) && s.pool == View() && s.sync == {}
      modifies this`activeTargets, this`loops, this`table
      ensures Enumerates(removed, s.pool.activeTargets.Keys - unique)
      ensures RemoveForSync(s, removed) == s.(pool := View(), sync := Loops(toStop))
    {
      var hashes := activeTargets.Keys;
      toStop, removed := [], [];
      RemovingStart(s, unique);
      hide Inv, Removing, Loops;
      while hashes != {}
        invariant hashes <= activeTargets.Keys
        invariant Removing(s, View(), removed, Loops(toStop), hashes, unique)
        decreases hashes
      {
        var h := Pick(hashes);
        if h in unique {
          RemovingKeep(s, View(), removed, Loops(toStop), hashes, unique, h);
        } else {
          RemovingDrop(s, View(), removed, Loops(toStop), hashes, unique, h);
          var l := loops[h];
          LoopsSnoc(toStop, l);
          toStop := toStop + [l];
          removed := removed + [h];
          table := Claim(table, l);
          loops := loops - {h};
          activeTargets := activeTargets - {h};
        }
        hashes := hashes - {h};
      }
      RemovingEnd(s, View(), removed, Loops(toStop), unique);
    }

    /** The section of stop, after the pool's context was cancelled: takes all loops out. */
    method Stop(ghost s: State) returns (toStop: seq<nat>, ghost removed: seq<int>)
      requires Inv(s) && s.pool == View() && s.config.Cancelling?
      modifies this`activeTargets, this`loops, this`table
      ensures Next(s, StopCollect(removed), s.(pool := View(), config := Stopping(Loops(toStop))))
      ensures loops == map[] && activeTargets == map[]
    {
      toStop, removed := [], [];
      EmptyingStart(s);
      hide Inv, Emptying, Loops;
      while loops.Keys != {}
        invariant Emptying(s, View(), removed, Loops(toStop))
        decreases loops.Keys
      {
        var h := Pick(loops.Keys);
        EmptyingDrop(s, View(), removed, Loops(toStop), h);
        var l := loops[h];
        LoopsSnoc(toStop, l);
        toStop := toStop + [l];
        removed := removed + [h];
        table := Claim(table, l);
        loops := loops - {h};
        activeTargets := activeTargets - {h};
      }
      EmptyingEnd(s, View(), removed, Loops(toStop));
    }

    /** The section of reload: swaps every loop for a new one that is not run yet. */
    method Reload(ghost s: State) returns (swaps: seq<Pair>, ghost order: seq<int>)
      requires Inv(s) && s.pool == View() && s.config.Idle?
      modifies this`loops, this`table
      ensures Next(s, ReloadCollect(order),
          s.(pool := View(), config := Reloading(Olds(swaps)), pending := s.pending + Pairs(swaps)))
    {
      swaps, order := [], [];
      var hashes := loops.Keys;
      SwappingStart(s);
      hide Inv, Swapping, Olds, Pairs, Next, Waited, Claim, SwapAll, Enumerates;
      while hashes != {}
        invariant hashes <= loops.Keys
        invariant Swapping(s, View(), order, swaps, hashes)
        decreases hashes
      {
        var h := Pick(hashes);
        SwappingStep(s, View(), order, swaps, hashes, h);
        var oldLoop, newLoop := loops[h], |table|;
        swaps := swaps + [Pair(oldLoop, newLoop)];
        order := order + [h];
        table := Claim(table, oldLoop) + [Loop(h, Created, false, cancelled, 0, 0, 0)];
        loops := loops[h := newLoop];
        hashes := hashes - {h};
      }
      SwappingEnd(s, View(), order, swaps);
    }
  }

  /** The stop section took out the loops of the given hashes. */
  ghost predicate Emptying(s: State, p: Pool, removed: seq<int>, stopping: set<nat>) {
    && s.pool.loops.Keys == p.loops.Keys + Elements(removed) && Elements(removed) !! p.loops.Keys
    && (forall i, j :: 0 <= i < j < |removed| ==> removed[i] != removed[j])
    && Synchronized(p) && RemoveForStop(s, removed) == s.(pool := p, config := Stopping(stopping))
  }

  lemma {:induction false} EmptyingStart(s: State)
    requires Inv(s) && s.config.Cancelling?
    ensures Emptying(s, s.pool, [], Loops([]))
  {
    hide Synchronized;
    assert Loops([]) == {} && Elements([]) == {};
    assert RemoveForStop(s, []) == s.(pool := s.pool, config := Stopping({}));
  }

  lemma {:induction false} EmptyingDrop(s: State, p: Pool, removed: seq<int>, stopping: set<nat>, h: int)
    requires Emptying(s, p, removed, stopping) && h in p.loops
    ensures h in p.activeTargets && p.loops[h] < |p.table|
    ensures Emptying(s, RemoveTarget(p, h), removed + [h], stopping + {p.loops[h]})
  {
    SynchronizedKeys(p);
    LoopInTable(p, h);
    RemoveSynchronized(p, h);
    ElementsSnoc(removed, h);
    DistinctSnoc(removed, h);
    assert (removed + [h])[..|removed|] == removed;
    hide Synchronized, Elements;
  }

  lemma {:induction false} EmptyingEnd(s: State, p: Pool, removed: seq<int>, stopping: set<nat>)
    requires Emptying(s, p, removed, stopping) && p.loops.Keys == {}
    ensures p.loops == map[] && p.activeTargets == map[]
    ensures Enumerates(removed, s.pool.loops.Keys)
    ensures RemoveForStop(s, removed) == s.(pool := p, config := Stopping(stopping))
  {
    SynchronizedKeys(p);
    hide Synchronized, RemoveForStop;
    EnumeratesElements(removed, s.pool.loops.Keys);
  }

  ghost function Olds(swaps: seq<Pair>): set<nat> {
    set i | 0 <= i < |swaps| :: swaps[i].former
  }

  ghost function Pairs(swaps: seq<Pair>): set<Pair> {
    set i | 0 <= i < |swaps| :: swaps[i]
  }

  lemma {:induction false} SwapsSnoc(swaps: seq<Pair>, q: Pair)
    ensures Olds(swaps + [q]) == Olds(swaps) + {q.former} && Pairs(swaps + [q]) == Pairs(swaps) + {q}
  {
    assert (swaps + [q])[|swaps|] == q;
    assert forall i :: 0 <= i < |swaps| ==> (swaps + [q])[i] == swaps[i];
  }

  /** The reload section swapped the loops of the given hashes. */
  ghost predicate Swapping(s: State, p: Pool, order: seq<int>, swaps: seq<Pair>, hashes: set<int>) {
    && s.pool.loops.Keys == p.loops.Keys == hashes + Elements(order) && Elements(order) !! hashes
    && (forall i, j :: 0 <= i < j < |order| ==> order[i] != order[j])
    && Synchronized(p)
    && SwapAll(s, order) == s.(pool := p, config := Reloading(Olds(swaps)), pending := s.pending + Pairs(swaps))
  }

  lemma {:induction false} SwappingStart(s: State)
    requires Inv(s) && s.config.Idle?
    ensures Swapping(s, s.pool, [], [], s.pool.loops.Keys)
  {
    hide Synchronized;
    assert Elements([]) == {} && Olds([]) == {} && Pairs([]) == {};
    assert SwapAll(s, []) == s.(config := Reloading({}));
  }

  lemma {:induction false} SwappingStep(s: State, p: Pool, order: seq<int>, swaps: seq<Pair>, hashes: set<int>, h: int)
    requires Swapping(s, p, order, swaps, hashes) && h in hashes
    ensures h in p.loops && p.loops[h] < |p.table|
    ensures Swapping(s, SwapLoop(p, h), order + [h], swaps + [Pair(p.loops[h], |p.table|)], hashes - {h})
  {
    SynchronizedKeys(p);
    LoopInTable(p, h);
    SwapSynchronized(p, h);
    ElementsSnoc(order, h);
    DistinctSnoc(order, h);
    SwapsSnoc(swaps, Pair(p.loops[h], |p.table|));
    assert (order + [h])[..|order|] == order;
    hide Synchronized, Elements, Olds, Pairs;
    assert s.pending + Pairs(swaps) + {Pair(p.loops[h], |p.table|)}
      == s.pending + (Pairs(swaps) + {Pair(p.loops[h], |p.table|)});
  }

  lemma {:induction false} SwappingEnd(s: State, p: Pool, order: seq<int>, swaps: seq<Pair>)
    requires Swapping(s, p, order, swaps, {})
    ensures Enumerates(order, s.pool.loops.Keys)
    ensures SwapAll(s, order) == s.(pool := p, config := Reloading(Olds(swaps)), pending := s.pending + Pairs(swaps))
  {
    hide Synchronized, SwapAll;
    EnumeratesElements(order, s.pool.loops.Keys);
  }

  /** Some element: the order in which a map is walked is not fixed. */
  method Pick<T>(s: set<T>) returns (x: T)
    requires s != {}
    ensures x in s
  {
    x :| x in s;
  }

  ghost function Loops(ls: seq<nat>): set<nat> {
    set i | 0 <= i < |ls| :: ls[i]
  }

  /** The removal loop took out the given hashes and has the others still to look at. */
  ghost predicate Removing(s: State, p: Pool, removed: seq<int>, stopping: set<nat>, hashes: set<int>,
      unique: set<int>) {
    && hashes <= p.activeTargets.Keys && s.pool.activeTargets.Keys == p.activeTargets.Keys + Elements(removed)
    && Elements(removed) !! p.activeTargets.Keys && Elements(removed) !! unique
    && p.activeTargets.Keys - hashes <= unique
    && (forall i, j :: 0 <= i < j < |removed| ==> removed[i] != removed[j])
    && Synchronized(p) && RemoveForSync(s, removed) == s.(pool := p, sync := stopping)
  }

  lemma {:induction false} RemovingStart(s: State, unique: set<int>)
    requires Inv(s) && s.sync == {}
    ensures Removing(s, s.pool, [], Loops([]), s.pool.activeTargets.Keys, unique)
  {
    hide Synchronized;
    assert Loops([]) == {} && Elements([]) == {};
  }

  lemma {:induction false} RemovingKeep(s: State, p: Pool, removed: seq<int>, stopping: set<nat>, hashes: set<int>,
                                        unique: set<int>, h: int)
    requires Removing(s, p, removed, stopping, hashes, unique) && h in unique
    ensures Removing(s, p, removed, stopping, hashes - {h}, unique)
  {
    hide Synchronized, RemoveForSync, Elements;
  }

  lemma {:induction false} RemovingDrop(s: State, p: Pool, removed: seq<int>, stopping: set<nat>, hashes: set<int>,
                                        unique: set<int>, h: int)
    requires Removing(s, p, removed, stopping, hashes, unique) && h in hashes && h !in unique
    ensures h in p.loops && p.loops[h] < |p.table|
    ensures Removing(s, RemoveTarget(p, h), removed + [h], stopping + {p.loops[h]}, hashes - {h}, unique)
  {
    LoopInTable(p, h);
    RemoveSynchronized(p, h);
    ElementsSnoc(removed, h);
    DistinctSnoc(removed, h);
    assert (removed + [h])[..|removed|] == removed;
    hide Synchronized, Elements;
  }

  lemma {:induction false} DistinctSnoc(removed: seq<int>, h: int)
    requires h !in Elements(removed)
    requires forall i, j :: 0 <= i < j < |removed| ==> removed[i] != removed[j]
    ensures forall i, j :: 0 <= i < j < |removed + [h]| ==> (removed + [h])[i] != (removed + [h])[j]
  {
    assert forall i :: 0 <= i < |removed| ==> removed[i] in Elements(removed);
  }

  lemma {:induction false} RemovingEnd(s: State, p: Pool, removed: seq<int>, stopping: set<nat>, unique: set<int>)
    requires Removing(s, p, removed, stopping, {}, unique)
    ensures Enumerates(removed, s.pool.activeTargets.Keys - unique)
    ensures RemoveForSync(s, removed) == s.(pool := p, sync := stopping)
  {
    hide Synchronized, RemoveForSync;
    assert Elements(removed) == s.pool.activeTargets.Keys - unique by {
      hide Elements;
    }
    EnumeratesElements(removed, s.pool.activeTargets.Keys - unique);
  }

  lemma {:induction false} LoopsSnoc(ls: seq<nat>, l: nat)
    ensures Loops(ls + [l]) == Loops(ls) + {l}
  {
    SetSnoc(ls, l);
  }

  lemma {:induction false} SetSnoc(ls: seq<nat>, l: nat)
    ensures (set i | 0 <= i < |ls + [l]| :: (ls + [l])[i]) == (set i | 0 <= i < |ls| :: ls[i]) + {l}
  {
    assert (ls + [l])[|ls|] == l;
    assert forall i :: 0 <= i < |ls| ==> (ls + [l])[i] == ls[i];
  }

  lemma LoopInTable(p: Pool, h: int)
    requires Synchronized(p) && h in p.activeTargets
    ensures h in p.loops && p.loops[h] < |p.table|
  {
  }

  lemma {:induction false} EnumeratesElements(order: seq<int>, s: set<int>)
    requires Elements(order) == s && forall i, j :: 0 <= i < j < |order| ==> order[i] != order[j]
    ensures Enumerates(order, s)
  {
    assert forall i :: 0 <= i < |order| ==> order[i] in Elements(order);
  }
}
