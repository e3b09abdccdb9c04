/**
 The scrape pool as a protocol: one sync thread and one config thread (reload or stop) run their
 critical sections atomically, then stop loops outside the lock; every loop runs on its own.
 */
module ScrapeProtocol {
  import opened ScrapePools

  /** A goroutine of reload: it stops the old loop, then runs the fresh one. */
  datatype Pair = Pair(former: nat, latter: nat)

  datatype Config = Idle | Reloading(olds: set<nat>) | Cancelling | Stopping(toStop: set<nat>)

  datatype State = State(pool: Pool, sync: set<nat>, config: Config, pending: set<Pair>)

  datatype Step =
    | SyncCollect(targets: seq<Target>, removed: seq<int>)
    | SyncDone
    | ReloadCollect(order: seq<int>)
    | ReloadDone
    | StopCancel
    | StopCollect(removed: seq<int>)
    | StopDone
    | Cancel(l: nat)
    | PairRun(pair: Pair)
    | BeginScrape(l: nat)
    | EndScrape(l: nat)
    | Close(l: nat)

  ghost predicate Init(s: State) {
    s == State(Pool(map[], map[], [], false), {}, Idle, {})
  }

  ghost predicate AllStopped(s: State, ls: set<nat>) {
    forall l :: l in ls ==> l < |s.pool.table| && s.pool.table[l].phase == Stopped
  }

  /** The loops somebody is stopping. */
  ghost function Waited(s: State): set<nat> {
    s.sync + (match s.config case Reloading(olds) => olds case Stopping(ls) => ls case _ => {})
    + (set q | q in s.pending :: q.former)
  }

  function SetLoop(p: Pool, l: nat, loop: Loop): Pool
    requires l < |p.table|
  {
    p.(table := p.table[l := loop])
  }

  function WithLoop(s: State, l: nat, loop: Loop): State
    requires l < |s.pool.table|
  {
    s.(pool := SetLoop(s.pool, l, loop))
  }

  /** The sync thread removes the targets of the hashes and remembers their loops. */
  ghost function RemoveForSync(s: State, removed: seq<int>): State {
    if removed == [] then s
    else
      var r := RemoveForSync(s, removed[..|removed| - 1]);
      var h := removed[|removed| - 1];
      if h in r.pool.loops && r.pool.loops[h] < |r.pool.table| then
        r.(pool := RemoveTarget(r.pool, h), sync := r.sync + {r.pool.loops[h]})
      else r
  }

  /** The config thread does the same when it stops the pool. */
  ghost function RemoveForStop(s: State, removed: seq<int>): State {
    if removed == [] then s.(config := Stopping({}))
    else
      var r := RemoveForStop(s, removed[..|removed| - 1]);
      var h := removed[|removed| - 1];
      if h in r.pool.loops && r.pool.loops[h] < |r.pool.table| && r.config.Stopping? then
        r.(pool := RemoveTarget(r.pool, h), config := Stopping(r.config.toStop + {r.pool.loops[h]}))
      else r
  }

  /** Reload swaps the loops one by one. */
  ghost function SwapAll(s: State, order: seq<int>): State {
    if order == [] then s.(config := Reloading({}))
    else
      var r := SwapAll(s, order[..|order| - 1]);
      var h := order[|order| - 1];
      if h in r.pool.loops && r.pool.loops[h] < |r.pool.table| && r.config.Reloading? then
        r.(pool := SwapLoop(r.pool, h), config := Reloading(r.config.olds + {r.pool.loops[h]}),
           pending := r.pending + {Pair(r.pool.loops[h], |r.pool.table|)})
      else r
  }

  ghost predicate Next(s: State, step: Step, s': State) {
    var table := s.pool.table;
    match step
    case SyncCollect(targets, removed) =>
      var p := AddTargets(s.pool, targets);
      && s.sync == {} && Enumerates(removed, p.activeTargets.Keys - Hashes(targets))
      && s' == RemoveForSync(s.(pool := p), removed)
    case SyncDone => s.sync != {} && AllStopped(s, s.sync) && s' == s.(sync := {})
    case ReloadCollect(order) => s.config.Idle? && Enumerates(order, s.pool.loops.Keys) && s' == SwapAll(s, order)
    case ReloadDone => s.config.Reloading? && AllStopped(s, s.config.olds) && s' == s.(config := Idle)
    case StopCancel => s.config.Idle? && s' == s.(pool := s.pool.(cancelled := true), config := Cancelling)
    case StopCollect(removed) =>
      s.config.Cancelling? && Enumerates(removed, s.pool.loops.Keys) && s' == RemoveForStop(s, removed)
    case StopDone => s.config.Stopping? && AllStopped(s, s.config.toStop) && s' == s.(config := Idle)
    case Cancel(l) => l in Waited(s) && l < |table| && s' == WithLoop(s, l, table[l].(cancelled := true))
    case PairRun(q) =>
      && q in s.pending && q.former < |table| && q.latter < |table| && table[q.former].phase == Stopped
      && s' == WithLoop(s, q.latter, table[q.latter].(phase := Running, runs := table[q.latter].runs + 1)).(pending :=
        s.pending - {q})
    case BeginScrape(l) =>
      && l < |table| && table[l].phase == Running && !table[l].cancelled && !s.pool.cancelled
      && s' == WithLoop(s, l, table[l].(phase := Scraping))
    case EndScrape(l) => l < |table| && table[l].phase == Scraping && s' == WithLoop(s, l, table[l].(phase := Running))
    case Close(l) =>
      && l < |table| && table[l].phase == Running && (table[l].cancelled || s.pool.cancelled)
      && s' == WithLoop(s, l, table[l].(phase := Stopped, closes := table[l].closes + 1))
  }

  // The invariant

  predicate Current(p: Pool, l: nat) {
    l < |p.table| && p.table[l].hash in p.loops && p.loops[p.table[l].hash] == l
  }

  /** Targets and loops have the same hashes, and the current loop of a hash is its newest one. */
  ghost predicate Synchronized(p: Pool) {
    && p.activeTargets.Keys == p.loops.Keys
    && (forall h :: h in p.loops ==> p.loops[h] < |p.table| && p.table[p.loops[h]].hash == h)
    && (forall i :: 0 <= i < |p.table| && p.table[i].hash in p.loops ==> i <= p.loops[p.table[i].hash])
  }

  ghost predicate Counted(p: Pool) {
    forall l: nat :: l < |p.table| ==> CountedAt(p, l)
  }

  /** A loop was run once unless it waits to be, closed once when stopped, and claimed once unless current. */
  ghost predicate CountedAt(p: Pool, l: nat)
    requires l < |p.table|
  {
    && p.table[l].runs == (if p.table[l].phase == Created then 0 else 1)
    && p.table[l].closes == (if p.table[l].phase == Stopped then 1 else 0)
    && p.table[l].stops == (if Current(p, l) then 0 else 1)
  }

  ghost predicate PairAt(p: Pool, q: Pair) {
    && q.former < q.latter < |p.table| && p.table[q.former].hash == p.table[q.latter].hash
    && p.table[q.latter].phase == Created && p.table[q.former].stops == 1
    && forall i :: q.former < i < q.latter ==> p.table[i].hash != p.table[q.latter].hash
  }

  /** Exactly the loops not run yet have a goroutine that will run them. */
  ghost predicate Paired(p: Pool, pending: set<Pair>) {
    && (forall q :: q in pending ==> PairAt(p, q))
    && (forall q, q' :: q in pending && q' in pending && q.latter == q'.latter ==> q == q')
    && (forall l: nat :: l < |p.table| && p.table[l].phase == Created ==> HasPair(pending, l))
  }

  ghost predicate HasPair(pending: set<Pair>, l: nat) {
    exists q :: q in pending && q.latter == l
  }

  /** A loop that was run, in a pool not cancelled at its birth, comes after older loops that all stopped. */
  ghost predicate OrderedAt(p: Pool, i: int, j: int)
    requires 0 <= i < j < |p.table|
  {
    && (p.table[i].bornCancelled ==> p.table[j].bornCancelled)
    && (p.table[i].hash == p.table[j].hash && p.table[j].phase != Created && !p.table[j].bornCancelled ==>
          p.table[i].phase == Stopped)
  }

  ghost predicate Chained(p: Pool) {
    && (forall i, j :: 0 <= i < j < |p.table| ==> OrderedAt(p, i, j))
    && (forall i :: 0 <= i < |p.table| && p.table[i].bornCancelled ==> p.cancelled && p.table[i].phase != Scraping)
  }

  ghost predicate Newest(p: Pool, l: nat) {
    l < |p.table| && forall i :: l < i < |p.table| ==> p.table[i].hash != p.table[l].hash
  }

  /** Unless the pool is cancelled, the newest loop of a removed hash is stopped or awaited by sync. */
  ghost predicate Departed(p: Pool, sync: set<nat>) {
    !p.cancelled ==>
      forall l: nat :: Newest(p, l) && !Current(p, l) ==> p.table[l].phase == Stopped || l in sync
  }

  /** Awaited loops were claimed. */
  ghost predicate Claimed(s: State) {
    forall l :: l in Waited(s) ==> l < |s.pool.table| && s.pool.table[l].stops == 1
  }

  ghost predicate Inv(s: State) {
    && Synchronized(s.pool) && Counted(s.pool) && Paired(s.pool, s.pending) && Chained(s.pool)
    && Departed(s.pool, s.sync) && Claimed(s)
    && (s.config.Cancelling? || s.config.Stopping? ==> s.pool.cancelled)
  }

  lemma InitInv(s: State)
    requires Init(s)
    ensures Inv(s)
  {
  }

  /** With an idle sync thread and a live pool, every loop of an absent hash has stopped. */
  lemma {:induction false} OldLoopsStopped(p: Pool, i: nat)
    requires Chained(p) && Departed(p, {}) && !p.cancelled
    requires i < |p.table| && p.table[i].hash !in p.loops
    ensures p.table[i].phase == Stopped
  {
    var n := NewestOf(p, i);
    assert Newest(p, n) && !Current(p, n);
    if i < n {
      assert OrderedAt(p, i, n);
    }
  }

  lemma {:induction false} NewestOf(p: Pool, l: nat) returns (n: nat)
    requires l < |p.table|
    ensures l <= n && Newest(p, n) && p.table[n].hash == p.table[l].hash
  {
    n := |p.table| - 1;
    while p.table[n].hash != p.table[l].hash
      invariant l <= n < |p.table|
      invariant forall i :: n < i < |p.table| ==> p.table[i].hash != p.table[l].hash
      decreases n
    {
      n := n - 1;
    }
  }

  // Starting a loop for a new target

  lemma {:induction false} AddSynchronized(p: Pool, t: Target)
    requires Synchronized(p)
    ensures Synchronized(AddTarget(p, t))
  {
    var p' := AddTarget(p, t);
    if t.hash in p.activeTargets {
      assert p'.loops == p.loops && p'.table == p.table && p'.activeTargets.Keys == p.activeTargets.Keys;
    } else {
      assert p'.activeTargets.Keys == p.activeTargets.Keys + {t.hash} && p'.loops.Keys == p.loops.Keys + {t.hash};
      assert forall i :: 0 <= i < |p.table| ==> p'.table[i] == p.table[i];
    }
  }

  lemma {:induction false} AddCounted(p: Pool, t: Target)
    requires Synchronized(p) && Counted(p)
    ensures Counted(AddTarget(p, t))
  {
    var p' := AddTarget(p, t);
    forall l: nat | l < |p'.table|
      ensures CountedAt(p', l)
    {
      if l < |p.table| {
        assert CountedAt(p, l);
        assert Current(p', l) == Current(p, l);
      }
    }
  }

  lemma {:induction false} AddPaired(p: Pool, t: Target, pending: set<Pair>)
    requires Paired(p, pending)
    ensures Paired(AddTarget(p, t), pending)
  {
    var p' := AddTarget(p, t);
    forall q | q in pending
      ensures PairAt(p', q)
    {
      assert PairAt(p, q);
    }
    forall l: nat | l < |p'.table| && p'.table[l].phase == Created
      ensures HasPair(pending, l)
    {
      assert p.table[l].phase == Created;
    }
  }

  lemma {:induction false} AddChained(s: State, t: Target)
    requires Synchronized(s.pool) && Chained(s.pool) && Departed(s.pool, {})
    ensures Chained(AddTarget(s.pool, t))
  {
    var p, p' := s.pool, AddTarget(s.pool, t);
    forall i, j | 0 <= i < j < |p'.table|
      ensures OrderedAt(p', i, j)
    {
      if j < |p.table| {
        assert OrderedAt(p, i, j);
      } else if p.table[i].hash == t.hash && !p.cancelled {
        OldLoopsStopped(p, i);
      }
    }
  }

  lemma {:induction false} AddDeparted(p: Pool, t: Target, sync: set<nat>)
    requires Synchronized(p) && Departed(p, sync)
    ensures Departed(AddTarget(p, t), sync)
  {
    var p' := AddTarget(p, t);
    if !p'.cancelled {
      forall l: nat | Newest(p', l) && !Current(p', l)
        ensures p'.table[l].phase == Stopped || l in sync
      {
        assert l < |p.table|;
        assert forall i :: 0 <= i < |p.table| ==> p'.table[i] == p.table[i];
        assert Newest(p, l) && !Current(p, l);
      }
    }
  }

  lemma {:induction false} AddInv(s: State, t: Target)
    requires Inv(s) && s.sync == {}
    ensures Inv(s.(pool := AddTarget(s.pool, t)))
  {
    AddSynchronized(s.pool, t);
    AddCounted(s.pool, t);
    AddPaired(s.pool, t, s.pending);
    AddChained(s, t);
    AddDeparted(s.pool, t, s.sync);
    hide Synchronized, Counted, Paired, Chained, Departed;
    var s' := s.(pool := AddTarget(s.pool, t));
    assert Waited(s') == Waited(s);
  }

  lemma {:induction false} AddsInv(s: State, targets: seq<Target>)
    requires Inv(s) && s.sync == {}
    ensures Inv(s.(pool := AddTargets(s.pool, targets)))
  {
    hide Inv;
    if targets != [] {
      AddsInv(s, targets[..|targets| - 1]);
      AddInv(s.(pool := AddTargets(s.pool, targets[..|targets| - 1])), targets[|targets| - 1]);
    } else {
      assert s.(pool := s.pool) == s;
    }
  }

  // Removing a target

  lemma RemoveSynchronized(p: Pool, h: int)
    requires Synchronized(p) && h in p.loops && p.loops[h] < |p.table|
    ensures Synchronized(RemoveTarget(p, h))
  {
  }

  lemma {:induction false} RemoveCounted(p: Pool, h: int)
    requires Synchronized(p) && Counted(p) && h in p.loops && p.loops[h] < |p.table|
    ensures Counted(RemoveTarget(p, h)) && p.table[p.loops[h]].stops == 0
  {
    var p' := RemoveTarget(p, h);
    forall l: nat | l < |p'.table|
      ensures CountedAt(p', l)
    {
      assert CountedAt(p, l);
    }
    assert CountedAt(p, p.loops[h]);
  }

  lemma {:induction false} ClaimPaired(p: Pool, p': Pool, l: nat, pending: set<Pair>)
    requires Paired(p, pending) && l < |p.table| && p.table[l].stops == 0 && p'.table == Claim(p.table, l)
    ensures Paired(p', pending)
  {
    forall q | q in pending
      ensures PairAt(p', q)
    {
      assert PairAt(p, q);
    }
    forall i: nat | i < |p'.table| && p'.table[i].phase == Created
      ensures HasPair(pending, i)
    {
      assert p.table[i].phase == Created;
    }
  }

  lemma {:induction false} ClaimChained(p: Pool, p': Pool, l: nat)
    requires Chained(p) && l < |p.table| && p'.table == Claim(p.table, l) && p'.cancelled == p.cancelled
    ensures Chained(p')
  {
    forall i, j | 0 <= i < j < |p'.table|
      ensures OrderedAt(p', i, j)
    {
      assert OrderedAt(p, i, j);
    }
  }

  lemma {:induction false} RemoveDeparted(p: Pool, h: int, sync: set<nat>)
    requires Synchronized(p) && Departed(p, sync) && h in p.loops && p.loops[h] < |p.table|
    ensures Departed(RemoveTarget(p, h), sync + {p.loops[h]})
  {
    var p' := RemoveTarget(p, h);
    if !p'.cancelled {
      forall l: nat | Newest(p', l) && !Current(p', l)
        ensures p'.table[l].phase == Stopped || l in sync + {p.loops[h]}
      {
        assert forall i :: 0 <= i < |p.table| ==> p'.table[i].hash == p.table[i].hash;
        assert Newest(p, l);
      }
    }
  }

  lemma {:induction false} RemoveClaimed(s: State, s': State, h: int)
    requires Claimed(s) && h in s.pool.loops && s.pool.loops[h] < |s.pool.table|
    requires s.pool.table[s.pool.loops[h]].stops == 0
    requires s'.pool == RemoveTarget(s.pool, h) && Waited(s') == Waited(s) + {s.pool.loops[h]}
    ensures Claimed(s')
  {
    hide Waited;
  }

  lemma {:induction false} RemoveInv(s: State, h: int)
    requires Inv(s) && h in s.pool.loops && s.pool.loops[h] < |s.pool.table|
    ensures Inv(s.(pool := RemoveTarget(s.pool, h), sync := s.sync + {s.pool.loops[h]}))
    ensures s.config.Stopping? ==>
      Inv(s.(pool := RemoveTarget(s.pool, h), config := Stopping(s.config.toStop + {s.pool.loops[h]})))
  {
    var l := s.pool.loops[h];
    var p' := RemoveTarget(s.pool, h);
    RemoveSynchronized(s.pool, h);
    RemoveCounted(s.pool, h);
    ClaimPaired(s.pool, p', l, s.pending);
    ClaimChained(s.pool, p', l);
    RemoveDeparted(s.pool, h, s.sync);
    hide Synchronized, Counted, Paired, Chained, Claimed;
    var s1 := s.(pool := p', sync := s.sync + {l});
    assert Waited(s1) == Waited(s) + {l};
    RemoveClaimed(s, s1, h);
    if s.config.Stopping? {
      var s2 := s.(pool := p', config := Stopping(s.config.toStop + {l}));
      assert Waited(s2) == Waited(s) + {l};
      RemoveClaimed(s, s2, h);
    }
  }

  lemma {:induction false} RemoveForSyncInv(s: State, removed: seq<int>)
    requires Inv(s)
    ensures Inv(RemoveForSync(s, removed))
  {
    hide Inv;
    if removed != [] {
      var r := RemoveForSync(s, removed[..|removed| - 1]);
      RemoveForSyncInv(s, removed[..|removed| - 1]);
      var h := removed[|removed| - 1];
      if h in r.pool.loops && r.pool.loops[h] < |r.pool.table| {
        RemoveInv(r, h);
      }
    }
  }

  lemma {:induction false} RemoveForStopInv(s: State, removed: seq<int>)
    requires Inv(s) && s.config.Cancelling?
    ensures Inv(RemoveForStop(s, removed))
  {
    if removed == [] {
      assert Waited(s.(config := Stopping({}))) == Waited(s);
    } else {
      hide Inv;
      var r := RemoveForStop(s, removed[..|removed| - 1]);
      RemoveForStopInv(s, removed[..|removed| - 1]);
      var h := removed[|removed| - 1];
      if h in r.pool.loops && r.pool.loops[h] < |r.pool.table| && r.config.Stopping? {
        RemoveInv(r, h);
      }
    }
  }

  // Swapping a loop

  lemma {:induction false} SwapSynchronized(p: Pool, h: int)
    requires Synchronized(p) && h in p.loops && p.loops[h] < |p.table|
    ensures Synchronized(SwapLoop(p, h))
  {
    var p' := SwapLoop(p, h);
    assert forall i :: 0 <= i < |p.table| ==> p'.table[i].hash == p.table[i].hash;
  }

  lemma {:induction false} SwapCounted(p: Pool, h: int)
    requires Synchronized(p) && Counted(p) && h in p.loops && p.loops[h] < |p.table|
    ensures Counted(SwapLoop(p, h)) && p.table[p.loops[h]].stops == 0
  {
    var p' := SwapLoop(p, h);
    assert CountedAt(p, p.loops[h]);
    forall l: nat | l < |p'.table|
      ensures CountedAt(p', l)
    {
      if l < |p.table| {
        assert CountedAt(p, l);
      }
    }
  }

  lemma {:induction false} SwapPaired(p: Pool, h: int, pending: set<Pair>)
    requires Synchronized(p) && Paired(p, pending) && h in p.loops && p.loops[h] < |p.table|
    requires p.table[p.loops[h]].stops == 0
    ensures Paired(SwapLoop(p, h), pending + {Pair(p.loops[h], |p.table|)})
  {
    var p', latest := SwapLoop(p, h), Pair(p.loops[h], |p.table|);
    forall q | q in pending + {latest}
      ensures PairAt(p', q)
    {
      if q in pending {
        assert PairAt(p, q);
      }
    }
    forall q, q' | q in pending + {latest} && q' in pending + {latest} && q.latter == q'.latter
      ensures q == q'
    {
      assert q in pending ==> PairAt(p, q);
      assert q' in pending ==> PairAt(p, q');
    }
    forall l: nat | l < |p'.table| && p'.table[l].phase == Created
      ensures HasPair(pending + {latest}, l)
    {
      if l < |p.table| {
        assert HasPair(pending, l);
      } else {
        assert latest.latter == l;
      }
    }
  }

  lemma {:induction false} SwapChained(p: Pool, h: int)
    requires Chained(p) && h in p.loops && p.loops[h] < |p.table|
    ensures Chained(SwapLoop(p, h))
  {
    var p' := SwapLoop(p, h);
    forall i, j | 0 <= i < j < |p'.table|
      ensures OrderedAt(p', i, j)
    {
      if j < |p.table| {
        assert OrderedAt(p, i, j);
      }
    }
  }

  lemma {:induction false} SwapDeparted(p: Pool, h: int, sync: set<nat>)
    requires Synchronized(p) && Departed(p, sync) && h in p.loops && p.loops[h] < |p.table|
    ensures Departed(SwapLoop(p, h), sync)
  {
    var p' := SwapLoop(p, h);
    if !p'.cancelled {
      forall l: nat | Newest(p', l) && !Current(p', l)
        ensures p'.table[l].phase == Stopped || l in sync
      {
        assert forall i :: 0 <= i < |p.table| ==> p'.table[i].hash == p.table[i].hash;
        assert p'.table[|p.table|].hash == h;
        assert Newest(p, l) && !Current(p, l);
      }
    }
  }

  lemma {:induction false} SwapInv(s: State, h: int)
    requires Inv(s) && h in s.pool.loops && s.pool.loops[h] < |s.pool.table| && s.config.Reloading?
    ensures Inv(s.(pool := SwapLoop(s.pool, h), config := Reloading(s.config.olds + {s.pool.loops[h]}),
                   pending := s.pending + {Pair(s.pool.loops[h], |s.pool.table|)}))
  {
    var l := s.pool.loops[h];
    SwapSynchronized(s.pool, h);
    SwapCounted(s.pool, h);
    SwapPaired(s.pool, h, s.pending);
    SwapChained(s.pool, h);
    SwapDeparted(s.pool, h, s.sync);
    hide Synchronized, Counted, Paired, Chained, Departed, Waited, Claimed;
    var s' := s.(pool := SwapLoop(s.pool, h), config := Reloading(s.config.olds + {l}),
                 pending := s.pending + {Pair(l, |s.pool.table|)});
    SwapWaited(s, s', l);
    SwapClaimed(s, s', h);
  }

  lemma {:induction false} SwapWaited(s: State, s': State, l: nat)
    requires s.config.Reloading? && s'.sync == s.sync && s'.config == Reloading(s.config.olds + {l})
    requires s'.pending == s.pending + {Pair(l, |s.pool.table|)}
    ensures Waited(s') == Waited(s) + {l}
  {
    var f, f' := set q | q in s.pending :: q.former, set q | q in s'.pending :: q.former;
    assert Pair(l, |s.pool.table|) in s'.pending;
    assert f' == f + {l};
  }

  lemma {:induction false} SwapClaimed(s: State, s': State, h: int)
    requires Claimed(s) && h in s.pool.loops && s.pool.loops[h] < |s.pool.table|
    requires s.pool.table[s.pool.loops[h]].stops == 0
    requires s'.pool == SwapLoop(s.pool, h) && Waited(s') == Waited(s) + {s.pool.loops[h]}
    ensures Claimed(s')
  {
    hide Waited;
  }

  lemma {:induction false} SwapAllInv(s: State, order: seq<int>)
    requires Inv(s) && s.config.Idle?
    ensures Inv(SwapAll(s, order))
  {
    if order == [] {
      assert Waited(s.(config := Reloading({}))) == Waited(s);
    } else {
      hide Inv;
      var r := SwapAll(s, order[..|order| - 1]);
      SwapAllInv(s, order[..|order| - 1]);
      var h := order[|order| - 1];
      if h in r.pool.loops && r.pool.loops[h] < |r.pool.table| && r.config.Reloading? {
        SwapInv(r, h);
      }
    }
  }

  // The threads' waits

  lemma {:induction false} WaitsInv(s: State, s': State)
    requires Inv(s)
    requires
      || (s' == s.(sync := {}) && AllStopped(s, s.sync))
      || s' == s.(config := Idle)
      || (s' == s.(pool := s.pool.(cancelled := true), config := Cancelling) && s.config.Idle?)
    ensures Inv(s')
  {
    assert Waited(s') <= Waited(s);
    CancelPool(s.pool, s'.pool, s.pending);
    assert Departed(s'.pool, s'.sync) by {
      hide Synchronized, Counted, Paired, Chained, Claimed;
    }
    hide Synchronized, Counted, Paired, Chained, Departed, Waited;
  }

  /** Cancelling the pool's context keeps the shape of the pool. */
  lemma {:induction false} CancelPool(p: Pool, p': Pool, pending: set<Pair>)
    requires Synchronized(p) && Counted(p) && Paired(p, pending) && Chained(p)
    requires p' == p || p' == p.(cancelled := true)
    ensures Synchronized(p') && Counted(p') && Paired(p', pending) && Chained(p')
  {
    forall l: nat | l < |p'.table|
      ensures CountedAt(p', l)
    {
      assert CountedAt(p, l);
      assert Current(p', l) == Current(p, l);
    }
    forall q | q in pending
      ensures PairAt(p', q)
    {
      assert PairAt(p, q);
    }
    forall i, j | 0 <= i < j < |p'.table|
      ensures OrderedAt(p', i, j)
    {
      assert OrderedAt(p, i, j);
    }
  }

  // Steps of one loop

  /** The fields that only birth and claiming decide. */
  ghost predicate SameIdentity(a: Loop, b: Loop) {
    a.hash == b.hash && a.bornCancelled == b.bornCancelled && a.stops == b.stops
  }

  lemma {:induction false} LoopInv(s: State, l: nat, loop: Loop)
    requires Inv(s) && l < |s.pool.table| && SameIdentity(s.pool.table[l], loop)
    requires (s.pool.table[l].phase == Created <==> loop.phase == Created)
      && (s.pool.table[l].phase == Stopped ==> loop.phase == Stopped)
    requires loop.runs == s.pool.table[l].runs
    requires loop.closes == (if loop.phase == Stopped then 1 else 0)
    requires loop.bornCancelled ==> loop.phase != Scraping
    ensures Inv(WithLoop(s, l, loop))
  {
    var s' := WithLoop(s, l, loop);
    LoopCounted(s.pool, l, loop);
    LoopPaired(s.pool, l, loop, s.pending);
    LoopChained(s.pool, l, loop);
    LoopDeparted(s.pool, l, loop, s.sync);
    assert Waited(s') == Waited(s);
    assert Synchronized(s'.pool) && Claimed(s') by {
      hide Counted, Paired, Chained, Departed, Waited;
    }
    hide Synchronized, Counted, Paired, Chained, Departed, Claimed;
  }

  lemma {:induction false} LoopCounted(p: Pool, l: nat, loop: Loop)
    requires Counted(p) && l < |p.table|
    requires SameIdentity(p.table[l], loop)
    requires loop.runs == (if loop.phase == Created then 0 else 1)
      || (loop.runs == p.table[l].runs && (p.table[l].phase == Created <==> loop.phase == Created))
    requires loop.closes == (if loop.phase == Stopped then 1 else 0)
    ensures Counted(SetLoop(p, l, loop))
  {
    var p' := SetLoop(p, l, loop);
    forall i: nat | i < |p'.table|
      ensures CountedAt(p', i)
    {
      assert CountedAt(p, i);
      assert Current(p', i) == Current(p, i);
    }
  }

  lemma {:induction false} LoopPaired(p: Pool, l: nat, loop: Loop, pending: set<Pair>)
    requires Paired(p, pending) && l < |p.table|
    requires SameIdentity(p.table[l], loop)
    requires p.table[l].phase == Created <==> loop.phase == Created
    ensures Paired(SetLoop(p, l, loop), pending)
  {
    var p' := SetLoop(p, l, loop);
    forall q | q in pending
      ensures PairAt(p', q)
    {
      assert PairAt(p, q);
    }
    forall i: nat | i < |p'.table| && p'.table[i].phase == Created
      ensures HasPair(pending, i)
    {
      assert p.table[i].phase == Created;
    }
  }

  lemma {:induction false} LoopChained(p: Pool, l: nat, loop: Loop)
    requires Chained(p) && l < |p.table|
    requires SameIdentity(p.table[l], loop)
    requires p.table[l].phase == Created <==> loop.phase == Created
    requires p.table[l].phase == Stopped ==> loop.phase == Stopped
    requires loop.bornCancelled ==> loop.phase != Scraping
    ensures Chained(SetLoop(p, l, loop))
  {
    var p' := SetLoop(p, l, loop);
    forall i, j | 0 <= i < j < |p'.table|
      ensures OrderedAt(p', i, j)
    {
      assert OrderedAt(p, i, j);
    }
  }

  lemma {:induction false} LoopDeparted(p: Pool, l: nat, loop: Loop, sync: set<nat>)
    requires Departed(p, sync) && l < |p.table|
    requires SameIdentity(p.table[l], loop)
    requires p.table[l].phase == Stopped ==> loop.phase == Stopped
    ensures Departed(SetLoop(p, l, loop), sync)
  {
    var p' := SetLoop(p, l, loop);
    if !p'.cancelled {
      forall i: nat | Newest(p', i) && !Current(p', i)
        ensures p'.table[i].phase == Stopped || i in sync
      {
        assert forall k :: 0 <= k < |p.table| ==> p'.table[k].hash == p.table[k].hash;
        assert Newest(p, i) && !Current(p, i);
      }
    }
  }

  /** Running the fresh loop of a pair after the former one stopped. */
  lemma {:induction false} PairRunInv(s: State, q: Pair)
    requires Inv(s) && q in s.pending && q.former < |s.pool.table| && q.latter < |s.pool.table|
    requires s.pool.table[q.former].phase == Stopped
    ensures
      var latest := s.pool.table[q.latter];
      Inv(WithLoop(s, q.latter, latest.(phase := Running, runs := latest.runs + 1)).(pending := s.pending - {q}))
  {
    var p, l := s.pool, q.latter;
    var loop := p.table[l].(phase := Running, runs := p.table[l].runs + 1);
    var s' := WithLoop(s, l, loop).(pending := s.pending - {q});
    assert PairAt(p, q) && CountedAt(p, l);
    LoopCounted(p, l, loop);
    RunPaired(p, q, loop, s.pending);
    RunChained(p, q, loop);
    LoopDeparted(p, l, loop, s.sync);
    hide Counted, Paired, Chained, Departed;
    RunKeepsClaims(s, s', l, loop);
    hide Synchronized, Claimed, Waited;
  }

  lemma {:induction false} RunKeepsClaims(s: State, s': State, l: nat, loop: Loop)
    requires Synchronized(s.pool) && Claimed(s) && l < |s.pool.table| && SameIdentity(s.pool.table[l], loop)
    requires s'.pool == SetLoop(s.pool, l, loop) && s'.pending <= s.pending
    requires s'.sync == s.sync && s'.config == s.config
    ensures Synchronized(s'.pool) && Claimed(s')
  {
    assert Waited(s') <= Waited(s);
    hide Waited;
  }

  lemma {:induction false} RunPaired(p: Pool, q: Pair, loop: Loop, pending: set<Pair>)
    requires Paired(p, pending) && q in pending && q.latter < |p.table|
    requires SameIdentity(p.table[q.latter], loop) && loop.phase == Running
    ensures Paired(SetLoop(p, q.latter, loop), pending - {q})
  {
    var p' := SetLoop(p, q.latter, loop);
    forall r | r in pending - {q}
      ensures PairAt(p', r)
    {
      assert PairAt(p, r);
    }
    forall i: nat | i < |p'.table| && p'.table[i].phase == Created
      ensures HasPair(pending - {q}, i)
    {
      assert HasPair(pending, i);
      var r :| r in pending && r.latter == i;
      assert r in pending - {q};
    }
  }

  lemma {:induction false} RunChained(p: Pool, q: Pair, loop: Loop)
    requires Chained(p) && PairAt(p, q) && p.table[q.former].phase == Stopped
    requires SameIdentity(p.table[q.latter], loop) && loop.phase == Running
    ensures Chained(SetLoop(p, q.latter, loop))
  {
    var p' := SetLoop(p, q.latter, loop);
    forall i, j | 0 <= i < j < |p'.table|
      ensures OrderedAt(p', i, j)
    {
      assert OrderedAt(p, i, j);
      if j == q.latter && i < q.former {
        assert OrderedAt(p, i, q.former) && OrderedAt(p, q.former, j);
      }
    }
  }

  /** Every step keeps the invariant. */
  lemma {:induction false} NextInv(s: State, step: Step, s': State)
    requires Inv(s) && Next(s, step, s')
    ensures Inv(s')
  {
    match step
    case SyncCollect(targets, removed) => CollectInv(s, targets, removed);
    case SyncDone => WaitsInv(s, s');
    case ReloadCollect(order) => SwapAllInv(s, order);
    case ReloadDone => WaitsInv(s, s');
    case StopCancel => WaitsInv(s, s');
    case StopCollect(removed) => RemoveForStopInv(s, removed);
    case StopDone => WaitsInv(s, s');
    case PairRun(q) => PairRunInv(s, q);
    case _ => LoopStepInv(s, step, s');
  }

  lemma {:induction false} CollectInv(s: State, targets: seq<Target>, removed: seq<int>)
    requires Inv(s) && s.sync == {}
    ensures Inv(RemoveForSync(s.(pool := AddTargets(s.pool, targets)), removed))
  {
    hide Inv;
    AddsInv(s, targets);
    RemoveForSyncInv(s.(pool := AddTargets(s.pool, targets)), removed);
  }

  lemma {:induction false} LoopStepInv(s: State, step: Step, s': State)
    requires Inv(s) && Next(s, step, s')
    requires step.Cancel? || step.BeginScrape? || step.EndScrape? || step.Close?
    ensures Inv(s')
  {
    assert step.l < |s.pool.table|;
    assert CountedAt(s.pool, step.l);
    hide Synchronized, Paired, Departed, Claimed, Waited, RemoveForSync, RemoveForStop, SwapAll;
    match step {
      case Cancel(l) => LoopInv(s, l, s.pool.table[l].(cancelled := true));
      case BeginScrape(l) => LoopInv(s, l, s.pool.table[l].(phase := Scraping));
      case EndScrape(l) => LoopInv(s, l, s.pool.table[l].(phase := Running));
      case Close(l) => LoopInv(s, l, s.pool.table[l].(phase := Stopped, closes := s.pool.table[l].closes + 1));
      case _ =>
    }
  }

  // Runs

  /** A run: every state follows from the one before by some step. */
  ghost predicate Run(states: seq<State>) {
    && |states| >= 1 && Init(states[0])
    && forall i :: 1 <= i < |states| ==> Steps(states[i - 1], states[i])
  }

  ghost predicate Steps(s: State, s': State) {
    exists step :: Next(s, step, s')
  }

  lemma {:induction false} RunInv(states: seq<State>, n: nat)
    requires Run(states) && n < |states|
    ensures Inv(states[n])
  {
    hide Inv, Init, Next;
    if n == 0 {
      InitInv(states[0]);
    } else {
      RunInv(states, n - 1);
      assert Steps(states[n - 1], states[n]);
      var step :| Next(states[n - 1], step, states[n]);
      NextInv(states[n - 1], step, states[n]);
    }
  }

  /**
   In every state of every run: active targets and loops have the same hashes; no two loops of a hash
   scrape at once; each loop is run at most once, closes its channel at most once and is stopped by at
   most one remover.
   */
  lemma {:induction false} RunSafety(states: seq<State>, n: nat)
    requires Run(states) && n < |states|
    ensures
      var p := states[n].pool;
      && p.activeTargets.Keys == p.loops.Keys
      && (forall h :: h in p.loops ==> p.loops[h] < |p.table| && p.table[p.loops[h]].hash == h)
      && (forall i, j :: 0 <= i < j < |p.table| && p.table[i].phase == Scraping && p.table[j].phase == Scraping ==>
            p.table[i].hash != p.table[j].hash)
      && (forall l :: 0 <= l < |p.table| ==> p.table[l].runs <= 1 && p.table[l].closes <= 1 && p.table[l].stops <= 1)
  {
    RunInv(states, n);
    var p := states[n].pool;
    forall i, j | 0 <= i < j < |p.table| && p.table[i].phase == Scraping && p.table[j].phase == Scraping
      ensures p.table[i].hash != p.table[j].hash
    {
      assert OrderedAt(p, i, j);
    }
    forall l | 0 <= l < |p.table|
      ensures p.table[l].runs <= 1 && p.table[l].closes <= 1 && p.table[l].stops <= 1
    {
      assert CountedAt(p, l);
    }
  }

  // Progress

  /** Steps that bring an awaited loop closer to its end. */
  ghost predicate Progress(step: Step) {
    step.Cancel? || step.PairRun? || step.EndScrape? || step.Close?
  }

  /** The loop a progress step works on. */
  ghost function Worked(step: Step): nat
    requires Progress(step)
  {
    match step
    case Cancel(l) => l
    case PairRun(q) => q.latter
    case EndScrape(l) => l
    case Close(l) => l
  }

  /** What is left to do for a loop; a loop that may still begin another scrape counts as not cancelled. */
  ghost function Remaining(s: State, l: nat): nat
    requires l < |s.pool.table|
  {
    var loop := s.pool.table[l];
    (match loop.phase case Created => 3 case Scraping => 2 case Running => 1 case Stopped => 0)
    + (if loop.cancelled then 0 else 3)
  }

  /**
   No deadlock: while somebody waits for a loop that has not stopped, a step is enabled that works on
   that loop or on an older one and leaves less to do for it. So no stop waits on a newer loop.
   */
  lemma {:induction false} NoDeadlock(s: State, l: nat) returns (step: Step, s': State)
    requires Inv(s) && l in Waited(s) && s.pool.table[l].phase != Stopped
    ensures Progress(step) && Next(s, step, s') && Worked(step) <= l
    ensures Worked(step) < |s.pool.table| == |s'.pool.table|
    ensures Remaining(s', Worked(step)) < Remaining(s, Worked(step))
    decreases l
  {
    var p := s.pool;
    var loop := p.table[l];
    assert Claimed(s);
    if loop.phase != Created || !loop.cancelled {
      hide Inv, Claimed, Waited;
      step, s' := OwnProgress(s, l);
    } else {
      var q := PairOf(s, l);
      hide Inv, Claimed, Next;
      if p.table[q.former].phase == Stopped {
        step, s' := PairProgress(s, q);
      } else {
        step, s' := NoDeadlock(s, q.former);
      }
    }
  }

  /** An awaited loop that was run, or not cancelled yet, can be advanced itself. */
  lemma {:induction false} OwnProgress(s: State, l: nat) returns (step: Step, s': State)
    requires l in Waited(s) && l < |s.pool.table| && s.pool.table[l].phase != Stopped
    requires s.pool.table[l].phase != Created || !s.pool.table[l].cancelled
    ensures Progress(step) && Next(s, step, s') && Worked(step) == l && |s.pool.table| == |s'.pool.table|
    ensures Remaining(s', l) < Remaining(s, l)
  {
    hide Waited, RemoveForSync, RemoveForStop, SwapAll;
    var loop := s.pool.table[l];
    if !loop.cancelled {
      step, s' := Cancel(l), WithLoop(s, l, loop.(cancelled := true));
    } else if loop.phase == Scraping {
      step, s' := EndScrape(l), WithLoop(s, l, loop.(phase := Running));
    } else {
      step, s' := Close(l), WithLoop(s, l, loop.(phase := Stopped, closes := loop.closes + 1));
    }
  }

  /** Once the former loop stopped, the latter one can be run. */
  lemma {:induction false} PairProgress(s: State, q: Pair) returns (step: Step, s': State)
    requires q in s.pending && q.former < |s.pool.table| && q.latter < |s.pool.table|
    requires s.pool.table[q.former].phase == Stopped && s.pool.table[q.latter].phase == Created
    ensures Progress(step) && Next(s, step, s') && Worked(step) == q.latter && |s.pool.table| == |s'.pool.table|
    ensures Remaining(s', q.latter) < Remaining(s, q.latter)
  {
    hide Waited, RemoveForSync, RemoveForStop, SwapAll;
    var loop := s.pool.table[q.latter];
    step := PairRun(q);
    s' := WithLoop(s, q.latter, loop.(phase := Running, runs := loop.runs + 1)).(pending := s.pending - {q});
  }

  lemma {:induction false} PairOf(s: State, l: nat) returns (q: Pair)
    requires Inv(s) && l < |s.pool.table| && s.pool.table[l].phase == Created
    ensures q in s.pending && q.latter == l && q.former < l && q.former in Waited(s)
  {
    assert HasPair(s.pending, l);
    q :| q in s.pending && q.latter == l;
    assert PairAt(s.pool, q);
  }
}
