/**
 Whoever stops loops of the scrape pool returns, provided that no thread is starved: a cancel, a run,
 the end of a scrape, the closing of a channel and the end of a wait happen once they stay possible.
 */
module ScrapeLiveness {
  import opened ScrapePools
  import opened ScrapeProtocol

  /** A step of some thread, or none. */
  datatype Move = Pause | Take(step: Step)

  /** A run without end: the state at every moment, and the move made there. */
  datatype Execution = Execution(at: nat -> State, move: nat -> Move)

  ghost predicate MoveAt(e: Execution, n: nat) {
    match e.move(n)
    case Pause => e.at(n + 1) == e.at(n)
    case Take(step) => Next(e.at(n), step, e.at(n + 1))
  }

  ghost predicate Runs(e: Execution) {
    Init(e.at(0)) && forall n: nat :: MoveAt(e, n)
  }

  /** The steps nobody may put off for ever; a loop is cancelled once. */
  ghost predicate Due(s: State, step: Step) {
    var table := s.pool.table;
    match step
    case Cancel(l) => l in Waited(s) && l < |table| && !table[l].cancelled
    case PairRun(q) =>
      q in s.pending && q.former < |table| && q.latter < |table| && table[q.former].phase == Stopped
    case EndScrape(l) => l < |table| && table[l].phase == Scraping
    case Close(l) => l < |table| && table[l].phase == Running && (table[l].cancelled || s.pool.cancelled)
    case SyncDone => s.sync != {} && AllStopped(s, s.sync)
    case ReloadDone => s.config.Reloading? && AllStopped(s, s.config.olds)
    case StopDone => s.config.Stopping? && AllStopped(s, s.config.toStop)
    case _ => false
  }

  ghost predicate DueFrom(e: Execution, n: nat, step: Step) {
    forall k: nat :: n <= k ==> Due(e.at(k), step)
  }

  ghost predicate TakenAfter(e: Execution, n: nat, step: Step) {
    exists m: nat :: n <= m && e.move(m) == Take(step)
  }

  /** No step stays possible for ever without being taken, and a stop that cancelled the pool goes on. */
  ghost predicate Fair(e: Execution) {
    && (forall n: nat, step :: DueFrom(e, n, step) ==> TakenAfter(e, n, step))
    && (forall n: nat :: GoesOn(e, n))
  }

  ghost predicate GoesOn(e: Execution, n: nat) {
    exists m: nat :: n <= m && !e.at(m).config.Cancelling?
  }

  /** What is due can be done. */
  lemma {:induction false} DueIsEnabled(s: State, step: Step) returns (s': State)
    requires Due(s, step)
    ensures Next(s, step, s')
  {
    hide Waited, RemoveForSync, RemoveForStop, SwapAll;
    var table := s.pool.table;
    s' := match step
      case Cancel(l) => WithLoop(s, l, table[l].(cancelled := true))
      case PairRun(q) =>
        WithLoop(s, q.latter, table[q.latter].(phase := Running, runs := table[q.latter].runs + 1))
          .(pending := s.pending - {q})
      case EndScrape(l) => WithLoop(s, l, table[l].(phase := Running))
      case Close(l) => WithLoop(s, l, table[l].(phase := Stopped, closes := table[l].closes + 1))
      case SyncDone => s.(sync := {})
      case ReloadDone => s.(config := Idle)
      case StopDone => s.(config := Idle)
      case _ => s;
  }

  lemma {:induction false} RunsInv(e: Execution, n: nat)
    requires Runs(e)
    ensures Inv(e.at(n))
  {
    hide Inv, Init, Next;
    if n == 0 {
      InitInv(e.at(0));
    } else {
      RunsInv(e, n - 1);
      assert MoveAt(e, n - 1);
      if e.move(n - 1).Take? {
        NextInv(e.at(n - 1), e.move(n - 1).step, e.at(n));
      }
    }
  }

  // What a step does to one loop, and to those who wait.

  /** The critical sections leave the phase and the context of the loops there are. */
  ghost predicate LoopsKept(p: Pool, p': Pool) {
    && |p.table| <= |p'.table| && (p.cancelled <==> p'.cancelled)
    && (forall l :: 0 <= l < |p.table| ==>
          p'.table[l].phase == p.table[l].phase && p'.table[l].cancelled == p.table[l].cancelled)
  }

  lemma {:induction false} AddsKeep(p: Pool, targets: seq<Target>)
    ensures LoopsKept(p, AddTargets(p, targets))
  {
    if targets != [] {
      AddsKeep(p, targets[..|targets| - 1]);
    }
  }

  lemma {:induction false} SyncKeeps(s: State, removed: seq<int>)
    ensures
      var r := RemoveForSync(s, removed);
      LoopsKept(s.pool, r.pool) && s.sync <= r.sync && r.config == s.config && r.pending == s.pending
  {
    if removed != [] {
      SyncKeeps(s, removed[..|removed| - 1]);
    }
  }

  lemma {:induction false} StopKeeps(s: State, removed: seq<int>)
    ensures
      var r := RemoveForStop(s, removed);
      LoopsKept(s.pool, r.pool) && r.sync == s.sync && r.config.Stopping? && r.pending == s.pending
  {
    if removed != [] {
      StopKeeps(s, removed[..|removed| - 1]);
    }
  }

  lemma {:induction false} SwapsKeep(s: State, order: seq<int>)
    ensures
      var r := SwapAll(s, order);
      LoopsKept(s.pool, r.pool) && r.sync == s.sync && r.config.Reloading? && s.pending <= r.pending
  {
    if order != [] {
      SwapsKeep(s, order[..|order| - 1]);
    }
  }

  /** How far a loop is from its end; a loop that is not cancelled may go to and fro. */
  function Rank(loop: Loop): nat {
    match loop.phase
    case Stopped => 0
    case Running => if loop.cancelled then 1 else 4
    case Scraping => if loop.cancelled then 2 else 4
    case Created => if loop.cancelled then 3 else 4
  }

  /** No loop gets further from its end, and no context is revived. */
  ghost predicate LoopsAge(p: Pool, p': Pool) {
    && |p.table| <= |p'.table|
    && (forall l :: 0 <= l < |p.table| ==> Rank(p'.table[l]) <= Rank(p.table[l]))
  }

  lemma {:induction false} CollectAges(s: State, step: Step, s': State)
    requires Next(s, step, s') && (step.SyncCollect? || step.StopCollect? || step.ReloadCollect?)
    ensures LoopsAge(s.pool, s'.pool) && s.sync <= s'.sync && s.pending <= s'.pending
    ensures s'.config == s.config || s.config.Idle? || s.config.Cancelling?
  {
    match step
    case SyncCollect(targets, removed) =>
      AddsKeep(s.pool, targets);
      SyncKeeps(s.(pool := AddTargets(s.pool, targets)), removed);
    case StopCollect(removed) => StopKeeps(s, removed);
    case ReloadCollect(order) => SwapsKeep(s, order);
  }

  lemma {:induction false} StepAges(s: State, step: Step, s': State)
    requires Inv(s) && Next(s, step, s')
    ensures LoopsAge(s.pool, s'.pool)
  {
    hide Waited, RemoveForSync, RemoveForStop, SwapAll, Synchronized, Counted, Chained, Departed, Claimed;
    match step
    case SyncCollect(_, _) => CollectAges(s, step, s');
    case StopCollect(_) => CollectAges(s, step, s');
    case ReloadCollect(_) => CollectAges(s, step, s');
    case PairRun(q) => assert PairAt(s.pool, q);
    case _ =>
  }

  /** A loop somebody waits for is waited for until it has stopped. */
  lemma {:induction false} WaitStays(s: State, step: Step, s': State, l: nat)
    requires Inv(s) && Next(s, step, s') && l in Waited(s)
    ensures l < |s.pool.table| && (l in Waited(s') || s.pool.table[l].phase == Stopped)
  {
    assert Claimed(s);
    hide Inv;
    if step.SyncCollect? || step.StopCollect? || step.ReloadCollect? {
      CollectAges(s, step, s');
    }
    hide RemoveForSync, RemoveForStop, SwapAll;
    if q :| q in s.pending && q.former == l {
      assert q in s'.pending || step == PairRun(q);
    }
  }

  lemma {:induction false} PairStays(s: State, step: Step, s': State, q: Pair)
    requires Next(s, step, s') && q in s.pending && step != PairRun(q)
    ensures q in s'.pending
  {
    if step.SyncCollect? || step.StopCollect? || step.ReloadCollect? {
      CollectAges(s, step, s');
    }
    hide Waited, RemoveForSync, RemoveForStop, SwapAll;
  }

  // The step that brings a loop closer to its end stays due until the loop is.

  ghost predicate Helps(s: State, l: nat, step: Step) {
    && Due(s, step) && l < |s.pool.table|
    && var loop := s.pool.table[l];
    match step
    case Cancel(k) => k == l && loop.phase != Stopped
    case EndScrape(k) => k == l && loop.cancelled
    case Close(k) => k == l && loop.cancelled
    case PairRun(q) => q.latter == l && loop.phase == Created && loop.cancelled
    case _ => false
  }

  lemma {:induction false} PairHelpStays(s: State, step: Step, s': State, q: Pair)
    requires Inv(s) && Next(s, step, s') && LoopsAge(s.pool, s'.pool) && Helps(s, q.latter, PairRun(q))
    requires Rank(s'.pool.table[q.latter]) == Rank(s.pool.table[q.latter])
    ensures Helps(s', q.latter, PairRun(q))
  {
    hide Inv;
    if step == PairRun(q) {
      HelpDrops(s, s', q.latter, step);
    } else {
      PairStays(s, step, s', q);
      assert Rank(s'.pool.table[q.former]) <= Rank(s.pool.table[q.former]);
    }
    hide Waited, Next;
  }

  lemma {:induction false} CancelHelpStays(s: State, step: Step, s': State, l: nat)
    requires Inv(s) && Next(s, step, s') && LoopsAge(s.pool, s'.pool) && Helps(s, l, Cancel(l))
    requires Rank(s'.pool.table[l]) == Rank(s.pool.table[l])
    ensures Helps(s', l, Cancel(l))
  {
    hide Next, Inv, Waited;
    WaitStays(s, step, s', l);
  }

  lemma {:induction false} ScrapeHelpStays(s: State, s': State, l: nat, help: Step)
    requires Helps(s, l, help) && (help.EndScrape? || help.Close?)
    requires l < |s'.pool.table| && Rank(s'.pool.table[l]) == Rank(s.pool.table[l])
    ensures Helps(s', l, help)
  {
    hide Waited;
  }

  lemma {:induction false} HelpStays(s: State, step: Step, s': State, l: nat, help: Step)
    requires Inv(s) && Next(s, step, s') && Helps(s, l, help)
    requires l < |s'.pool.table| && Rank(s'.pool.table[l]) == Rank(s.pool.table[l])
    ensures Helps(s', l, help)
  {
    hide Inv, Next, Waited, LoopsAge, Due;
    StepAges(s, step, s');
    match help
    case PairRun(q) => PairHelpStays(s, step, s', q);
    case Cancel(_) => CancelHelpStays(s, step, s', l);
    case _ => ScrapeHelpStays(s, s', l, help);
  }

  lemma {:induction false} HelpDrops(s: State, s': State, l: nat, help: Step)
    requires Helps(s, l, help) && Next(s, help, s')
    ensures l < |s'.pool.table| && Rank(s'.pool.table[l]) < Rank(s.pool.table[l])
  {
    hide Waited, RemoveForSync, RemoveForStop, SwapAll;
  }

  /** There is such a step, unless the loop waits to be run behind another one. */
  lemma {:induction false} HelpExists(s: State, l: nat) returns (help: Step)
    requires l in Waited(s) && l < |s.pool.table| && s.pool.table[l].phase != Stopped
    requires s.pool.table[l].cancelled ==> s.pool.table[l].phase != Created
    ensures Helps(s, l, help)
  {
    hide Waited;
    var loop := s.pool.table[l];
    help := if !loop.cancelled then Cancel(l) else if loop.phase == Scraping then EndScrape(l) else Close(l);
  }

  // Over a whole run.

  lemma {:induction false} AgesOver(e: Execution, n: nat, m: nat, l: nat)
    requires Runs(e) && n <= m && l < |e.at(n).pool.table|
    ensures l < |e.at(m).pool.table| && Rank(e.at(m).pool.table[l]) <= Rank(e.at(n).pool.table[l])
    decreases m
  {
    hide Inv, Init, Next, Rank;
    if n < m {
      AgesOver(e, n, m - 1, l);
      assert MoveAt(e, m - 1);
      if e.move(m - 1).Take? {
        RunsInv(e, m - 1);
        StepAges(e.at(m - 1), e.move(m - 1).step, e.at(m));
      }
    }
  }

  /** A loop that somebody waits for, or that has stopped, is so ever after. */
  ghost predicate Awaited(s: State, l: nat) {
    l < |s.pool.table| && (l in Waited(s) || s.pool.table[l].phase == Stopped)
  }

  lemma {:induction false} AwaitedOver(e: Execution, n: nat, m: nat, l: nat)
    requires Runs(e) && n <= m && Awaited(e.at(n), l)
    ensures Awaited(e.at(m), l)
    decreases m
  {
    hide Inv, Init, Next, Waited;
    if n < m {
      AwaitedOver(e, n, m - 1, l);
      assert MoveAt(e, m - 1);
      AgesOver(e, m - 1, m, l);
      if e.move(m - 1).Take? && l in Waited(e.at(m - 1)) {
        RunsInv(e, m - 1);
        WaitStays(e.at(m - 1), e.move(m - 1).step, e.at(m), l);
      }
    }
  }

  lemma {:induction false} HelpOver(e: Execution, n: nat, m: nat, l: nat, help: Step)
    requires Runs(e) && n <= m && Helps(e.at(n), l, help)
    requires forall k: nat :: n <= k <= m ==>
      l < |e.at(k).pool.table| && Rank(e.at(k).pool.table[l]) == Rank(e.at(n).pool.table[l])
    ensures Helps(e.at(m), l, help)
    decreases m
  {
    hide Inv, Init, Next, Waited, Helps, Rank;
    if n < m {
      HelpOver(e, n, m - 1, l, help);
      assert MoveAt(e, m - 1);
      if e.move(m - 1).Take? {
        RunsInv(e, m - 1);
        HelpStays(e.at(m - 1), e.move(m - 1).step, e.at(m), l, help);
      }
    }
  }

  /** A loop for which a step helps gets closer to its end some day. */
  lemma {:induction false} RankDrops(e: Execution, n: nat, l: nat, help: Step) returns (m: nat)
    requires Runs(e) && Fair(e) && Helps(e.at(n), l, help)
    ensures n < m && l < |e.at(m).pool.table| && Rank(e.at(m).pool.table[l]) < Rank(e.at(n).pool.table[l])
  {
    hide Inv, Init, Next, Waited, Rank, Due, GoesOn;
    if k: nat :| n <= k && l < |e.at(k).pool.table| && Rank(e.at(k).pool.table[l]) < Rank(e.at(n).pool.table[l]) {
      return k;
    }
    forall k: nat | n <= k
      ensures l < |e.at(k).pool.table| && Rank(e.at(k).pool.table[l]) == Rank(e.at(n).pool.table[l])
    {
      AgesOver(e, n, k, l);
    }
    forall k: nat | n <= k ensures Due(e.at(k), help) {
      HelpOver(e, n, k, l, help);
    }
    assert DueFrom(e, n, help);
    var k: nat :| n <= k && e.move(k) == Take(help);
    HelpOver(e, n, k, l, help);
    assert MoveAt(e, k);
    HelpDrops(e.at(k), e.at(k + 1), l, help);
    m := k + 1;
  }

  lemma {:induction false} PairOver(e: Execution, n: nat, m: nat, q: Pair)
    requires Runs(e) && n <= m && q in e.at(n).pending
    requires forall k: nat :: n <= k <= m ==>
      q.latter < |e.at(k).pool.table| && Rank(e.at(k).pool.table[q.latter]) == 3
    ensures q in e.at(m).pending
    decreases m
  {
    hide Inv, Init, Waited;
    if n < m {
      PairOver(e, n, m - 1, q);
      assert MoveAt(e, m - 1);
      if e.move(m - 1) == Take(PairRun(q)) {
        hide RemoveForSync, RemoveForStop, SwapAll;
        assert false;
      } else if e.move(m - 1).Take? {
        hide Next;
        PairStays(e.at(m - 1), e.move(m - 1).step, e.at(m), q);
      }
    }
  }

  /** A fresh loop is run once its predecessor has stopped. */
  lemma {:induction false} FreshRankDrops(e: Execution, n: nat, q: Pair, m: nat) returns (k: nat)
    requires Runs(e) && Fair(e) && n <= m && q in e.at(n).pending && q.latter < |e.at(n).pool.table|
    requires Rank(e.at(n).pool.table[q.latter]) == 3
    requires q.former < |e.at(m).pool.table| && e.at(m).pool.table[q.former].phase == Stopped
    ensures n < k && q.latter < |e.at(k).pool.table| && Rank(e.at(k).pool.table[q.latter]) < 3
  {
    hide Inv, Init, Next, Waited, Fair;
    var l := q.latter;
    AgesOver(e, n, m, l);
    if Rank(e.at(m).pool.table[l]) < 3 {
      return m;
    }
    forall i: nat | n <= i <= m
      ensures l < |e.at(i).pool.table| && Rank(e.at(i).pool.table[l]) == 3
    {
      AgesOver(e, n, i, l);
      AgesOver(e, i, m, l);
    }
    PairOver(e, n, m, q);
    k := RankDrops(e, m, l, PairRun(q));
  }

  /** Every loop somebody waits for stops. */
  lemma {:induction false} LoopStops(e: Execution, n: nat, l: nat) returns (m: nat)
    requires Runs(e) && Fair(e) && Awaited(e.at(n), l)
    ensures n <= m && l < |e.at(m).pool.table| && e.at(m).pool.table[l].phase == Stopped
    decreases l, Rank(e.at(n).pool.table[l])
  {
    hide Inv, Init, Next, Waited, Fair, Runs;
    var loop := e.at(n).pool.table[l];
    if loop.phase == Stopped {
      return n;
    }
    var k: nat;
    if loop.phase == Created && loop.cancelled {
      RunsInv(e, n);
      var q := PairOf(e.at(n), l);
      FormerAwaited(e.at(n), q);
      var stopped := LoopStops(e, n, q.former);
      k := FreshRankDrops(e, n, q, stopped);
    } else {
      var help := HelpExists(e.at(n), l);
      k := RankDrops(e, n, l, help);
    }
    AwaitedOver(e, n, k, l);
    m := LoopStops(e, k, l);
  }

  lemma {:induction false} FormerAwaited(s: State, q: Pair)
    requires Inv(s) && q in s.pending
    ensures Awaited(s, q.former)
  {
    assert Claimed(s);
  }

  lemma {:induction false} StoppedOver(e: Execution, n: nat, m: nat, l: nat)
    requires Runs(e) && n <= m && l < |e.at(n).pool.table| && e.at(n).pool.table[l].phase == Stopped
    ensures l < |e.at(m).pool.table| && e.at(m).pool.table[l].phase == Stopped
  {
    AgesOver(e, n, m, l);
  }

  /** All loops of a set that are waited for are stopped at the same time some day. */
  lemma {:induction false} AllStop(e: Execution, n: nat, ls: set<nat>) returns (m: nat)
    requires Runs(e) && Fair(e) && forall l :: l in ls ==> Awaited(e.at(n), l)
    ensures n <= m && AllStopped(e.at(m), ls)
  {
    hide Inv, Init, Next, Waited, Fair, Runs, Awaited;
    if ls == {} {
      return n;
    }
    var l :| l in ls;
    var a := AllStop(e, n, ls - {l});
    AwaitedOver(e, n, a, l);
    m := LoopStops(e, a, l);
    forall x | x in ls ensures x < |e.at(m).pool.table| && e.at(m).pool.table[x].phase == Stopped {
      if x != l {
        assert x in ls - {l};
        StoppedOver(e, a, m, x);
      }
    }
  }

  lemma {:induction false} AllStoppedOver(e: Execution, n: nat, m: nat, ls: set<nat>)
    requires Runs(e) && n <= m && AllStopped(e.at(n), ls)
    ensures AllStopped(e.at(m), ls)
  {
    hide Runs;
    forall l | l in ls ensures l < |e.at(m).pool.table| && e.at(m).pool.table[l].phase == Stopped {
      StoppedOver(e, n, m, l);
    }
  }

  // The waits end.

  /** Steps that are not due any more once they are taken. */
  predicate Once(step: Step) {
    step.SyncDone? || step.ReloadDone? || step.StopDone? || step.PairRun?
  }

  lemma {:induction false} TakenIsOver(s: State, step: Step, s': State)
    requires Once(step) && Next(s, step, s')
    ensures !Due(s', step)
  {
    hide Waited, RemoveForSync, RemoveForStop, SwapAll;
  }

  lemma {:induction false} DueEnds(e: Execution, n: nat, step: Step) returns (k: nat)
    requires Runs(e) && Fair(e) && Once(step)
    ensures n <= k && !Due(e.at(k), step)
  {
    hide Init, Next, Due, GoesOn;
    if DueFrom(e, n, step) {
      var m: nat :| n <= m && e.move(m) == Take(step);
      assert MoveAt(e, m);
      k := m + 1;
      TakenIsOver(e.at(m), step, e.at(m + 1));
    } else {
      k :| n <= k && !Due(e.at(k), step);
    }
  }

  lemma {:induction false} SyncKept(s: State, move: Move, s': State)
    requires move.Pause? ==> s' == s
    requires move.Take? ==> Next(s, move.step, s')
    requires s.sync != {} && s'.sync != {}
    ensures s'.sync == s.sync
  {
    if move.Take? {
      match move.step
      case StopCollect(removed) => StopKeeps(s, removed);
      case ReloadCollect(order) => SwapsKeep(s, order);
      case _ =>
    }
    hide Waited, RemoveForSync, RemoveForStop, SwapAll;
  }

  lemma {:induction false} SyncOver(e: Execution, n: nat, m: nat)
    requires Runs(e) && n <= m && forall k: nat :: n <= k <= m ==> e.at(k).sync != {}
    ensures e.at(m).sync == e.at(n).sync
    decreases m
  {
    hide Init, Next;
    if n < m {
      SyncOver(e, n, m - 1);
      assert MoveAt(e, m - 1);
      SyncKept(e.at(m - 1), e.move(m - 1), e.at(m));
    }
  }

  /** A sync that waits for the loops it removed returns. */
  lemma {:induction false} SyncReturns(e: Execution, n: nat) returns (m: nat)
    requires Runs(e) && Fair(e)
    ensures n <= m && e.at(m).sync == {}
  {
    hide Inv, Init, GoesOn;
    var ls := e.at(n).sync;
    RunsInv(e, n);
    SyncAwaited(e.at(n));
    var stopped := AllStop(e, n, ls);
    var k := DueEnds(e, stopped, SyncDone);
    AllStoppedOver(e, stopped, k, ls);
    if i: nat :| n <= i <= k && e.at(i).sync == {} {
      m := i;
    } else {
      SyncOver(e, n, k);
      assert false;
    }
  }

  lemma {:induction false} SyncAwaited(s: State)
    requires Inv(s)
    ensures forall l :: l in s.sync ==> Awaited(s, l)
  {
    assert Claimed(s);
    assert forall l :: l in s.sync ==> l in Waited(s);
    hide Inv;
  }

  /** The loops a reload or a stop waits for. */
  function ConfigLoops(c: Config): set<nat> {
    match c
    case Reloading(olds) => olds
    case Stopping(ls) => ls
    case _ => {}
  }

  lemma {:induction false} ConfigAwaited(s: State)
    requires Inv(s)
    ensures forall l :: l in ConfigLoops(s.config) ==> Awaited(s, l)
  {
    assert Claimed(s);
    assert forall l :: l in ConfigLoops(s.config) ==> l in Waited(s);
    hide Inv;
  }

  lemma {:induction false} ConfigKept(s: State, move: Move, s': State)
    requires move.Pause? ==> s' == s
    requires move.Take? ==> Next(s, move.step, s')
    requires (s.config.Reloading? || s.config.Stopping?) && !s'.config.Idle?
    ensures s'.config == s.config
  {
    if move.Take? && move.step.SyncCollect? {
      SyncKeeps(s.(pool := AddTargets(s.pool, move.step.targets)), move.step.removed);
    }
    hide Waited, RemoveForSync, RemoveForStop, SwapAll;
  }

  lemma {:induction false} ConfigOver(e: Execution, n: nat, m: nat)
    requires Runs(e) && n <= m && (e.at(n).config.Reloading? || e.at(n).config.Stopping?)
    requires forall k: nat :: n <= k <= m ==> !e.at(k).config.Idle?
    ensures e.at(m).config == e.at(n).config
    decreases m
  {
    hide Init, Next;
    if n < m {
      ConfigOver(e, n, m - 1);
      assert MoveAt(e, m - 1);
      ConfigKept(e.at(m - 1), e.move(m - 1), e.at(m));
    }
  }

  /** A reload or a stop returns. */
  lemma {:induction false} ConfigReturns(e: Execution, n: nat) returns (m: nat)
    requires Runs(e) && Fair(e)
    ensures n <= m && e.at(m).config.Idle?
  {
    hide Inv, Init;
    assert GoesOn(e, n);
    var from: nat :| n <= from && !e.at(from).config.Cancelling?;
    var c := e.at(from).config;
    if c.Idle? {
      return from;
    }
    RunsInv(e, from);
    ConfigAwaited(e.at(from));
    var stopped := AllStop(e, from, ConfigLoops(c));
    var last := if c.Reloading? then ReloadDone else StopDone;
    var k := DueEnds(e, stopped, last);
    AllStoppedOver(e, stopped, k, ConfigLoops(c));
    if i: nat :| from <= i <= k && e.at(i).config.Idle? {
      m := i;
    } else {
      ConfigOver(e, from, k);
      assert false;
    }
  }

  /** Every goroutine of a reload stops the old loop and runs the fresh one. */
  lemma {:induction false} FreshLoopRuns(e: Execution, n: nat, q: Pair) returns (m: nat)
    requires Runs(e) && Fair(e) && q in e.at(n).pending
    ensures n <= m && e.move(m) == Take(PairRun(q))
  {
    hide Inv, Init, GoesOn;
    RunsInv(e, n);
    FormerAwaited(e.at(n), q);
    var stopped := LoopStops(e, n, q.former);
    var k := DueEnds(e, stopped, PairRun(q));
    StoppedOver(e, stopped, k, q.former);
    RunsInv(e, k);
    if i: nat :| n <= i < k && e.move(i) == Take(PairRun(q)) {
      m := i;
    } else {
      PendingOver(e, n, k, q);
      PairExists(e.at(k), q);
      assert false;
    }
  }

  lemma {:induction false} PairExists(s: State, q: Pair)
    requires Inv(s) && q in s.pending
    ensures q.former < |s.pool.table| && q.latter < |s.pool.table|
  {
    assert PairAt(s.pool, q);
  }

  lemma {:induction false} PendingOver(e: Execution, n: nat, m: nat, q: Pair)
    requires Runs(e) && n <= m && q in e.at(n).pending
    requires forall k: nat :: n <= k < m ==> e.move(k) != Take(PairRun(q))
    ensures q in e.at(m).pending
    decreases m
  {
    hide Init, Next;
    if n < m {
      PendingOver(e, n, m - 1, q);
      assert MoveAt(e, m - 1);
      if e.move(m - 1).Take? {
        PairStays(e.at(m - 1), e.move(m - 1).step, e.at(m), q);
      }
    }
  }

  ghost predicate SyncIsIdle(s: State) {
    s.sync == {}
  }

  ghost predicate ConfigIsIdle(s: State) {
    s.config.Idle?
  }

  /** It is so now or some day. */
  ghost predicate Eventually(e: Execution, n: nat, p: State -> bool) {
    exists m: nat :: n <= m && p(e.at(m))
  }

  /** The idle pool that is left alone is a fair run. */
  lemma {:induction false} IdleIsFair()
    ensures
      var e := Execution(_ => State(Pool(map[], map[], [], false), {}, Idle, {}), _ => Pause);
      Runs(e) && Fair(e)
  {
    var e := Execution(_ => State(Pool(map[], map[], [], false), {}, Idle, {}), _ => Pause);
    forall n: nat, step ensures !DueFrom(e, n, step) {
      assert !Due(e.at(n), step);
    }
    forall n: nat ensures GoesOn(e, n) {
      assert !e.at(n).config.Cancelling?;
    }
  }

  /** In a fair run nobody waits for ever: every sync, reload and stop returns, every fresh loop is run. */
  lemma {:induction false} EveryWaitEnds(e: Execution)
    requires Runs(e) && Fair(e)
    ensures forall n: nat :: Eventually(e, n, SyncIsIdle) && Eventually(e, n, ConfigIsIdle)
    ensures forall n: nat, q :: q in e.at(n).pending ==> TakenAfter(e, n, PairRun(q))
  {
    hide Runs, Fair;
    forall n: nat ensures Eventually(e, n, SyncIsIdle) && Eventually(e, n, ConfigIsIdle) {
      var a := SyncReturns(e, n);
      var b := ConfigReturns(e, n);
    }
    forall n: nat, q | q in e.at(n).pending ensures TakenAfter(e, n, PairRun(q)) {
      var c := FreshLoopRuns(e, n, q);
    }
  }
}
