/** The critical sections of a scrape pool: what each does to the pool while it holds the lock. */
module ScrapePools {

  datatype Target = Target(hash: int, discoveredLabels: int)

  /** A loop that was created, runs between scrapes, scrapes, or closed its stopped channel. */
  datatype Phase = Created | Running | Scraping | Stopped

  /**
   A scrape loop. The counters record how often it was run, how often it closed its channel and how
   often somebody took charge of stopping it; bornCancelled says the pool's context was cancelled before.
   */
  datatype Loop = Loop(hash: int, phase: Phase, cancelled: bool, bornCancelled: bool, runs: nat, closes: nat,
      stops: nat)

  /** The pool: loops are named by their position in the table, in order of creation. */
  datatype Pool = Pool(activeTargets: map<int, Target>, loops: map<int, nat>, table: seq<Loop>, cancelled: bool)

  function NewLoop(p: Pool, hash: int, phase: Phase): Loop {
    Loop(hash, phase, false, p.cancelled, if phase == Created then 0 else 1, 0, 0)
  }

  /** Takes charge of stopping loop l. */
  function Claim(table: seq<Loop>, l: nat): seq<Loop>
    requires l < |table|
  {
    table[l := table[l].(stops := table[l].stops + 1)]
  }

  /** Starts a loop for a new target, or updates the labels of a known one. */
  function AddTarget(p: Pool, t: Target): Pool {
    if t.hash !in p.activeTargets then
      p.(activeTargets := p.activeTargets[t.hash := t],
         loops := p.loops[t.hash := |p.table|],
         table := p.table + [NewLoop(p, t.hash, Running)])
    else
      p.(activeTargets := p.activeTargets[t.hash := p.activeTargets[t.hash].(discoveredLabels := t.discoveredLabels)])
  }

  function AddTargets(p: Pool, targets: seq<Target>): Pool {
    if targets == [] then p
    else AddTarget(AddTargets(p, targets[..|targets| - 1]), targets[|targets| - 1])
  }

  function Hashes(targets: seq<Target>): set<int> {
    set i | 0 <= i < |targets| :: targets[i].hash
  }

  /** Removes the target of a hash and takes charge of its loop. */
  function RemoveTarget(p: Pool, h: int): Pool
    requires h in p.loops && p.loops[h] < |p.table|
  {
    p.(activeTargets := p.activeTargets - {h}, loops := p.loops - {h}, table := Claim(p.table, p.loops[h]))
  }

  /** Replaces the loop of a hash by a new one that is not run yet and takes charge of the old one. */
  function SwapLoop(p: Pool, h: int): Pool
    requires h in p.loops && p.loops[h] < |p.table|
  {
    p.(loops := p.loops[h := |p.table|], table := Claim(p.table, p.loops[h]) + [NewLoop(p, h, Created)])
  }

  /** The hashes in some order, without repetition. */
  ghost predicate Enumerates(order: seq<int>, s: set<int>) {
    && (forall i :: 0 <= i < |order| ==> order[i] in s)
    && (forall h :: h in s ==> h in order)
    && (forall i, j :: 0 <= i < j < |order| ==> order[i] != order[j])
  }
}
