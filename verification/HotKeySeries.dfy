/** Series of calls on a client's hot-key counter and on the collector. */
module HotKeySeries {
  import opened LfuSpec
  import opened LfuRuns
  import opened Lfu
  import opened HotKeys
  import opened HotKeyCollector

  lemma NextOp(ops: seq<Op>, capacity: nat, i: nat)
    requires capacity >= 1 && i < |ops|
    ensures Run(ops[..i + 1], capacity) == Step(Run(ops[..i], capacity), capacity, ops[i])
  {
    assert ops[..i + 1][..i] == ops[..i];
  }

  lemma StepIs(m: State, capacity: nat, op: Op)
    requires capacity >= 1 && Wf(m) && |m.counts| <= capacity
    ensures Step(m, capacity, op) == if op.Latch? then EMPTY else LfuSpec.Incr(m, capacity, op.key)
  {
  }

  /** The linked structure goes through any series of calls as the value does, and reports what the value records. */
  method CountSeries(c: Counter, ops: seq<Op>) returns (reports: seq<map<Key, nat>>)
    requires c.Valid() && c.capacity >= 1 && c.model == EMPTY
    modifies c, c.chain.nodeSet, c.chain.itemSet
    ensures c.Valid() && c.model == Run(ops, c.capacity)
    ensures |reports| == |ops|
    ensures forall i :: 0 <= i < |ops| ==>
      reports[i] == if ops[i].Latch? then Run(ops[..i], c.capacity).counts else map[]
  {
    hide Counter.Valid, Run, Step, LfuSpec.Incr;
    reports := [];
    ghost var nodes, its := c.chain.nodeSet, c.chain.itemSet;
    RunNothing(ops, c.capacity);
    var i := 0;
    while i < |ops|
      invariant 0 <= i <= |ops| && |reports| == i
      invariant c.Valid() && c.model == Run(ops[..i], c.capacity)
      invariant fresh(c.chain.nodeSet - nodes) && fresh(c.chain.itemSet - its)
      invariant forall j :: 0 <= j < i ==>
        reports[j] == if ops[j].Latch? then Run(ops[..j], c.capacity).counts else map[]
    {
      NextOp(ops, c.capacity, i);
      StepIs(c.model, c.capacity, ops[i]);
      var report: map<Key, nat> := map[];
      match ops[i] {
        case Incr(key) => c.Incr(key);
        case Latch => report := c.Latch();
      }
      reports := reports + [report];
      i := i + 1;
    }
    assert ops[..i] == ops;
  }

  lemma RunNothing(ops: seq<Op>, capacity: nat)
    requires capacity >= 1
    ensures Run(ops[..0], capacity) == EMPTY
  {
  }

  /** What the collector does from time to time. */
  datatype Work =
    | Collection(hits: map<Key, nat>, draws: Key -> seq<real>, clock: Clock)
    | Eviction(now: int, clock: Clock)

  ghost predicate Feasible(works: seq<Work>) {
    forall i :: 0 <= i < |works| && works[i].Collection? ==> Supplied(works[i].hits, works[i].draws)
  }

  ghost predicate AllStill(works: seq<Work>) {
    forall i :: 0 <= i < |works| ==> Still(works[i].clock)
  }

  /**
   Through any series of collections and evictions the cached keys stay a valid list; with a clock that stands
   still during each of them the list is, from an even one on, even and so in descending order at every point.
   */
  method CollectorSeries(col: Collector, works: seq<Work>)
    requires col.Valid() && Feasible(works)
    modifies col, Counters(col.keys)
    ensures col.Valid()
    ensures AllStill(works) && old(Even(col.entries)) ==> Even(col.entries)
  {
    hide Collector.Valid, Even, Still, Supplied, Enumerates, Inserts, Descending;
    ghost var start := Counters(col.keys);
    ghost var even := Even(col.entries);
    var i := 0;
    while i < |works|
      invariant 0 <= i <= |works| && col.Valid()
      invariant fresh(Counters(col.keys) - start)
      invariant AllStill(works) && even ==> Even(col.entries)
    {
      match works[i] {
        case Collection(hits, draws, clock) =>
          ghost var order := col.Collect(hits, draws, clock);
        case Eviction(now, clock) =>
          col.EvictStale(now, clock);
      }
      i := i + 1;
    }
  }
}
