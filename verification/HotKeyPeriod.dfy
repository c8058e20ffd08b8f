/** A whole collection: every client's counter is latched, the reports summed, the sums merged into the list. */
module HotKeyPeriod {
  import opened Basics
  import opened LfuSpec
  import opened Lfu
  import opened HotKeys
  import opened HotKeyCollector

  /** Each counter reports its own counts and starts afresh, whatever the others do. */
  method LatchAll(counters: seq<Counter>) returns (reports: seq<map<Key, nat>>)
    requires Distinct(counters) && forall i :: 0 <= i < |counters| ==> counters[i].Valid()
    modifies counters
    ensures |reports| == |counters|
    ensures forall i :: 0 <= i < |counters| ==> reports[i] == old(counters[i].model).counts
    ensures forall i :: 0 <= i < |counters| ==> counters[i].Valid() && counters[i].model == EMPTY
  {
    hide Counter.Valid;
    reports := [];
    var i := 0;
    while i < |counters|
      invariant 0 <= i <= |counters| && |reports| == i
      invariant forall j :: 0 <= j < i ==> reports[j] == old(counters[j].model).counts
      invariant forall j :: 0 <= j < i ==> counters[j].Valid() && counters[j].model == EMPTY
      invariant forall j :: i <= j < |counters| ==> counters[j].Valid() && counters[j].model == old(counters[j].model)
    {
      ghost var c := counters[i];
      label before:
      var report := counters[i].Latch();
      forall j | 0 <= j < |counters| && j != i ensures counters[j].Valid() {
        assert old@before(counters[j].Valid());
        assert counters[j] != c;
        assert unchanged@before(counters[j]);
        assert unchanged@before(counters[j].chain.nodeSet);
        assert unchanged@before(counters[j].chain.itemSet);
      }
      reports := reports + [report];
      i := i + 1;
    }
  }

  /** What the counters would report now. */
  ghost function Counts(counters: seq<Counter>): (r: seq<map<Key, nat>>)
    reads counters
    ensures |r| == |counters|
  {
    seq(|counters|, i requires 0 <= i < |counters| reads counters => counters[i].model.counts)
  }

  ghost predicate Positive(reports: seq<map<Key, nat>>) {
    forall i, k :: 0 <= i < |reports| && k in reports[i] ==> reports[i][k] >= 1
  }

  lemma CountsPositive(counters: seq<Counter>)
    requires forall i :: 0 <= i < |counters| ==> counters[i].Valid()
    ensures Positive(Counts(counters))
  {
    hide Shape, Represents;
    assert forall i :: 0 <= i < |counters| ==> Wf(counters[i].model);
  }

  lemma {:induction false} SumPositive(reports: seq<map<Key, nat>>, k: Key, i: nat)
    requires Positive(reports) && i < |reports| && k in reports[i]
    ensures SumOf(reports, k) >= 1
  {
    var last := |reports| - 1;
    if i < last {
      assert forall j :: 0 <= j < last ==> reports[..last][j] == reports[j];
      SumPositive(reports[..last], k, i);
    }
  }

  /** Random numbers enough for every key's hits of the period. */
  ghost predicate Enough(reports: seq<map<Key, nat>>, draws: Key -> seq<real>) {
    forall k :: SumOf(reports, k) <= |draws(k)| && Random(draws(k))
  }

  lemma SumsSupplied(reports: seq<map<Key, nat>>, hits: map<Key, nat>, draws: Key -> seq<real>)
    requires Positive(reports) && Enough(reports, draws)
    requires forall k :: k in hits <==> exists i :: 0 <= i < |reports| && k in reports[i]
    requires forall k :: HitsOf(hits, k) == SumOf(reports, k)
    ensures Supplied(hits, draws)
  {
    forall k | k in hits ensures hits[k] >= 1 {
      var i :| 0 <= i < |reports| && k in reports[i];
      SumPositive(reports, k, i);
      assert HitsOf(hits, k) == hits[k];
    }
  }

  /**
   One period: the clients' counters are emptied, and the list becomes a top selection of all keys, cached or
   hit, each raised by its hits summed over the clients.
   */
  method CollectPeriod(col: Collector, counters: seq<Counter>, draws: Key -> seq<real>, clock: Clock)
    returns (hits: map<Key, nat>, ghost order: seq<Entry>)
    requires Distinct(counters) && (forall i :: 0 <= i < |counters| ==> counters[i].Valid())
    requires col.Valid() && Enough(Counts(counters), draws)
    modifies counters, col, Counters(col.keys)
    ensures col.Valid() && (forall i :: 0 <= i < |counters| ==> counters[i].Valid() && counters[i].model == EMPTY)
    ensures forall k :: HitsOf(hits, k) == SumOf(old(Counts(counters)), k)
    ensures hits == map[] ==> col.keys == old(col.keys) && col.entries == old(col.entries)
    ensures Supplied(hits, draws)
    ensures hits != map[] ==>
      && Enumerates(order, Names(old(col.entries)) + hits.Keys, old(col.entries), hits, draws, clock)
      && col.entries == Inserts(order, col.capacity)
      && Descending(col.entries) && (Still(clock) ==> Even(col.entries))
  {
    hide Counter.Valid, Collector.Valid, Enumerates, Inserts, Descending, Even, Still, Names;
    hide Supplied, Enough, Positive, HitsOf, SumOf;
    ghost var counts := Counts(counters);
    CountsPositive(counters);
    var reports := LatchAll(counters);
    assert unchanged(col) && unchanged(Counters(col.keys));
    assert col.Valid();
    assert reports == counts;
    label latched:
    hits := SumReports(reports);
    SumsSupplied(reports, hits, draws);
    order := col.Collect(hits, draws, clock);
    forall i | 0 <= i < |counters| ensures counters[i].Valid() && counters[i].model == EMPTY {
      assert old@latched(counters[i].Valid());
      assert unchanged@latched(counters[i]);
      assert unchanged@latched(counters[i].chain.nodeSet);
      assert unchanged@latched(counters[i].chain.itemSet);
    }
  }
}
