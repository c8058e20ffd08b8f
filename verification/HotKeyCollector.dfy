/** The collector's cached keys: shared counters raised, halved and re-sorted in place. */
module HotKeyCollector {
  import opened LfuSpec
  import opened HotKeys

  datatype HotKey = HotKey(name: Key, counter: LogCounter)

  ghost predicate Shows(key: HotKey, e: Entry)
    reads key.counter
  {
    e == Entry(key.name, key.counter.val, key.counter.lut)
  }

  ghost predicate Matches(keys: seq<HotKey>, es: seq<Entry>)
    reads set k | k in keys :: k.counter
  {
    && |keys| == |es|
    && forall i :: 0 <= i < |keys| ==> Shows(keys[i], es[i])
  }

  class SortedHotKeys {
    const capacity: uint8
    var data: seq<HotKey>

    constructor (capacity: uint8)
      ensures this.capacity == capacity && data == []
    {
      this.capacity, data := capacity, [];
    }

    /** The binary search of the library: the first index whose counter is not above val. */
    method Search(val: uint8, ghost es: seq<Entry>) returns (i: nat)
      requires Matches(data, es) && Descending(es)
      ensures i == Position(es, val)
    {
      i := 0;
      var j := |data|;
      while i < j
        invariant 0 <= i <= j <= |data|
        invariant forall k :: 0 <= k < i ==> es[k].val > val
        invariant forall k :: j <= k < |data| ==> es[k].val <= val
      {
        var h := (i + j) / 2;
        assert Shows(data[h], es[h]);
        if data[h].counter.val <= val {
          j := h;
        } else {
          i := h + 1;
        }
      }
      PositionUnique(es, val, i);
    }

    /** Room is made by shifting the lower part down one place; a full list loses its last key. */
    method Insert(key: HotKey, ghost es: seq<Entry>, ghost e: Entry) returns (success: bool)
      requires Matches(data, es) && Descending(es) && |data| <= capacity && Shows(key, e)
      modifies this
      ensures Matches(data, InsertEntry(es, capacity, e)) && |data| <= capacity
      ensures forall k :: k in data ==> k in old(data) || k == key
      ensures DistinctCounters(old(data)) && key.counter !in Counters(old(data)) ==> DistinctCounters(data)
      ensures success <==> |es| < capacity || Position(es, e.val) < |es|
    {
      hide InsertEntry, Fit, Descending, DistinctCounters, Counters;
      var i := Search(key.counter.val, es);
      PlacedMatches(data, es, key, e, i, capacity);
      if DistinctCounters(data) && key.counter !in Counters(data) {
        FitDistinct(data, key, i, capacity);
      }
      data, success := Shift(data, key, i, capacity);
    }
  }

  method Shift<T>(d: seq<T>, key: T, i: nat, capacity: uint8) returns (shifted: seq<T>, success: bool)
    requires i <= |d| <= capacity
    ensures shifted == Fit(Splice(d, key, i), capacity)
    ensures |shifted| <= capacity && forall k :: k in shifted ==> k in d || k == key
    ensures success <==> |d| < capacity || i < |d|
  {
    shifted, success := d, false;
    if |d| % 256 < capacity {
      shifted := shifted + [key];
      success := true;
    }
    if i < |d| {
      shifted := shifted[..i + 1] + shifted[i..|shifted| - 1];
      shifted := shifted[i := key];
      success := true;
    }
  }

  function Splice<T>(d: seq<T>, key: T, i: nat): (r: seq<T>)
    requires i <= |d|
    ensures |r| == |d| + 1
  {
    d[..i] + [key] + d[i..]
  }

  lemma SpliceAt<T>(d: seq<T>, key: T, i: nat, j: nat)
    requires i <= |d| && j <= |d|
    ensures Splice(d, key, i)[j] == if j < i then d[j] else if j == i then key else d[j - 1]
  {
  }

  function Fit<T>(s: seq<T>, capacity: uint8): seq<T> {
    if |s| <= capacity then s else s[..capacity]
  }

  lemma FitDistinct(d: seq<HotKey>, key: HotKey, i: nat, capacity: uint8)
    requires i <= |d| && DistinctCounters(d) && key.counter !in Counters(d)
    ensures DistinctCounters(Fit(Splice(d, key, i), capacity))
  {
    hide Splice;
    var all := Splice(d, key, i);
    assert forall j :: 0 <= j < |d| ==> d[j].counter in Counters(d);
    forall a, b | 0 <= a < b < |all| ensures all[a].counter != all[b].counter {
      SpliceAt(d, key, i, a);
      SpliceAt(d, key, i, b);
    }
  }

  lemma PlacedMatches(keys: seq<HotKey>, es: seq<Entry>, key: HotKey, e: Entry, i: nat, capacity: uint8)
    requires Matches(keys, es) && Shows(key, e) && i == Position(es, e.val)
    ensures Matches(Fit(Splice(keys, key, i), capacity), InsertEntry(es, capacity, e))
  {
    hide Splice, Placed;
    var a, b := Splice(keys, key, i), Placed(es, e);
    PlacedAt(es, e, 0);
    forall j | 0 <= j < |a| ensures Shows(a[j], b[j]) {
      PlacedAt(es, e, j);
      SpliceAt(keys, key, i, j);
    }
  }

  ghost function Counters(keys: seq<HotKey>): set<LogCounter> {
    set k | k in keys :: k.counter
  }

  ghost predicate DistinctCounters(keys: seq<HotKey>) {
    forall i, j :: 0 <= i < j < |keys| ==> keys[i].counter != keys[j].counter
  }

  /** A counter not yet listed is raised and its key offered to the list. */
  method Offer(res: SortedHotKeys, name: Key, counter: LogCounter, times: nat, draws: seq<real>, now: int,
               ghost es: seq<Entry>)
    requires Matches(res.data, es) && Descending(es) && |res.data| <= res.capacity
    requires counter !in Counters(res.data) && times <= |draws|
    modifies res, counter
    ensures counter.val == Raise(old(counter.val), draws[..times]) && counter.lut == now
    ensures Matches(res.data, InsertEntry(es, res.capacity, Entry(name, counter.val, now)))
    ensures |res.data| <= res.capacity && Counters(res.data) <= old(Counters(res.data)) + {counter}
    ensures DistinctCounters(old(res.data)) ==> DistinctCounters(res.data)
  {
    hide InsertEntry, Descending, Raise;
    counter.RepeatIncr(times, draws, now);
    forall i | 0 <= i < |res.data| ensures Shows(res.data[i], es[i]) {
      assert res.data[i].counter in Counters(res.data);
    }
    var key := HotKey(name, counter);
    var success := res.Insert(key, es, Entry(name, counter.val, now));
  }

  /** The list built so far holds the candidates offered so far. */
  ghost predicate Offered(res: SortedHotKeys, order: seq<Entry>)
    reads res, Counters(res.data)
  {
    && Matches(res.data, Inserts(order, res.capacity))
    && |res.data| <= res.capacity && DistinctCounters(res.data)
  }

  lemma OfferedNext(order: seq<Entry>, e: Entry, capacity: uint8)
    ensures Inserts(order + [e], capacity) == InsertEntry(Inserts(order, capacity), capacity, e)
  {
    assert (order + [e])[..|order|] == order;
  }

  lemma OrderDescends(order: seq<Entry>, capacity: uint8)
    ensures Descending(Inserts(order, capacity))
  {
    var rest := InsertsTop(order, capacity);
  }

  lemma NothingOffered(es: seq<Entry>, hits: map<Key, nat>, draws: Key -> seq<real>, clock: Clock, capacity: uint8)
    requires Supplied(hits, draws)
    ensures Enumerates([], {}, es, hits, draws, clock) && Inserts([], capacity) == []
  {
  }

  lemma CandidateIs(es: seq<Entry>, hits: map<Key, nat>, draws: Key -> seq<real>, clock: Clock, name: Key)
    requires HitsOf(hits, name) <= |draws(name)|
    ensures Candidate(es, hits, draws, clock, name)
         == Entry(name, Raise(ValueOf(es, name), draws(name)[..HitsOf(hits, name)]), clock(name))
  {
  }

  /** Cached keys come first, in any order, and are struck off the hits. */
  method OfferCached(res: SortedHotKeys, cur: map<Key, LogCounter>, hits: map<Key, nat>,
                     draws: Key -> seq<real>, clock: Clock, ghost es: seq<Entry>)
    returns (left: map<Key, nat>, ghost order: seq<Entry>)
    requires Supplied(hits, draws) && res.data == [] && cur.Keys == Names(es)
    requires forall n, m :: n in cur && m in cur && n != m ==> cur[n] != cur[m]
    requires forall n :: n in cur ==> cur[n].val == ValueOf(es, n)
    modifies res, cur.Values
    ensures left == hits - cur.Keys
    ensures Enumerates(order, cur.Keys, es, hits, draws, clock)
    ensures Offered(res, order) && Counters(res.data) <= cur.Values
  {
    hide InsertEntry, Inserts, Descending, Enumerates, Candidate, ValueOf;
    left, order := hits, [];
    var todo := cur.Keys;
    NothingOffered(es, hits, draws, clock, res.capacity);
    assert cur.Keys - todo == {};
    ghost var done: set<LogCounter> := {};
    while todo != {}
      invariant todo <= cur.Keys && left == hits - (cur.Keys - todo)
      invariant Enumerates(order, cur.Keys - todo, es, hits, draws, clock)
      invariant Offered(res, order) && Counters(res.data) <= done <= cur.Values
      invariant forall n :: n in todo ==> cur[n] !in done && cur[n].val == ValueOf(es, n)
    {
      var name :| name in todo;
      var counter := cur[name];
      ghost var before := counter.val;
      assert counter in cur.Values;
      OrderDescends(order, res.capacity);
      assert Supplied(hits, draws) ==> HitsOf(hits, name) <= |draws(name)|;
      ghost var e := Candidate(es, hits, draws, clock, name);
      Offer(res, name, counter, HitsOf(hits, name), draws(name), clock(name), Inserts(order, res.capacity));
      EnumeratesNext(order, cur.Keys - todo, name, es, hits, draws, clock);
      CandidateIs(es, hits, draws, clock, name);
      OfferedNext(order, e, res.capacity);
      order, done := order + [e], done + {counter};
      assert cur.Keys - todo + {name} == cur.Keys - (todo - {name});
      todo := todo - {name};
      left := left - {name};
    }
    assert cur.Keys - todo == cur.Keys;
  }

  /** Keys hit for the first time get new counters. */
  method OfferNew(res: SortedHotKeys, left: map<Key, nat>, hits: map<Key, nat>,
                  draws: Key -> seq<real>, clock: Clock, ghost es: seq<Entry>, ghost first: seq<Entry>)
    returns (ghost order: seq<Entry>)
    requires Supplied(hits, draws) && Offered(res, first)
    requires left == hits - Names(es) && Enumerates(first, Names(es), es, hits, draws, clock)
    modifies res
    ensures Enumerates(order, Names(es) + hits.Keys, es, hits, draws, clock)
    ensures Offered(res, order) && fresh(Counters(res.data) - old(Counters(res.data)))
  {
    hide InsertEntry, Inserts, Descending, Enumerates, Candidate, ValueOf;
    order := first;
    var todo := left.Keys;
    ghost var all := Names(es) + hits.Keys;
    assert all - todo == Names(es);
    while todo != {}
      invariant todo <= left.Keys
      invariant Enumerates(order, all - todo, es, hits, draws, clock)
      invariant Offered(res, order)
      invariant fresh(Counters(res.data) - old(Counters(res.data)))
    {
      var name :| name in todo;
      assert left[name] == HitsOf(hits, name);
      var counter := new LogCounter();
      assert Offered(res, order);
      OrderDescends(order, res.capacity);
      assert Supplied(hits, draws) ==> HitsOf(hits, name) <= |draws(name)|;
      ghost var e := Candidate(es, hits, draws, clock, name);
      ValueOfOther(es, name);
      Offer(res, name, counter, left[name], draws(name), clock(name), Inserts(order, res.capacity));
      EnumeratesNext(order, all - todo, name, es, hits, draws, clock);
      CandidateIs(es, hits, draws, clock, name);
      OfferedNext(order, e, res.capacity);
      order := order + [e];
      assert all - todo + {name} == all - (todo - {name});
      todo := todo - {name};
    }
    assert all - todo == all;
  }

  class Collector {
    const capacity: uint8
    var keys: seq<HotKey>
    ghost var entries: seq<Entry>

    ghost predicate Valid()
      reads this, Counters(keys)
    {
      Matches(keys, entries) && DistinctCounters(keys) && Listed(entries, capacity)
    }

    constructor (capacity: uint8)
      ensures Valid() && this.capacity == capacity && entries == []
    {
      this.capacity := capacity;
      keys, entries := [], [];
    }

    method CurrentCounters() returns (cur: map<Key, LogCounter>)
      requires Valid()
      ensures cur.Keys == Names(entries) && cur.Values <= Counters(keys)
      ensures forall n, m :: n in cur && m in cur && n != m ==> cur[n] != cur[m]
      ensures forall n :: n in cur ==> cur[n].val == ValueOf(entries, n)
    {
      hide ValueOf, Names, Mirrors, Descending, DistinctCounters, Counters;
      assert forall j :: 0 <= j < |keys| ==> Shows(keys[j], entries[j]);
      cur := map[];
      MirrorBegins(keys);
      var i := 0;
      while i < |keys|
        invariant 0 <= i <= |keys| && Mirrors(cur, keys[..i])
      {
        MirrorNext(cur, keys, i);
        cur := cur[keys[i].name := keys[i].counter];
        i := i + 1;
      }
      assert keys[..i] == keys;
      MirrorInjective(cur, keys);
      MirrorValues(cur, keys, entries);
      MirrorNames(cur, keys, entries);
    }

    /** One period's hits are merged in; a period without hits changes nothing. */
    method Collect(hits: map<Key, nat>, draws: Key -> seq<real>, clock: Clock) returns (ghost order: seq<Entry>)
      requires Valid() && Supplied(hits, draws)
      modifies this, Counters(keys)
      ensures Valid() && fresh(Counters(keys) - old(Counters(keys)))
      ensures hits == map[] ==> keys == old(keys) && entries == old(entries)
      ensures hits != map[] ==>
        && Enumerates(order, Names(old(entries)) + hits.Keys, old(entries), hits, draws, clock)
        && entries == Inserts(order, capacity)
        && Descending(entries) && (Still(clock) ==> Even(entries))
    {
      hide Inserts, Enumerates, Listed, Descending, Even, Still, ValueOf;
      order := [];
      if hits == map[] {
        return;
      }
      ghost var es := entries;
      var cur := CurrentCounters();
      var res := new SortedHotKeys(capacity);
      var left;
      ghost var first;
      left, first := OfferCached(res, cur, hits, draws, clock, es);
      order := OfferNew(res, left, hits, draws, clock, es, first);
      CollectionCached(order, es, capacity, hits, draws, clock);
      keys := res.data;
      entries := Inserts(order, capacity);
    }

    /** Keys idle since an earlier minute are halved, and those that reach zero are dropped. */
    method EvictStale(now: int, clock: Clock)
      requires Valid()
      modifies this, Counters(keys)
      ensures Valid() && entries == NonZero(AllHalved(old(entries), now, clock))
      ensures Counters(keys) <= old(Counters(keys))
      ensures old(Even(entries)) && Still(clock) ==> Even(entries)
    {
      hide NonZero, Listed, AllHalved, Even, Still;
      ghost var es := entries;
      DecayCached(es, capacity, now, clock);
      HalveAll(keys, es, now, clock);
      ghost var halved := AllHalved(es, now, clock);
      keys := Survivors(keys, halved);
      entries := NonZero(halved);
    }
  }

  method HalveAll(keys: seq<HotKey>, ghost es: seq<Entry>, now: int, clock: Clock)
    requires Matches(keys, es) && DistinctCounters(keys)
    modifies Counters(keys)
    ensures Matches(keys, AllHalved(es, now, clock))
  {
    var i := 0;
    while i < |keys|
      invariant 0 <= i <= |keys|
      invariant forall j :: 0 <= j < i ==> Shows(keys[j], Halved(es[j], now, clock))
      invariant forall j :: i <= j < |keys| ==> Shows(keys[j], es[j])
    {
      var counter := keys[i].counter;
      assert keys[i] in keys && Shows(keys[i], es[i]);
      if now > counter.lut {
        counter.Halve(clock(keys[i].name));
      }
      assert Shows(keys[i], Halved(es[i], now, clock));
      i := i + 1;
    }
  }

  method Survivors(keys: seq<HotKey>, ghost es: seq<Entry>) returns (kept: seq<HotKey>)
    requires Matches(keys, es) && DistinctCounters(keys)
    ensures Matches(kept, NonZero(es)) && DistinctCounters(kept) && Counters(kept) <= Counters(keys)
  {
    kept := [];
    var i := 0;
    while i < |keys|
      invariant 0 <= i <= |keys|
      invariant Matches(kept, NonZero(es[..i])) && DistinctCounters(kept)
      invariant Counters(kept) <= Counters(keys[..i])
    {
      assert Shows(keys[i], es[i]);
      NonZeroNext(es, i);
      CountersNext(keys, i);
      if keys[i].counter.val != 0 {
        KeptNext(kept, NonZero(es[..i]), keys[i], es[i]);
        kept := kept + [keys[i]];
      }
      i := i + 1;
    }
    assert keys[..i] == keys && es[..i] == es;
  }

  lemma NonZeroNext(es: seq<Entry>, i: nat)
    requires i < |es|
    ensures NonZero(es[..i + 1]) == NonZero(es[..i]) + if es[i].val != 0 then [es[i]] else []
  {
    assert es[..i + 1][..i] == es[..i];
  }

  lemma CountersNext(keys: seq<HotKey>, i: nat)
    requires i < |keys| && DistinctCounters(keys)
    ensures Counters(keys[..i + 1]) == Counters(keys[..i]) + {keys[i].counter}
    ensures keys[i].counter !in Counters(keys[..i])
  {
    assert keys[..i + 1] == keys[..i] + [keys[i]];
  }

  lemma KeptNext(kept: seq<HotKey>, es: seq<Entry>, key: HotKey, e: Entry)
    requires Matches(kept, es) && Shows(key, e) && DistinctCounters(kept) && key.counter !in Counters(kept)
    ensures Matches(kept + [key], es + [e]) && DistinctCounters(kept + [key])
    ensures Counters(kept + [key]) == Counters(kept) + {key.counter}
  {
    assert forall k :: k in kept + [key] <==> k in kept || k == key;
    assert forall j :: 0 <= j < |kept| ==> kept[j].counter in Counters(kept);
  }

  /** The period's hits: what the clients' counters report, summed over the clients. */
  method SumReports(reports: seq<map<Key, nat>>) returns (hits: map<Key, nat>)
    ensures forall k :: k in hits <==> exists i :: 0 <= i < |reports| && k in reports[i]
    ensures forall k :: HitsOf(hits, k) == SumOf(reports, k)
  {
    hits := map[];
    var i := 0;
    while i < |reports|
      invariant 0 <= i <= |reports|
      invariant forall k :: k in hits <==> exists j :: 0 <= j < i && k in reports[j]
      invariant forall k :: HitsOf(hits, k) == SumOf(reports[..i], k)
    {
      var before := hits;
      var todo := reports[i].Keys;
      while todo != {}
        invariant todo <= reports[i].Keys
        invariant forall k :: k in hits <==> k in before || k in reports[i].Keys - todo
        invariant forall k ::
          HitsOf(hits, k) == HitsOf(before, k) + if k in reports[i].Keys - todo then reports[i][k] else 0
      {
        var k :| k in todo;
        hits := hits[k := HitsOf(hits, k) + reports[i][k]];
        todo := todo - {k};
      }
      assert reports[..i + 1][..i] == reports[..i];
      i := i + 1;
    }
    assert reports[..i] == reports;
  }

  /** The map from names to counters that mirrors the list. */
  ghost predicate Mirrors(cur: map<Key, LogCounter>, keys: seq<HotKey>) {
    && (forall n :: n in cur ==> exists j :: 0 <= j < |keys| && keys[j].name == n)
    && (forall j :: 0 <= j < |keys| ==> keys[j].name in cur && cur[keys[j].name] == keys[j].counter)
  }

  lemma MirrorAt(cur: map<Key, LogCounter>, keys: seq<HotKey>, n: Key) returns (j: nat)
    requires Mirrors(cur, keys) && n in cur
    ensures j < |keys| && keys[j] == HotKey(n, cur[n])
  {
    j :| 0 <= j < |keys| && keys[j].name == n;
  }

  lemma MirrorBegins(keys: seq<HotKey>)
    ensures Mirrors(map[], keys[..0])
  {
  }

  lemma MirrorNext(cur: map<Key, LogCounter>, keys: seq<HotKey>, i: nat)
    requires i < |keys| && Mirrors(cur, keys[..i]) && forall j :: 0 <= j < i ==> keys[j].name != keys[i].name
    ensures Mirrors(cur[keys[i].name := keys[i].counter], keys[..i + 1])
  {
    var more := cur[keys[i].name := keys[i].counter];
    var first := keys[..i + 1];
    forall n | n in more ensures exists j :: 0 <= j < |first| && first[j].name == n {
      if n == keys[i].name {
        assert first[i].name == n;
      } else {
        var j := MirrorAt(cur, keys[..i], n);
        assert first[j].name == n;
      }
    }
  }

  lemma MirrorInjective(cur: map<Key, LogCounter>, keys: seq<HotKey>)
    requires Mirrors(cur, keys) && DistinctCounters(keys)
    ensures forall n, m :: n in cur && m in cur && n != m ==> cur[n] != cur[m]
  {
    hide Mirrors;
    forall n, m | n in cur && m in cur && n != m ensures cur[n] != cur[m] {
      var i := MirrorAt(cur, keys, n);
      var j := MirrorAt(cur, keys, m);
    }
  }

  lemma MirrorNames(cur: map<Key, LogCounter>, keys: seq<HotKey>, es: seq<Entry>)
    requires Mirrors(cur, keys) && |keys| == |es| && forall i :: 0 <= i < |keys| ==> keys[i].name == es[i].name
    ensures cur.Keys == Names(es)
  {
    forall n | n in cur ensures n in Names(es) {
      var j := MirrorAt(cur, keys, n);
      assert es[j] in es;
    }
    assert forall e :: e in es ==> e.name in cur;
  }

  lemma MirrorValues(cur: map<Key, LogCounter>, keys: seq<HotKey>, es: seq<Entry>)
    requires Mirrors(cur, keys) && Matches(keys, es) && DistinctNames(es)
    ensures forall n :: n in cur ==> cur[n].val == ValueOf(es, n) && cur[n] in Counters(keys)
  {
    hide Mirrors, ValueOf, DistinctNames;
    forall n | n in cur ensures cur[n].val == ValueOf(es, n) && cur[n] in Counters(keys) {
      var j := MirrorAt(cur, keys, n);
      assert Shows(keys[j], es[j]) && keys[j] in keys;
      ValueOfListed(es, j);
    }
  }
}
