/**
 Whole runs of the hot-key counter: what a reader of Latch may conclude about the
 increments that were really made, and which key each eviction gives up.
 */
module LfuRuns {
  import opened Basics
  import opened LfuSpec

  datatype Op = Incr(key: Key) | Latch

  ghost function Step(m: State, capacity: nat, op: Op): (m': State)
    requires capacity >= 1 && Wf(m) && |m.counts| <= capacity
    ensures Wf(m') && |m'.counts| <= capacity
  {
    match op
    case Incr(key) => IncrWf(m, capacity, key); LfuSpec.Incr(m, capacity, key)
    case Latch => EMPTY
  }

  /** The recorded state after a run; at every point it is well formed and within capacity. */
  ghost function Run(ops: seq<Op>, capacity: nat): (m: State)
    requires capacity >= 1
    ensures Wf(m) && |m.counts| <= capacity
  {
    if ops == [] then EMPTY
    else Step(Run(ops[..|ops| - 1], capacity), capacity, ops[|ops| - 1])
  }

  /** The keys incremented since the last Latch, in order. */
  function Period(ops: seq<Op>): seq<Key> {
    if ops == [] then []
    else match ops[|ops| - 1]
      case Incr(key) => Period(ops[..|ops| - 1]) + [key]
      case Latch => []
  }

  /** The state after incrementing these keys from empty. */
  ghost function After(keys: seq<Key>, capacity: nat): (m: State)
    requires capacity >= 1
    ensures Wf(m) && |m.counts| <= capacity
  {
    if keys == [] then EMPTY
    else Step(After(keys[..|keys| - 1], capacity), capacity, Incr(keys[|keys| - 1]))
  }

  /** Nothing before the last Latch can be seen: the state depends on the period alone. */
  lemma {:induction false} RunIsPeriod(ops: seq<Op>, capacity: nat)
    requires capacity >= 1
    ensures Run(ops, capacity) == After(Period(ops), capacity)
  {
    if ops != [] {
      var init := ops[..|ops| - 1];
      RunIsPeriod(init, capacity);
      match ops[|ops| - 1]
      case Incr(key) => assert (Period(init) + [key])[..|Period(init)|] == Period(init);
      case Latch =>
    }
  }

  function Total(keys: seq<Key>, k: Key): nat {
    multiset(keys)[k]
  }

  /** Key k was given up by increment number i of the period. */
  ghost predicate EvictedAt(keys: seq<Key>, capacity: nat, i: nat, k: Key)
    requires capacity >= 1 && i < |keys|
  {
    k in After(keys[..i], capacity).counts && k !in After(keys[..i + 1], capacity).counts
  }

  ghost predicate EverEvicted(keys: seq<Key>, capacity: nat, k: Key)
    requires capacity >= 1
  {
    exists i :: 0 <= i < |keys| && EvictedAt(keys, capacity, i, k)
  }

  lemma PrefixOfPrefix<T>(s: seq<T>, i: nat)
    requires i < |s|
    ensures s[..|s| - 1][..i] == s[..i]
  {
  }

  lemma EverEvictedStep(keys: seq<Key>, capacity: nat, k: Key)
    requires capacity >= 1 && keys != []
    ensures EverEvicted(keys, capacity, k)
       <==> (EverEvicted(keys[..|keys| - 1], capacity, k) || EvictedAt(keys, capacity, |keys| - 1, k))
  {
    hide After, Wf;
    var init := keys[..|keys| - 1];
    forall i | 0 <= i < |init|
      ensures EvictedAt(init, capacity, i, k) <==> EvictedAt(keys, capacity, i, k)
    {
      PrefixOfPrefix(keys, i);
      PrefixOfPrefix(keys, i + 1);
    }
    if EverEvicted(init, capacity, k) {
      var i :| 0 <= i < |init| && EvictedAt(init, capacity, i, k);
      assert EvictedAt(keys, capacity, i, k);
    }
  }

  lemma StepCount(m: State, capacity: nat, key: Key, k: Key)
    requires capacity >= 1 && Wf(m) && |m.counts| <= capacity
    ensures var m' := Step(m, capacity, Incr(key));
      && (k in m'.counts && k != key ==> k in m.counts && m'.counts[k] == m.counts[k])
      && (k == key ==> k in m'.counts && m'.counts[k] == (if k in m.counts then m.counts[k] else 0) + 1)
  {
  }

  /** What is known of key k after `total` increments of it, of which a loss was or was not seen. */
  predicate Reported(counts: map<Key, nat>, k: Key, total: nat, lost: bool) {
    if k in counts then 1 <= counts[k] <= total && (counts[k] == total <==> !lost)
    else total == 0 <==> !lost
  }

  lemma ReportedStep(m: State, capacity: nat, key: Key, k: Key, total: nat, lost: bool)
    requires capacity >= 1 && Wf(m) && |m.counts| <= capacity
    requires Reported(m.counts, k, total, lost)
    ensures var m' := Step(m, capacity, Incr(key));
      Reported(m'.counts, k, total + (if k == key then 1 else 0),
               lost || (k in m.counts && k !in m'.counts))
  {
    StepCount(m, capacity, key, k);
  }

  lemma PeriodCountStep(keys: seq<Key>, capacity: nat, k: Key)
    requires capacity >= 1 && keys != []
    requires var init := keys[..|keys| - 1];
      Reported(After(init, capacity).counts, k, Total(init, k), EverEvicted(init, capacity, k))
    ensures Reported(After(keys, capacity).counts, k, Total(keys, k), EverEvicted(keys, capacity, k))
  {
    hide EverEvicted, Reported, Step, Wf;
    var init, last := keys[..|keys| - 1], keys[|keys| - 1];
    EverEvictedStep(keys, capacity, k);
    assert keys == init + [last];
    assert keys[..|keys|] == keys;
    ReportedStep(After(init, capacity), capacity, last, k, Total(init, k), EverEvicted(init, capacity, k));
  }

  /**
   What the counter reports for a key is at most its true number of increments in the
   period, is exact as long as the key was never given up in the period, and is too small
   as soon as it was. A key it does not report was never incremented or was given up.
   */
  lemma {:induction false} PeriodCount(keys: seq<Key>, capacity: nat, k: Key)
    requires capacity >= 1
    ensures Reported(After(keys, capacity).counts, k, Total(keys, k), EverEvicted(keys, capacity, k))
  {
    hide Step, Wf;
    if keys != [] {
      PeriodCount(keys[..|keys| - 1], capacity, k);
      PeriodCountStep(keys, capacity, k);
    }
  }

  /** The theorem about Latch: its report on any run, against the increments since the last one. */
  lemma LatchReport(ops: seq<Op>, capacity: nat, k: Key)
    requires capacity >= 1
    ensures var report := Run(ops, capacity).counts;
      var period := Period(ops);
      && |report| <= capacity
      && (k in report ==> 1 <= report[k] <= Total(period, k))
      && (k in report ==> (report[k] == Total(period, k) <==> !EverEvicted(period, capacity, k)))
      && (k !in report ==> (Total(period, k) == 0 <==> !EverEvicted(period, capacity, k)))
  {
    RunIsPeriod(ops, capacity);
    PeriodCount(Period(ops), capacity, k);
  }

  /** The number of the increment that brought k to its present count. */
  function ReachedAt(keys: seq<Key>, k: Key): (i: nat)
    requires k in keys
    ensures i < |keys| && keys[i] == k && k !in keys[i + 1..]
  {
    if keys[|keys| - 1] == k then |keys| - 1
    else
      var init := keys[..|keys| - 1];
      var i := ReachedAt(init, k);
      assert keys[i + 1..] == init[i + 1..] + [keys[|keys| - 1]];
      i
  }

  lemma {:induction false} RecordedWereIncremented(keys: seq<Key>, capacity: nat, k: Key)
    requires capacity >= 1 && k in After(keys, capacity).counts
    ensures k in keys
  {
    if keys != [] && keys[|keys| - 1] != k {
      var init := keys[..|keys| - 1];
      StepCount(After(init, capacity), capacity, keys[|keys| - 1], k);
      RecordedWereIncremented(init, capacity, k);
    }
  }

  ghost predicate HasCount(keys: seq<Key>, capacity: nat, k: Key, c: nat)
    requires capacity >= 1
  {
    k in After(keys, capacity).counts && After(keys, capacity).counts[k] == c
  }

  lemma HasCountStep(keys: seq<Key>, capacity: nat, k: Key, c: nat)
    requires capacity >= 1 && keys != [] && HasCount(keys, capacity, k, c)
    ensures HasCount(keys[..|keys| - 1], capacity, k, c) <==> keys[|keys| - 1] != k
  {
    hide Step, Wf;
    StepCount(After(keys[..|keys| - 1], capacity), capacity, keys[|keys| - 1], k);
  }

  /** ReachedAt is that number: k holds its present count from there on, and did not before. */
  lemma {:induction false} ReachedAtIsWhen(keys: seq<Key>, capacity: nat, k: Key, c: nat, j: nat)
    requires capacity >= 1 && HasCount(keys, capacity, k, c) && k in keys
    requires ReachedAt(keys, k) <= j <= |keys|
    ensures HasCount(keys[..j], capacity, k, c) <==> j > ReachedAt(keys, k)
  {
    hide HasCount;
    if j == |keys| {
      assert keys[..j] == keys;
    } else {
      var init := keys[..|keys| - 1];
      HasCountStep(keys, capacity, k, c);
      assert init[..j] == keys[..j];
      if keys[|keys| - 1] != k {
        ReachedAtIsWhen(init, capacity, k, c, j);
      } else {
        assert init == keys[..j];
      }
    }
  }

  ghost predicate OrderedByReached(order: seq<Key>, keys: seq<Key>) {
    && (forall k :: k in order ==> k in keys)
    && (forall i, j :: 0 <= i < j < |order| ==> ReachedAt(keys, order[i]) < ReachedAt(keys, order[j]))
  }

  lemma OrderedDrop(p: seq<Key>, x: Key, q: seq<Key>, keys: seq<Key>)
    requires OrderedByReached(p + [x] + q, keys)
    ensures OrderedByReached(p + q, keys)
  {
    hide ReachedAt;
    var o, r := p + [x] + q, p + q;
    assert forall i :: 0 <= i < |r| ==> r[i] == o[if i < |p| then i else i + 1];
  }

  lemma WithoutKeepsOrdered(order: seq<Key>, keys: seq<Key>, x: Key)
    requires Distinct(order) && OrderedByReached(order, keys)
    ensures OrderedByReached(Without(order, x), keys)
  {
    if x in order {
      var p, q := SplitAt(order, x);
      WithoutSplit(p, x, q);
      OrderedDrop(p, x, q, keys);
    } else {
      WithoutAbsent(order, x);
    }
  }

  lemma AppendKeepsOrdered(order: seq<Key>, keys: seq<Key>, x: Key)
    requires OrderedByReached(order, keys) && x !in order
    ensures OrderedByReached(order + [x], keys + [x])
  {
    assert (keys + [x])[..|keys|] == keys;
    forall k | k in order ensures ReachedAt(keys + [x], k) == ReachedAt(keys, k) {
    }
    var o := order + [x];
    forall i, j | 0 <= i < j < |o|
      ensures ReachedAt(keys + [x], o[i]) < ReachedAt(keys + [x], o[j])
    {
      assert o[i] == order[i] && o[i] in order;
      if j < |order| { assert o[j] == order[j] && o[j] in order; }
    }
  }

  lemma OrderStep(m: State, capacity: nat, key: Key, keys: seq<Key>)
    requires capacity >= 1 && Wf(m) && |m.counts| <= capacity && OrderedByReached(m.order, keys)
    ensures OrderedByReached(Step(m, capacity, Incr(key)).order, keys + [key])
  {
    hide OrderedByReached;
    if key in m.counts {
      WithoutKeepsOrdered(m.order, keys, key);
      WithoutFacts(m.order, key);
      AppendKeepsOrdered(Without(m.order, key), keys, key);
    } else {
      MakeRoomWf(m, capacity);
      if m.order != [] {
        WithoutKeepsOrdered(m.order, keys, Victim(m.order, m.counts));
      }
      AppendKeepsOrdered(MakeRoom(m, capacity).order, keys, key);
    }
  }

  /** The recorded order is the order in which the keys reached their present counts. */
  lemma {:induction false} OrderIsReached(keys: seq<Key>, capacity: nat)
    requires capacity >= 1
    ensures OrderedByReached(After(keys, capacity).order, keys)
  {
    hide Step, Wf;
    if keys != [] {
      var init, last := keys[..|keys| - 1], keys[|keys| - 1];
      OrderIsReached(init, capacity);
      assert keys == init + [last];
      OrderStep(After(init, capacity), capacity, last, init);
    }
  }

  lemma {:induction false} VictimEarliest(order: seq<Key>, counts: map<Key, nat>, keys: seq<Key>)
    requires order != [] && Distinct(order) && OrderedByReached(order, keys)
    requires forall k :: k in order ==> k in counts
    ensures var v := Victim(order, counts);
      forall k :: k in order && k != v ==>
        counts[v] < counts[k] || (counts[v] == counts[k] && ReachedAt(keys, v) < ReachedAt(keys, k))
  {
    hide ReachedAt;
    if |order| > 1 {
      var init, last := order[..|order| - 1], order[|order| - 1];
      VictimEarliest(init, counts, keys);
      var v := Victim(init, counts);
      assert forall k :: k in order ==> k in init || k == last;
    }
  }

  /**
   An increment gives up a key exactly when its own key is unrecorded and the counter is
   full. It is then one key only: of least count, and of those the first to reach it.
   */
  lemma EvictionIsColdest(keys: seq<Key>, capacity: nat, i: nat, v: Key)
    requires capacity >= 1 && i < |keys|
    ensures var m := After(keys[..i], capacity);
      && EvictedAt(keys, capacity, i, v) ==>
           && keys[i] !in m.counts
           && |m.counts| == capacity
           && v in keys[..i]
           && forall k :: k in m.counts && k != v ==>
                && k in After(keys[..i + 1], capacity).counts
                && k in keys[..i]
                && (m.counts[v] < m.counts[k]
                    || (m.counts[v] == m.counts[k] && ReachedAt(keys[..i], v) < ReachedAt(keys[..i], k)))
  {
    var init := keys[..i];
    assert keys[..i + 1][..i] == init && keys[..i + 1][i] == keys[i];
    var m := After(init, capacity);
    if EvictedAt(keys, capacity, i, v) {
      OrderIsReached(init, capacity);
      VictimEarliest(m.order, m.counts, init);
    }
  }

  /** The converse: a full counter meeting an unrecorded key does give one up. */
  lemma FullCounterEvicts(keys: seq<Key>, capacity: nat, i: nat)
    requires capacity >= 1 && i < |keys|
    requires keys[i] !in After(keys[..i], capacity).counts
    requires |After(keys[..i], capacity).counts| == capacity
    ensures exists v :: EvictedAt(keys, capacity, i, v)
  {
    assert keys[..i + 1][..i] == keys[..i] && keys[..i + 1][i] == keys[i];
    var m := After(keys[..i], capacity);
    assert m.order == [] ==> m.counts.Keys == {};
    assert EvictedAt(keys, capacity, i, Victim(m.order, m.counts));
  }
}
