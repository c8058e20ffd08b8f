/**
 The hot-key counter as a plain value: a count for each recorded key, and the recorded
 keys in the order of their latest increment. An increment moves a key to the end, so
 among keys that share a count this is the order in which they reached that count.
 The linked structure in module Lfu is proved to behave like this value.
 */
module LfuSpec {
  import opened Basics

  type Key = string

  datatype State = State(order: seq<Key>, counts: map<Key, nat>)

  const EMPTY := State([], map[])

  ghost predicate Wf(m: State) {
    && Distinct(m.order)
    && (forall k :: k in m.order <==> k in m.counts)
    && (forall k :: k in m.counts ==> m.counts[k] >= 1)
  }

  function Without<T(==)>(s: seq<T>, x: T): (r: seq<T>)
  {
    if s == [] then []
    else
      var rest := Without(s[..|s| - 1], x);
      if s[|s| - 1] == x then rest else rest + [s[|s| - 1]]
  }

  /** The key to give up: the least count, and among equal counts the earliest. */
  function Victim(order: seq<Key>, counts: map<Key, nat>): (v: Key)
    requires order != []
    requires forall k :: k in order ==> k in counts
    ensures v in order
  {
    var last := order[|order| - 1];
    if |order| == 1 then last
    else
      var v := Victim(order[..|order| - 1], counts);
      if counts[last] < counts[v] then last else v
  }

  ghost function Evict(m: State): State
    requires Wf(m) && m.order != []
  {
    var v := Victim(m.order, m.counts);
    State(Without(m.order, v), m.counts - {v})
  }

  ghost function MakeRoom(m: State, capacity: nat): State
    requires Wf(m) && capacity >= 1
  {
    if |m.counts| >= capacity && m.order != [] then Evict(m) else m
  }

  /** One more increment of a recorded key. */
  ghost function Bumped(m: State, key: Key): State
    requires key in m.counts
  {
    State(Without(m.order, key) + [key], m.counts[key := m.counts[key] + 1])
  }

  /** The first increment of an unrecorded key. */
  ghost function Recorded(m: State, key: Key): State {
    State(m.order + [key], m.counts[key := 1])
  }

  ghost function Incr(m: State, capacity: nat, key: Key): State
    requires Wf(m) && capacity >= 1
  {
    if key in m.counts then Bumped(m, key)
    else Recorded(MakeRoom(m, capacity), key)
  }

  /** The keys recorded at one count, earliest first. */
  function AtCount(order: seq<Key>, counts: map<Key, nat>, c: nat): (r: seq<Key>)
    ensures forall k :: k in r ==> k in order && k in counts && counts[k] == c
  {
    if order == [] then []
    else
      var last := order[|order| - 1];
      var rest := AtCount(order[..|order| - 1], counts, c);
      if last in counts && counts[last] == c then rest + [last] else rest
  }

  // ---------- sequences without one element ----------

  lemma {:induction false} WithoutFacts<T>(s: seq<T>, x: T)
    requires Distinct(s)
    ensures Distinct(Without(s, x))
    ensures forall y :: y in Without(s, x) <==> y in s && y != x
    ensures x !in s ==> Without(s, x) == s
  {
    if s != [] {
      var init, last := s[..|s| - 1], s[|s| - 1];
      WithoutFacts(init, x);
      assert s == init + [last];
      assert last !in init;
    }
  }

  lemma {:induction false} WithoutSplit<T>(p: seq<T>, x: T, s: seq<T>)
    requires x !in p && x !in s
    ensures Without(p + [x] + s, x) == p + s
  {
    var t := p + [x] + s;
    if s == [] {
      assert t[..|t| - 1] == p;
      WithoutAbsent(p, x);
    } else {
      var s' := s[..|s| - 1];
      assert t[..|t| - 1] == p + [x] + s';
      WithoutSplit(p, x, s');
      assert p + s == p + s' + [s[|s| - 1]];
    }
  }

  lemma {:induction false} WithoutAbsent<T>(s: seq<T>, x: T)
    requires x !in s
    ensures Without(s, x) == s
  {
    if s != [] {
      WithoutAbsent(s[..|s| - 1], x);
    }
  }

  // ---------- keys at a count ----------

  lemma {:induction false} AtCountConcat(a: seq<Key>, b: seq<Key>, counts: map<Key, nat>, c: nat)
    ensures AtCount(a + b, counts, c) == AtCount(a, counts, c) + AtCount(b, counts, c)
  {
    if b == [] {
      assert a + b == a;
    } else {
      assert (a + b)[..|a + b| - 1] == a + b[..|b| - 1];
      AtCountConcat(a, b[..|b| - 1], counts, c);
    }
  }

  lemma {:induction false} AtCountAgree(s: seq<Key>, m: map<Key, nat>, m': map<Key, nat>, c: nat)
    requires forall k :: k in s ==> (k in m <==> k in m') && (k in m ==> m[k] == m'[k])
    ensures AtCount(s, m, c) == AtCount(s, m', c)
  {
    if s != [] {
      AtCountAgree(s[..|s| - 1], m, m', c);
    }
  }

  lemma {:induction false} AtCountHas(s: seq<Key>, counts: map<Key, nat>, k: Key)
    requires k in s && k in counts
    ensures k in AtCount(s, counts, counts[k])
  {
    if s[|s| - 1] != k {
      AtCountHas(s[..|s| - 1], counts, k);
    }
  }

  lemma {:induction false} AtCountDistinct(s: seq<Key>, counts: map<Key, nat>, c: nat)
    requires Distinct(s)
    ensures Distinct(AtCount(s, counts, c))
  {
    if s != [] {
      AtCountDistinct(s[..|s| - 1], counts, c);
    }
  }

  lemma SplitAt<T>(s: seq<T>, x: T) returns (p: seq<T>, q: seq<T>)
    requires Distinct(s) && x in s
    ensures s == p + [x] + q && x !in p && x !in q
  {
    var i :| 0 <= i < |s| && s[i] == x;
    p, q := s[..i], s[i + 1..];
  }

  /** Removing one key, or giving it a count that is not c, removes it from those at c. */
  lemma AtCountRemove(m: State, k: Key, counts': map<Key, nat>, c: nat)
    requires Wf(m) && k in m.counts
    requires forall x :: x in m.order && x != k ==> x in counts' && counts'[x] == m.counts[x]
    ensures AtCount(Without(m.order, k), counts', c) == Without(AtCount(m.order, m.counts, c), k)
  {
    var p, q := SplitAt(m.order, k);
    WithoutSplit(p, k, q);
    AtCountConcat(p, q, counts', c);
    AtCountConcat(p + [k], q, m.counts, c);
    AtCountConcat(p, [k], m.counts, c);
    AtCountAgree(p, m.counts, counts', c);
    AtCountAgree(q, m.counts, counts', c);
    var ap, aq := AtCount(p, m.counts, c), AtCount(q, m.counts, c);
    assert AtCount([k], m.counts, c) == if m.counts[k] == c then [k] else [] by {
      assert [k][..0] == [];
    }
    if m.counts[k] == c {
      WithoutSplit(ap, k, aq);
    } else {
      assert ap + [] + aq == ap + aq;
      WithoutAbsent(ap + aq, k);
    }
  }

  lemma AtCountAppend(order: seq<Key>, counts: map<Key, nat>, k: Key, c: nat)
    requires k in counts
    ensures AtCount(order + [k], counts, c)
         == if counts[k] == c then AtCount(order, counts, c) + [k] else AtCount(order, counts, c)
  {
    assert (order + [k])[..|order|] == order;
  }

  lemma FirstIn<T>(s: seq<T>)
    requires s != []
    ensures s[0] in s
  {
  }

  /** The victim holds the least count and stands first among the keys at that count. */
  lemma {:induction false} VictimFirst(order: seq<Key>, counts: map<Key, nat>)
    requires order != []
    requires forall k :: k in order ==> k in counts
    ensures var v := Victim(order, counts);
      && (forall k :: k in order ==> counts[v] <= counts[k])
      && |AtCount(order, counts, counts[v])| >= 1
      && AtCount(order, counts, counts[v])[0] == v
  {
    var last := order[|order| - 1];
    var init := order[..|order| - 1];
    if |order| > 1 {
      VictimFirst(init, counts);
      var v := Victim(init, counts);
      if counts[last] < counts[v] {
        if AtCount(init, counts, counts[last]) != [] {
          FirstIn(AtCount(init, counts, counts[last]));
          assert false;
        }
      }
    } else {
      assert init == [];
    }
  }

  // ---------- what each operation keeps ----------

  lemma EvictWf(m: State)
    requires Wf(m) && m.order != []
    ensures Wf(Evict(m)) && |Evict(m).counts| == |m.counts| - 1
  {
    var v := Victim(m.order, m.counts);
    WithoutFacts(m.order, v);
    assert (m.counts - {v}).Keys == m.counts.Keys - {v};
  }

  /** Incr never exceeds the capacity and leaves each recorded key once in the order. */
  lemma IncrWf(m: State, capacity: nat, key: Key)
    requires Wf(m) && capacity >= 1 && |m.counts| <= capacity
    ensures Wf(Incr(m, capacity, key))
    ensures |Incr(m, capacity, key).counts| <= capacity
    ensures key in Incr(m, capacity, key).counts
  {
    if key in m.counts {
      BumpedWf(m, key);
    } else {
      hide Wf, MakeRoom;
      MakeRoomWf(m, capacity);
      RecordedWf(MakeRoom(m, capacity), key);
    }
  }

  lemma BumpedWf(m: State, key: Key)
    requires Wf(m) && key in m.counts
    ensures Wf(Bumped(m, key)) && |Bumped(m, key).counts| == |m.counts|
  {
    WithoutFacts(m.order, key);
    assert Bumped(m, key).counts.Keys == m.counts.Keys;
  }

  lemma RecordedWf(m: State, key: Key)
    requires Wf(m) && key !in m.counts
    ensures Wf(Recorded(m, key)) && |Recorded(m, key).counts| == |m.counts| + 1
  {
    assert Recorded(m, key).counts.Keys == m.counts.Keys + {key};
  }

  lemma MakeRoomWf(m: State, capacity: nat)
    requires Wf(m) && capacity >= 1 && |m.counts| <= capacity
    ensures Wf(MakeRoom(m, capacity)) && |MakeRoom(m, capacity).counts| < capacity
    ensures MakeRoom(m, capacity).counts.Keys <= m.counts.Keys
  {
    if m.order != [] {
      EvictWf(m);
    } else {
      assert m.counts.Keys == {};
    }
  }
}
