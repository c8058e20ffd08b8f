/**
 Hot keys: logarithmic counters that decay, the sorted list that keeps the hottest, and the
 collector that merges the period's hits into it. The random source and the clock are inputs.
 */
module HotKeys {

  import opened LfuSpec

  type uint8 = x: int | 0 <= x < 256

  /** What the clock says, in minutes, when the counter of a key is updated. */
  type Clock = Key -> int

  // ---------- logarithmic counters ----------

  const MAX_VALUE: uint8 := 255

  /** One hit: the higher the value, the less likely it grows. */
  function RaiseOnce(val: uint8, draw: real): uint8 {
    if val < MAX_VALUE && draw < 1.0 / (val as real * 10.0 + 1.0) then val + 1 else val
  }

  function Raise(val: uint8, draws: seq<real>): uint8 {
    if draws == [] then val else RaiseOnce(Raise(val, draws[..|draws| - 1]), draws[|draws| - 1])
  }

  /** Random numbers as the source of randomness gives them: at least 0 and below 1. */
  predicate Random(draws: seq<real>) {
    forall i :: 0 <= i < |draws| ==> 0.0 <= draws[i] < 1.0
  }

  /** A raised counter never falls, gains at most one a hit, and leaves zero at the first hit. */
  lemma {:induction false} RaiseBounds(val: uint8, draws: seq<real>)
    requires Random(draws)
    ensures val <= Raise(val, draws) <= val + |draws|
    ensures draws != [] ==> Raise(val, draws) >= 1
  {
    if draws != [] {
      RaiseBounds(val, draws[..|draws| - 1]);
      var before := Raise(val, draws[..|draws| - 1]);
      assert before == 0 ==> 1.0 / (before as real * 10.0 + 1.0) == 1.0;
    }
  }

  /** A hit raises a counter below 255 exactly when the draw times 10 times the value plus one is below one. */
  lemma RaiseExactly(val: uint8, draw: real)
    ensures RaiseOnce(val, draw) == if val < 255 && draw * (10.0 * val as real + 1.0) < 1.0 then val + 1 else val
  {
    var p := val as real * 10.0 + 1.0;
    var q := 1.0 / p;
    assert q * p == 1.0;
    BelowInverse(draw, q, p);
  }

  lemma BelowInverse(draw: real, q: real, p: real)
    requires p > 0.0 && q * p == 1.0
    ensures draw < q <==> draw * p < 1.0
  {
    var d := draw - q;
    SignOf(d, p);
    assert draw * p == d * p + q * p;
    var t, u := draw * p, d * p;
    assert t == u + 1.0 && (u < 0.0 <==> d < 0.0);
  }

  lemma SignOf(x: real, p: real)
    requires p > 0.0
    ensures x * p < 0.0 <==> x < 0.0
  {
  }

  lemma {:induction false} RaiseSaturated(draws: seq<real>)
    ensures Raise(MAX_VALUE, draws) == MAX_VALUE
  {
    if draws != [] {
      RaiseSaturated(draws[..|draws| - 1]);
    }
  }

  lemma {:induction false} RaiseConcat(val: uint8, a: seq<real>, b: seq<real>)
    ensures Raise(val, a + b) == Raise(Raise(val, a), b)
  {
    if b == [] {
      assert a + b == a;
    } else {
      assert (a + b)[..|a + b| - 1] == a + b[..|b| - 1];
      RaiseConcat(val, a, b[..|b| - 1]);
    }
  }

  class LogCounter {
    var lut: int
    var val: uint8

    constructor ()
      ensures lut == 0 && val == 0
    {
      lut := 0;
      val := 0;
    }

    method RepeatIncr(times: nat, draws: seq<real>, now: int)
      requires times <= |draws|
      modifies this
      ensures val == Raise(old(val), draws[..times]) && lut == now
    {
      var i := 0;
      while i < times && val != MAX_VALUE
        invariant 0 <= i <= times && val == Raise(old(val), draws[..i])
      {
        var p := 1.0 / (val as real * 10.0 + 1.0);
        assert draws[..i + 1][..i] == draws[..i];
        if draws[i] < p {
          val := val + 1;
        }
        i := i + 1;
      }
      if i < times {
        assert draws[..times] == draws[..i] + draws[i..times];
        RaiseConcat(old(val), draws[..i], draws[i..times]);
        RaiseSaturated(draws[i..times]);
      }
      lut := now;
    }

    method Halve(now: int)
      modifies this
      ensures val == old(val) / 2 && lut == if old(val) == 0 then old(lut) else now
    {
      if val == 0 {
        return;
      }
      val := val / 2;
      lut := now;
    }
  }

  // ---------- the sorted list ----------

  /** What a listed key shows: its name, its counter's value and when that last changed. */
  datatype Entry = Entry(name: Key, val: uint8, lut: int)

  predicate Descending(es: seq<Entry>) {
    forall i, j :: 0 <= i < j < |es| ==> es[i].val >= es[j].val
  }

  /** The first place whose value is not above val. */
  function Position(es: seq<Entry>, val: uint8): (p: nat)
    ensures p <= |es|
    ensures forall i :: 0 <= i < p ==> es[i].val > val
    ensures p < |es| ==> es[p].val <= val
  {
    if es == [] || es[0].val <= val then 0 else 1 + Position(es[1..], val)
  }

  lemma PositionUnique(es: seq<Entry>, val: uint8, i: nat)
    requires i <= |es| && forall k :: 0 <= k < i ==> es[k].val > val
    requires i < |es| ==> es[i].val <= val
    ensures i == Position(es, val)
  {
    var p := Position(es, val);
  }

  function Placed(es: seq<Entry>, e: Entry): seq<Entry> {
    var p := Position(es, e.val);
    es[..p] + [e] + es[p..]
  }

  function InsertEntry(es: seq<Entry>, capacity: uint8, e: Entry): seq<Entry> {
    var all := Placed(es, e);
    if |all| <= capacity then all else all[..capacity]
  }

  /** The list after a series of insertions. */
  function Inserts(order: seq<Entry>, capacity: uint8): seq<Entry> {
    if order == [] then []
    else InsertEntry(Inserts(order[..|order| - 1], capacity), capacity, order[|order| - 1])
  }

  /** A top selection: the list and the rest make up all, and nothing left out beats anything kept. */
  ghost predicate Top(kept: seq<Entry>, all: seq<Entry>, capacity: nat, rest: multiset<Entry>) {
    && multiset(all) == multiset(kept) + rest
    && |kept| == (if |all| < capacity then |all| else capacity)
    && forall d, i :: d in rest && 0 <= i < |kept| ==> d.val <= kept[i].val
  }

  lemma PlacedAt(es: seq<Entry>, e: Entry, i: nat)
    requires i <= |es|
    ensures |Placed(es, e)| == |es| + 1
    ensures var p := Position(es, e.val);
            Placed(es, e)[i] == if i < p then es[i] else if i == p then e else es[i - 1]
  {
  }

  lemma PlacedMultiset(es: seq<Entry>, e: Entry)
    ensures multiset(Placed(es, e)) == multiset(es) + multiset{e}
  {
    var p := Position(es, e.val);
    assert es == es[..p] + es[p..];
  }

  lemma PlacedDescending(es: seq<Entry>, e: Entry)
    requires Descending(es)
    ensures Descending(Placed(es, e)) && |Placed(es, e)| == |es| + 1
    ensures multiset(Placed(es, e)) == multiset(es) + multiset{e}
  {
    hide Placed;
    PlacedMultiset(es, e);
    PlacedAt(es, e, 0);
    var p := Position(es, e.val);
    assert forall i :: p <= i < |es| ==> es[i].val <= e.val;
    forall i, j | 0 <= i < j < |Placed(es, e)| ensures Placed(es, e)[i].val >= Placed(es, e)[j].val {
      PlacedAt(es, e, i);
      PlacedAt(es, e, j);
    }
  }

  lemma CutMultiset(all: seq<Entry>, n: nat)
    requires n < |all|
    ensures multiset(all) == multiset(all[..n]) + multiset(all[n..])
  {
    assert all == all[..n] + all[n..];
  }

  lemma RestBelow(es: seq<Entry>, rest: multiset<Entry>, e: Entry, d: Entry, i: nat)
    requires forall x, j :: x in rest && 0 <= j < |es| ==> x.val <= es[j].val
    requires d in rest && i < |es|
    ensures |Placed(es, e)| == |es| + 1 && d.val <= Placed(es, e)[i].val
  {
    hide Placed;
    PlacedAt(es, e, i);
    var p := Position(es, e.val);
    assert i == p ==> d.val <= es[p].val <= e.val;
  }

  /** A full list: the last of the placed entries joins the rest. */
  lemma CutTop(es: seq<Entry>, rest: multiset<Entry>, e: Entry)
    requires Descending(es)
    requires forall x, j :: x in rest && 0 <= j < |es| ==> x.val <= es[j].val
    ensures var placed := Placed(es, e); var n := |es|;
            && |placed| == n + 1 && Descending(placed[..n])
            && multiset(es) + multiset{e} == multiset(placed[..n]) + multiset{placed[n]}
            && forall d, i :: d in rest + multiset{placed[n]} && 0 <= i < n ==> d.val <= placed[..n][i].val
  {
    hide Placed;
    PlacedDescending(es, e);
    var placed, n := Placed(es, e), |es|;
    CutMultiset(placed, n);
    assert placed[n..] == [placed[n]];
    forall d, i | d in rest + multiset{placed[n]} && 0 <= i < n ensures d.val <= placed[..n][i].val {
      if d in rest {
        RestBelow(es, rest, e, d, i);
      }
    }
  }

  lemma Exchanged<T>(all: multiset<T>, es: multiset<T>, rest: multiset<T>,
                     e: multiset<T>, kept: multiset<T>, dropped: multiset<T>)
    requires all == es + rest && es + e == kept + dropped
    ensures all + e == kept + (rest + dropped)
  {
    assert all + e == (es + e) + rest;
  }

  lemma InsertTop(es: seq<Entry>, all: seq<Entry>, capacity: uint8, rest: multiset<Entry>, e: Entry)
    returns (more: multiset<Entry>)
    requires Descending(es) && Top(es, all, capacity, rest)
    ensures Descending(InsertEntry(es, capacity, e)) && Top(InsertEntry(es, capacity, e), all + [e], capacity, more)
  {
    hide Placed, Descending;
    PlacedDescending(es, e);
    assert multiset(all + [e]) == multiset(all) + multiset{e};
    if |es| + 1 <= capacity {
      assert |multiset(all)| == |multiset(es)| + |rest|;
      assert rest == multiset{};
      more := rest;
    } else {
      CutTop(es, rest, e);
      more := rest + multiset{Placed(es, e)[|es|]};
      var kept := Placed(es, e)[..|es|];
      Exchanged(multiset(all), multiset(es), rest, multiset{e}, multiset(kept), multiset{Placed(es, e)[|es|]});
    }
  }

  /** Any series of insertions leaves the list sorted and holding a top selection of what was inserted. */
  lemma {:induction false} InsertsTop(order: seq<Entry>, capacity: uint8) returns (rest: multiset<Entry>)
    ensures Descending(Inserts(order, capacity)) && Top(Inserts(order, capacity), order, capacity, rest)
  {
    hide InsertEntry, Descending;
    if order == [] {
      rest := multiset{};
      NothingDescends();
    } else {
      var k := |order| - 1;
      rest := InsertsTop(order[..k], capacity);
      assert order == order[..k] + [order[k]];
      rest := InsertTop(Inserts(order[..k], capacity), order[..k], capacity, rest, order[k]);
    }
  }

  lemma NothingDescends()
    ensures Descending([])
  {
  }

  // ---------- one collection ----------

  function HitsOf(hits: map<Key, nat>, name: Key): nat {
    if name in hits then hits[name] else 0
  }

  function SumOf(reports: seq<map<Key, nat>>, name: Key): nat {
    if reports == [] then 0
    else SumOf(reports[..|reports| - 1], name) + HitsOf(reports[|reports| - 1], name)
  }

  /** Reports add up: one report counts what it says of the key, or nothing, and lists of reports are added. */
  lemma {:induction false} SumOfIs(a: seq<map<Key, nat>>, b: seq<map<Key, nat>>, report: map<Key, nat>, name: Key)
    ensures SumOf([report], name) == if name in report then report[name] else 0
    ensures SumOf(a + b, name) == SumOf(a, name) + SumOf(b, name)
  {
    assert [report][..0] == [];
    if b == [] {
      assert a + b == a;
    } else {
      assert (a + b)[..|a + b| - 1] == a + b[..|b| - 1];
      SumOfIs(a, b[..|b| - 1], report, name);
    }
  }

  function ValueOf(es: seq<Entry>, name: Key): uint8 {
    if es == [] then 0 else if es[0].name == name then es[0].val else ValueOf(es[1..], name)
  }

  /** A key as it stands for selection: its cached counter, or a new one, raised by the period's hits. */
  function Candidate(es: seq<Entry>, hits: map<Key, nat>, draws: Key -> seq<real>, clock: Clock, name: Key): Entry
    requires HitsOf(hits, name) <= |draws(name)|
  {
    Entry(name, Raise(ValueOf(es, name), draws(name)[..HitsOf(hits, name)]), clock(name))
  }

  /** What the inputs of a collection are: real hits, and random numbers for each. */
  ghost predicate Supplied(hits: map<Key, nat>, draws: Key -> seq<real>) {
    && (forall name :: name in hits ==> hits[name] >= 1)
    && (forall name :: HitsOf(hits, name) <= |draws(name)| && Random(draws(name)))
  }

  ghost predicate DistinctNames(es: seq<Entry>) {
    forall i, j :: 0 <= i < j < |es| ==> es[i].name != es[j].name
  }

  ghost function Names(es: seq<Entry>): set<Key> {
    set e | e in es :: e.name
  }

  /** Every candidate among names once, in the order a map happens to be walked. */
  ghost predicate Enumerates(order: seq<Entry>, names: set<Key>,
                             es: seq<Entry>, hits: map<Key, nat>, draws: Key -> seq<real>, clock: Clock)
    requires Supplied(hits, draws)
  {
    && DistinctNames(order) && Names(order) == names
    && forall i :: 0 <= i < |order| ==> order[i] == Candidate(es, hits, draws, clock, order[i].name)
  }

  /** The cached list between steps: within capacity, names distinct, nothing at zero. */
  ghost predicate Listed(es: seq<Entry>, capacity: uint8) {
    && |es| <= capacity && DistinctNames(es)
    && (forall i :: 0 <= i < |es| ==> es[i].val >= 1)
  }

  /** In order, with one update time for all keys. */
  ghost predicate Even(es: seq<Entry>) {
    Descending(es) && forall i, j :: 0 <= i < |es| && 0 <= j < |es| ==> es[i].lut == es[j].lut
  }

  /** The clock stands still while the step reads it. */
  ghost predicate Still(clock: Clock) {
    forall k, l :: clock(k) == clock(l)
  }

  lemma {:induction false} ValueOfListed(es: seq<Entry>, i: nat)
    requires DistinctNames(es) && i < |es|
    ensures ValueOf(es, es[i].name) == es[i].val
  {
    if i != 0 {
      ValueOfListed(es[1..], i - 1);
    }
  }

  lemma {:induction false} ValueOfOther(es: seq<Entry>, name: Key)
    requires name !in Names(es)
    ensures ValueOf(es, name) == 0
  {
    if es != [] {
      assert es[0].name in Names(es);
      assert forall e :: e in es[1..] ==> e in es;
      ValueOfOther(es[1..], name);
    }
  }

  lemma EnumeratesNext(order: seq<Entry>, names: set<Key>, name: Key,
                       es: seq<Entry>, hits: map<Key, nat>, draws: Key -> seq<real>, clock: Clock)
    requires Supplied(hits, draws) && Enumerates(order, names, es, hits, draws, clock) && name !in names
    ensures Enumerates(order + [Candidate(es, hits, draws, clock, name)], names + {name}, es, hits, draws, clock)
  {
    hide Candidate;
    var e := Entry(name, Candidate(es, hits, draws, clock, name).val, Candidate(es, hits, draws, clock, name).lut);
    CandidateName(es, hits, draws, clock, name);
    var more := order + [e];
    assert forall i :: 0 <= i < |order| ==> order[i].name in Names(order);
    assert Names(more) == Names(order) + {name} by {
      assert forall x :: x in more <==> x in order || x == e;
    }
  }

  lemma CandidateName(es: seq<Entry>, hits: map<Key, nat>, draws: Key -> seq<real>, clock: Clock, name: Key)
    requires HitsOf(hits, name) <= |draws(name)|
    ensures Candidate(es, hits, draws, clock, name).name == name
    ensures Candidate(es, hits, draws, clock, name).lut == clock(name)
  {
  }

  lemma CandidateNonzero(es: seq<Entry>, hits: map<Key, nat>, draws: Key -> seq<real>, clock: Clock, name: Key)
    requires Supplied(hits, draws) && name in Names(es) + hits.Keys && DistinctNames(es)
    requires forall i :: 0 <= i < |es| ==> es[i].val >= 1
    ensures Candidate(es, hits, draws, clock, name).val >= 1
  {
    assert Random(draws(name)) && HitsOf(hits, name) <= |draws(name)|;
    var mine := draws(name)[..HitsOf(hits, name)];
    assert Random(mine);
    RaiseBounds(ValueOf(es, name), mine);
    if name in Names(es) {
      var i :| 0 <= i < |es| && es[i].name == name;
      ValueOfListed(es, i);
    }
  }

  lemma {:induction false} InsertsKeep(order: seq<Entry>, capacity: uint8)
    requires DistinctNames(order)
    ensures DistinctNames(Inserts(order, capacity))
    ensures forall e :: e in Inserts(order, capacity) ==> e in order
  {
    hide InsertEntry;
    if order != [] {
      var k := |order| - 1;
      InsertsKeep(order[..k], capacity);
      var es := Inserts(order[..k], capacity);
      forall i | 0 <= i < |es| ensures es[i].name != order[k].name {
        assert es[i] in order[..k];
      }
      InsertKeeps(es, capacity, order[k]);
    }
  }

  lemma InsertKeeps(es: seq<Entry>, capacity: uint8, e: Entry)
    requires DistinctNames(es) && forall i :: 0 <= i < |es| ==> es[i].name != e.name
    ensures DistinctNames(InsertEntry(es, capacity, e))
    ensures forall x :: x in InsertEntry(es, capacity, e) ==> x in es || x == e
  {
    hide Placed;
    PlacedAt(es, e, 0);
    var placed := Placed(es, e);
    forall i, j | 0 <= i < j < |placed| ensures placed[i].name != placed[j].name {
      PlacedAt(es, e, i);
      PlacedAt(es, e, j);
    }
    forall i | 0 <= i < |placed| ensures placed[i] in es || placed[i] == e {
      PlacedAt(es, e, i);
    }
  }

  /**
   A collection leaves distinct names within capacity, no zero, in descending order, each key with the time its
   counter was raised; a clock that stands still gives all of them one time.
   */
  lemma CollectionCached(order: seq<Entry>, es: seq<Entry>, capacity: uint8,
                         hits: map<Key, nat>, draws: Key -> seq<real>, clock: Clock)
    requires Listed(es, capacity) && Supplied(hits, draws)
    requires Enumerates(order, Names(es) + hits.Keys, es, hits, draws, clock)
    ensures var kept := Inserts(order, capacity);
      && Listed(kept, capacity) && Descending(kept)
      && (forall i :: 0 <= i < |kept| ==> kept[i].lut == clock(kept[i].name))
      && (Still(clock) ==> Even(kept))
  {
    hide Candidate, Inserts;
    InsertsKeep(order, capacity);
    var rest := InsertsTop(order, capacity);
    var kept := Inserts(order, capacity);
    forall i | 0 <= i < |kept| ensures kept[i].val >= 1 && kept[i].lut == clock(kept[i].name) {
      assert kept[i] in order;
      var j :| 0 <= j < |order| && order[j] == kept[i];
      assert order[j].name in Names(order);
      CandidateNonzero(es, hits, draws, clock, order[j].name);
      CandidateName(es, hits, draws, clock, order[j].name);
    }
  }

  // ---------- decay ----------

  /** A key not updated in the current minute is halved, and stamped with the time of that. */
  function Halved(e: Entry, now: int, clock: Clock): Entry {
    if now > e.lut && e.val != 0 then Entry(e.name, e.val / 2, clock(e.name)) else e
  }

  function AllHalved(es: seq<Entry>, now: int, clock: Clock): (r: seq<Entry>)
    ensures |r| == |es|
    ensures forall i :: 0 <= i < |es| ==> r[i] == Halved(es[i], now, clock)
  {
    seq(|es|, i requires 0 <= i < |es| => Halved(es[i], now, clock))
  }

  function NonZero(es: seq<Entry>): seq<Entry> {
    if es == [] then []
    else NonZero(es[..|es| - 1]) + if es[|es| - 1].val != 0 then [es[|es| - 1]] else []
  }

  lemma {:induction false} NonZeroIn(es: seq<Entry>, e: Entry)
    ensures e in NonZero(es) <==> e in es && e.val != 0
    ensures |NonZero(es)| <= |es|
  {
    if es != [] {
      NonZeroIn(es[..|es| - 1], e);
      assert es == es[..|es| - 1] + [es[|es| - 1]];
    }
  }

  lemma DescendingNext(es: seq<Entry>, e: Entry)
    ensures Descending(es + [e]) <==> Descending(es) && forall x :: x in es ==> x.val >= e.val
  {
    var more := es + [e];
    assert more[|es|] == e && forall i :: 0 <= i < |es| ==> more[i] == es[i];
    if Descending(more) {
      forall x | x in es ensures x.val >= e.val {
        var i :| 0 <= i < |es| && es[i] == x;
        assert more[i].val >= more[|es|].val;
      }
      forall i, j | 0 <= i < j < |es| ensures es[i].val >= es[j].val {
        assert more[i].val >= more[j].val;
      }
    }
  }

  /** What is left is in order exactly when the non-zero entries are. */
  lemma {:induction false} NonZeroOrder(es: seq<Entry>)
    ensures Descending(NonZero(es)) <==>
      forall i, j :: 0 <= i < j < |es| && es[i].val != 0 && es[j].val != 0 ==> es[i].val >= es[j].val
  {
    if es != [] {
      hide Descending, NonZero;
      var k := |es| - 1;
      NonZeroOrder(es[..k]);
      NonZeroLast(es);
      if es[k].val != 0 {
        DescendingNext(NonZero(es[..k]), es[k]);
        forall x ensures x in NonZero(es[..k]) <==> exists i :: 0 <= i < k && es[i] == x && x.val != 0 {
          NonZeroIn(es[..k], x);
        }
      }
    } else {
      NothingDescends();
    }
  }

  lemma NonZeroLast(es: seq<Entry>)
    requires es != []
    ensures var k := |es| - 1;
      NonZero(es) == if es[k].val != 0 then NonZero(es[..k]) + [es[k]] else NonZero(es[..k])
  {
  }

  lemma {:induction false} NonZeroDistinct(es: seq<Entry>)
    requires DistinctNames(es)
    ensures DistinctNames(NonZero(es))
  {
    if es != [] {
      hide NonZero;
      var k := |es| - 1;
      NonZeroDistinct(es[..k]);
      NonZeroLast(es);
      forall i | 0 <= i < |NonZero(es[..k])| ensures NonZero(es[..k])[i].name != es[k].name {
        NonZeroIn(es[..k], NonZero(es[..k])[i]);
      }
    }
  }

  /** A key that is halved stays above every later key that is not, unless it is dropped. */
  ghost predicate Spaced(es: seq<Entry>, now: int) {
    forall i, j :: 0 <= i < j < |es| && es[i].lut < now <= es[j].lut && es[i].val >= 2 ==> es[i].val / 2 >= es[j].val
  }

  /** Decay leaves a list in order exactly when its keys are spaced. */
  lemma DecayOrderIff(es: seq<Entry>, now: int, clock: Clock)
    requires Descending(es) && forall i :: 0 <= i < |es| ==> es[i].val >= 1
    ensures Descending(NonZero(AllHalved(es, now, clock))) <==> Spaced(es, now)
  {
    hide NonZero, Spaced;
    var halved := AllHalved(es, now, clock);
    NonZeroOrder(halved);
    if Spaced(es, now) {
      forall i, j | 0 <= i < j < |es| && halved[i].val != 0 && halved[j].val != 0
        ensures halved[i].val >= halved[j].val
      {
        SpacedAt(es, now, clock, i, j);
      }
    } else {
      var i, j := NotSpaced(es, now);
      assert halved[i].val == es[i].val / 2 && halved[j].val == es[j].val;
    }
  }

  lemma SpacedAt(es: seq<Entry>, now: int, clock: Clock, i: nat, j: nat)
    requires Descending(es) && Spaced(es, now) && i < j < |es|
    ensures Halved(es[i], now, clock).val == 0 || Halved(es[i], now, clock).val >= Halved(es[j], now, clock).val
  {
  }

  lemma NotSpaced(es: seq<Entry>, now: int) returns (i: nat, j: nat)
    requires !Spaced(es, now)
    ensures i < j < |es| && es[i].lut < now <= es[j].lut && es[i].val >= 2 && es[i].val / 2 < es[j].val
  {
    i, j :| 0 <= i < j < |es| && es[i].lut < now <= es[j].lut && es[i].val >= 2 && es[i].val / 2 < es[j].val;
  }

  /** Decay keeps names distinct and nothing at zero, and the order and the time of keys that share one time. */
  lemma DecayCached(es: seq<Entry>, capacity: uint8, now: int, clock: Clock)
    requires Listed(es, capacity)
    ensures var left := NonZero(AllHalved(es, now, clock));
      Listed(left, capacity) && (Even(es) && Still(clock) ==> Even(left))
  {
    hide NonZero, Descending;
    var halved := AllHalved(es, now, clock);
    var left := NonZero(halved);
    NonZeroDistinct(halved);
    forall i | 0 <= i < |left| ensures left[i] in halved && left[i].val >= 1 {
      NonZeroIn(halved, left[i]);
    }
    NonZeroIn(halved, Entry("", 0, 0));
    if Even(es) && Still(clock) {
      assert Spaced(es, now);
      DecayOrderIff(es, now, clock);
      EvenTimes(es, now, clock);
    }
  }

  lemma EvenTimes(es: seq<Entry>, now: int, clock: Clock)
    requires Still(clock) && forall i :: 0 <= i < |es| ==> es[i].val >= 1
    requires forall i, j :: 0 <= i < |es| && 0 <= j < |es| ==> es[i].lut == es[j].lut
    ensures var halved := AllHalved(es, now, clock);
      forall x, y :: x in halved && y in halved ==> x.lut == y.lut
  {
    var halved := AllHalved(es, now, clock);
    forall x, y | x in halved && y in halved ensures x.lut == y.lut {
      var i :| 0 <= i < |es| && halved[i] == x;
      var j :| 0 <= j < |es| && halved[j] == y;
      assert es[i].lut == es[j].lut && clock(es[i].name) == clock(es[j].name);
    }
  }

  // ---------- a clock that moves on within a collection ----------

  lemma {:induction false} RaiseZeros(draws: seq<real>)
    requires |draws| <= MAX_VALUE && forall i :: 0 <= i < |draws| ==> draws[i] == 0.0
    ensures Raise(0, draws) == |draws|
  {
    if draws != [] {
      RaiseZeros(draws[..|draws| - 1]);
      var val := Raise(0, draws[..|draws| - 1]);
      assert 1.0 / (val as real * 10.0 + 1.0) > 0.0;
    }
  }

  /**
   A collection from an empty cache, with the minute passing between its two keys, after which the next decay
   leaves the keys out of order.
   */
  lemma UnevenTimesDisorder(capacity: uint8)
    returns (order: seq<Entry>, hits: map<Key, nat>, draws: Key -> seq<real>, clock: Clock)
    requires capacity >= 2
    ensures order != [] && Supplied(hits, draws) && Enumerates(order, Names([]) + hits.Keys, [], hits, draws, clock)
    ensures forall i, j :: 0 <= i < j < |order| ==> order[i].lut <= order[j].lut
    ensures var es := Inserts(order, capacity);
      var now := order[|order| - 1].lut;
      Descending(es) && !Descending(NonZero(AllHalved(es, now, _ => now)))
  {
    hide NonZero, Inserts, Supplied, Enumerates, AllHalved, Spaced;
    hits := map["a" := 3, "b" := 2];
    draws := _ => [0.0, 0.0, 0.0];
    clock := k => if k == "a" then 5 else 6;
    var a, b := Entry("a", 3, 5), Entry("b", 2, 6);
    order := [a, b];
    TwoCandidates(hits, draws, clock);
    InsertedTwo(a, b, capacity);
    var now := order[1].lut;
    TooClose(a, b, now);
    DecayOrderIff([a, b], now, _ => now);
  }

  lemma TwoCandidates(hits: map<Key, nat>, draws: Key -> seq<real>, clock: Clock)
    requires hits == map["a" := 3, "b" := 2] && clock("a") == 5 && clock("b") == 6
    requires forall k :: draws(k) == [0.0, 0.0, 0.0]
    ensures Supplied(hits, draws)
    ensures Enumerates([Entry("a", 3, 5), Entry("b", 2, 6)], Names([]) + hits.Keys, [], hits, draws, clock)
  {
    hide Raise;
    var a, b := Entry("a", 3, 5), Entry("b", 2, 6);
    var order := [a, b];
    RaiseZeros(draws("a")[..3]);
    RaiseZeros(draws("b")[..2]);
    assert Candidate([], hits, draws, clock, "a") == a && Candidate([], hits, draws, clock, "b") == b;
    assert Names(order) == {"a", "b"} by {
      assert a in order && b in order;
    }
  }

  lemma InsertedTwo(a: Entry, b: Entry, capacity: uint8)
    requires capacity >= 2 && a.val > b.val
    ensures Inserts([a, b], capacity) == [a, b]
  {
    assert [a, b][..1] == [a] && [a][..0] == [];
    assert Position([a], b.val) == 1;
    assert Inserts([a], capacity) == [a];
  }

  lemma TooClose(a: Entry, b: Entry, now: int)
    requires a.lut < now <= b.lut && a.val >= 2 && a.val / 2 < b.val
    ensures !Spaced([a, b], now)
  {
    assert [a, b][0] == a && [a, b][1] == b;
  }

  /** What a key shows after a decay: as before if updated this minute, else half its value unless that is zero. */
  predicate Survives(e: Entry, now: int, clock: Clock, after: Entry) {
    if now > e.lut then e.val >= 2 && after == Entry(e.name, e.val / 2, clock(e.name))
    else e.val >= 1 && after == e
  }

  /** After a decay exactly the survivors are listed. */
  lemma DecayExactly(es: seq<Entry>, now: int, clock: Clock, after: Entry)
    ensures after in NonZero(AllHalved(es, now, clock)) <==>
      exists i :: 0 <= i < |es| && Survives(es[i], now, clock, after)
  {
    var halved := AllHalved(es, now, clock);
    NonZeroIn(halved, after);
    if after in halved && after.val != 0 {
      var i :| 0 <= i < |halved| && halved[i] == after;
      assert Survives(es[i], now, clock, after);
    }
    if i :| 0 <= i < |es| && Survives(es[i], now, clock, after) {
      assert halved[i] == after;
    }
  }
}
