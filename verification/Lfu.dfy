/**
 The hot-key counter as it is stored: a doubly linked list of frequency nodes, each holding a
 doubly linked list of items, and a map from key to item. Ghost sequences name the nodes of
 the lists in order; Valid ties every link to them, and ties them to the plain value of
 module LfuSpec that the whole structure stands for.
 */
module Lfu {
  import opened Basics
  import opened LfuSpec

  class ItemNode {
    const key: Key
    var freqNode: FreqNode?
    var prev: ItemNode?
    var next: ItemNode?

    constructor (key: Key)
      ensures this.key == key && freqNode == null && prev == null && next == null
    {
      this.key := key;
      freqNode, prev, next := null, null, null;
    }

    /** Takes this item, which is number j of list l, out of its frequency node. */
    method Free(ghost l: seq<ItemNode>, ghost j: nat)
      requires freqNode != null && freqNode.Holds(l) && j < |l| && l[j] == this
      modifies freqNode`itemHead, freqNode`itemTail, Elems(l)
      ensures old(freqNode).Holds(Drop(l, j))
      ensures prev == null && next == null && freqNode == null
    {
      var fnode := freqNode;
      if fnode.itemHead == fnode.itemTail {
        fnode.itemHead, fnode.itemTail := null, null;
      } else if fnode.itemHead == this {
        next.prev := null;
        fnode.itemHead := next;
      } else if fnode.itemTail == this {
        prev.next := null;
        fnode.itemTail := prev;
      } else {
        prev.next := next;
        next.prev := prev;
      }
      prev := null;
      next := null;
      freqNode := null;

      ghost var r := Drop(l, j);
      forall k | 0 <= k < |r|
        ensures r[k].freqNode == fnode
        ensures r[k].prev == if k == 0 then null else r[k - 1]
        ensures r[k].next == if k + 1 == |r| then null else r[k + 1]
      {
        var x := l[if k < j then k else k + 1];
        assert r[k] == x;
        assert k > 0 ==> r[k - 1] == l[if k - 1 < j then k - 1 else k];
        assert k + 1 < |r| ==> r[k + 1] == l[if k + 1 < j then k + 1 else k + 2];
        assert old(x.freqNode) == fnode && old(x.prev == x.prev) && old(x.next == x.next);
      }
    }
  }

  ghost function Elems(l: seq<ItemNode>): set<ItemNode> {
    set x | x in l
  }

  ghost function Opt(n: FreqNode?): set<FreqNode> {
    if n == null then {} else {n}
  }

  class FreqNode {
    const freq: nat
    var prev: FreqNode?
    var next: FreqNode?
    var itemHead: ItemNode?
    var itemTail: ItemNode?

    constructor (freq: nat)
      ensures this.freq == freq && prev == null && next == null && itemHead == null && itemTail == null
    {
      this.freq := freq;
      prev, next, itemHead, itemTail := null, null, null, null;
    }

    /** The items of this node are l, in order: ends, neighbours and back links all agree. */
    ghost predicate Holds(l: seq<ItemNode>)
      reads this`itemHead, this`itemTail, Elems(l)
    {
      && Distinct(l)
      && (if l == [] then itemHead == null && itemTail == null
          else itemHead == l[0] && itemTail == l[|l| - 1])
      && (forall j {:trigger l[j].freqNode} :: 0 <= j < |l| ==> l[j].freqNode == this)
      && (forall j {:trigger l[j].prev} :: 0 <= j < |l| ==> l[j].prev == if j == 0 then null else l[j - 1])
      && (forall j {:trigger l[j].next} :: 0 <= j < |l| ==> l[j].next == if j + 1 == |l| then null else l[j + 1])
    }

    method PopItem(ghost l: seq<ItemNode>) returns (r: ItemNode?)
      requires Holds(l)
      modifies this`itemHead, this`itemTail, Elems(l)
      ensures if l == [] then r == null && Holds(l) else r == l[0] && Holds(l[1..])
      ensures forall x :: x in l ==> x.freqNode == old(x.freqNode)
    {
      if itemHead == null {
        return null;
      }
      if itemHead == itemTail {
        var item := itemHead;
        itemHead := null;
        itemTail := null;
        return item;
      }
      var item := itemHead;
      item.next.prev := null;
      itemHead := item.next;
      return item;
    }

    method AppendItem(item: ItemNode, ghost l: seq<ItemNode>)
      requires Holds(l) && item !in l && item.prev == null && item.next == null
      modifies this`itemHead, this`itemTail, item, Elems(l)
      ensures Holds(l + [item])
    {
      item.freqNode := this;
      if itemHead == null {
        itemHead := item;
        itemTail := item;
        return;
      }
      item.prev := itemTail;
      item.next := null;
      itemTail.next := item;
      itemTail := item;
    }

    method InsertBeforeMe(o: FreqNode)
      requires o != this && o != prev
      modifies this`prev, o`prev, o`next, Opt(prev)`next
      ensures o.prev == old(prev) && o.next == this && prev == o
      ensures old(prev) != null ==> old(prev).next == o
    {
      if prev != null {
        prev.next := o;
      }
      o.prev := prev;
      o.next := this;
      prev := o;
    }

    method InsertAfterMe(o: FreqNode)
      requires o != this && o != next && next != this
      modifies this`next, o`prev, o`next, Opt(next)`prev
      ensures o.next == old(next) && o.prev == this && next == o
      ensures old(next) != null ==> old(next).prev == o
    {
      o.next := next;
      if next != null {
        next.prev := o;
      }
      next := o;
      o.prev := this;
    }

    method Free()
      requires prev != this && next != this && (prev == null || prev != next)
      modifies this, Opt(prev)`next, Opt(next)`prev
      ensures old(prev) != null ==> old(prev).next == old(next)
      ensures old(next) != null ==> old(next).prev == old(prev)
      ensures prev == null && next == null && itemHead == null && itemTail == null
    {
      if prev != null {
        prev.next := next;
      }
      if next != null {
        next.prev := prev;
      }
      prev := null;
      next := null;
      itemHead, itemTail := null, null;
    }
  }

  ghost predicate Increasing(nodes: seq<FreqNode>) {
    forall i, j :: 0 <= i < j < |nodes| ==> nodes[i].freq < nodes[j].freq
  }

  lemma Ordered(nodes: seq<FreqNode>, i: nat)
    requires Increasing(nodes)
    ensures forall k :: 0 <= k < |nodes| && k != i && i < |nodes| ==> nodes[k] != nodes[i]
  {
    forall k | 0 <= k < |nodes| && k != i && i < |nodes| ensures nodes[k] != nodes[i] {
      assert nodes[k].freq != nodes[i].freq;
    }
  }

  ghost predicate Linked(head: FreqNode?, nodes: seq<FreqNode>, nodeSet: set<FreqNode>)
    reads nodeSet`prev, nodeSet`next
  {
    && (forall i :: 0 <= i < |nodes| ==> nodes[i] in nodeSet)
    && head == (if nodes == [] then null else nodes[0])
    && (forall i {:trigger nodes[i].prev} :: 0 <= i < |nodes| ==>
          nodes[i].prev == if i == 0 then null else nodes[i - 1])
    && (forall i {:trigger nodes[i].next} :: 0 <= i < |nodes| ==>
          nodes[i].next == if i + 1 == |nodes| then null else nodes[i + 1])
  }

  ghost function Insert<T>(s: seq<T>, i: nat, x: T): seq<T>
    requires i <= |s|
  {
    s[..i] + [x] + s[i..]
  }

  /** Puts a new node right after number i of the list. */
  method SpliceAfter(cur: FreqNode, target: FreqNode,
                     ghost head: FreqNode?, ghost nodes: seq<FreqNode>, ghost nodeSet: set<FreqNode>, ghost i: nat)
    requires Increasing(nodes) && Linked(head, nodes, nodeSet) && i < |nodes| && nodes[i] == cur
    requires target !in nodeSet
    modifies nodeSet`prev, nodeSet`next, target`prev, target`next
    ensures Linked(head, Insert(nodes, i + 1, target), nodeSet + {target})
  {
    hide Increasing;
    Ordered(nodes, i);
    Ordered(nodes, i + 1);
    cur.InsertAfterMe(target);
    ghost var r := Insert(nodes, i + 1, target);
    forall k | 0 <= k < |r|
      ensures r[k].prev == if k == 0 then null else r[k - 1]
      ensures r[k].next == if k + 1 == |r| then null else r[k + 1]
    {
      if k != i + 1 {
        var k' := if k <= i then k else k - 1;
        assert r[k] == nodes[k'];
        assert old(nodes[k'].prev == nodes[k'].prev && nodes[k'].next == nodes[k'].next);
      }
    }
  }

  /** Puts a new node in front of the list. */
  method SpliceFirst(head: FreqNode, target: FreqNode, ghost nodes: seq<FreqNode>, ghost nodeSet: set<FreqNode>)
    requires Increasing(nodes) && Linked(head, nodes, nodeSet)
    requires target !in nodeSet
    modifies nodeSet`prev, nodeSet`next, target`prev, target`next
    ensures Linked(target, [target] + nodes, nodeSet + {target})
  {
    assert head.prev == null by { assert nodes[0].prev == null; }
    head.InsertBeforeMe(target);
    ghost var r := [target] + nodes;
    forall k | 0 <= k < |r|
      ensures r[k].prev == if k == 0 then null else r[k - 1]
      ensures r[k].next == if k + 1 == |r| then null else r[k + 1]
    {
      if k > 0 {
        assert r[k] == nodes[k - 1];
        assert old(nodes[k - 1].prev == nodes[k - 1].prev && nodes[k - 1].next == nodes[k - 1].next);
      }
    }
  }

  /** Takes node number i out of the list. */
  method Unlink(cur: FreqNode, ghost head: FreqNode?, ghost nodes: seq<FreqNode>, ghost nodeSet: set<FreqNode>,
                ghost i: nat)
    requires Increasing(nodes) && Linked(head, nodes, nodeSet) && i < |nodes| && nodes[i] == cur
    modifies nodeSet`prev, nodeSet`next, cur
    ensures var r := Drop(nodes, i); Linked(if r == [] then null else r[0], r, nodeSet)
  {
    hide Increasing, Drop;
    DropAt(nodes, i);
    Ordered(nodes, i);
    Ordered(nodes, i + 1);
    if i > 0 {
      Ordered(nodes, i - 1);
    }
    cur.Free();
    ghost var r := Drop(nodes, i);
    forall k | 0 <= k < |r|
      ensures r[k].prev == if k == 0 then null else r[k - 1]
      ensures r[k].next == if k + 1 == |r| then null else r[k + 1]
    {
      var k' := if k < i then k else k + 1;
      assert r[k] == nodes[k'];
      assert k > 0 ==> r[k - 1] == nodes[if k - 1 < i then k - 1 else k];
      assert k + 1 < |r| ==> r[k + 1] == nodes[if k + 1 < i then k + 1 else k + 2];
      assert old(nodes[k'].prev == nodes[k'].prev && nodes[k'].next == nodes[k'].next);
    }
  }

  ghost function KeysOf(l: seq<ItemNode>): (r: seq<Key>)
    ensures |r| == |l|
    ensures forall j :: 0 <= j < |l| ==> r[j] == l[j].key
  {
    seq(|l|, j requires 0 <= j < |l| => l[j].key)
  }

  ghost predicate AllHold(nodes: seq<FreqNode>, lists: seq<seq<ItemNode>>,
                          nodeSet: set<FreqNode>, itemSet: set<ItemNode>)
    reads nodeSet`itemHead, nodeSet`itemTail, itemSet
  {
    && |nodes| == |lists|
    && (forall i :: 0 <= i < |nodes| ==> nodes[i] in nodeSet)
    && (forall i :: 0 <= i < |lists| ==> forall x :: x in lists[i] ==> x in itemSet)
    && (forall i :: 0 <= i < |nodes| ==> nodes[i].Holds(lists[i]))
  }

  lemma AllHoldInsert(nodes: seq<FreqNode>, lists: seq<seq<ItemNode>>, nodeSet: set<FreqNode>, itemSet: set<ItemNode>,
                      i: nat, n: FreqNode, l: seq<ItemNode>)
    requires AllHold(nodes, lists, nodeSet, itemSet) && i <= |nodes|
    requires n.Holds(l) && forall x :: x in l ==> x in itemSet
    ensures AllHold(Insert(nodes, i, n), Insert(lists, i, l), nodeSet + {n}, itemSet)
  {
    var ns, ls := Insert(nodes, i, n), Insert(lists, i, l);
    forall k | 0 <= k < |ns|
      ensures ns[k] in nodeSet + {n} && ns[k].Holds(ls[k]) && forall x :: x in ls[k] ==> x in itemSet
    {
      if k != i {
        var k' := if k < i then k else k - 1;
        assert ns[k] == nodes[k'] && ls[k] == lists[k'];
      }
    }
  }

  lemma IncreasingInsert(nodes: seq<FreqNode>, i: nat, n: FreqNode)
    requires Increasing(nodes) && i <= |nodes|
    requires i > 0 ==> nodes[i - 1].freq < n.freq
    requires i < |nodes| ==> n.freq < nodes[i].freq
    ensures Increasing(Insert(nodes, i, n))
  {
    var r := Insert(nodes, i, n);
    forall k | 0 <= k < |r|
      ensures k < i ==> r[k] == nodes[k] && r[k].freq < n.freq
      ensures k > i ==> r[k] == nodes[k - 1] && n.freq < r[k].freq
    {
    }
  }

  /** The nodes of the structure, named in order: number i holds the items lists[i]. */
  datatype Chain = Chain(nodes: seq<FreqNode>, lists: seq<seq<ItemNode>>,
                         nodeSet: set<FreqNode>, itemSet: set<ItemNode>)

  ghost predicate Filled(g: Chain)
    reads g.nodeSet`itemHead, g.nodeSet`itemTail, g.itemSet
  {
    AllHold(g.nodes, g.lists, g.nodeSet, g.itemSet)
  }

  ghost predicate Shape(head: FreqNode?, g: Chain)
    reads g.nodeSet, g.itemSet
  {
    Increasing(g.nodes) && Linked(head, g.nodes, g.nodeSet) && Filled(g)
  }

  ghost predicate HasNext(nodes: seq<FreqNode>, i: nat) {
    i + 1 < |nodes| && nodes[i + 1].freq == nodes[i].freq + 1
  }

  /** The chain g with an empty node put in after number i. */
  ghost function WithNode(g: Chain, i: nat, n: FreqNode): Chain
    requires i <= |g.nodes| == |g.lists|
  {
    Chain(Insert(g.nodes, i, n), Insert(g.lists, i, []), g.nodeSet + {n}, g.itemSet)
  }

  /** The node for the next frequency: the neighbour if it is that, else a new one put in between. */
  method NextFreqNode(cur: FreqNode, ghost head: FreqNode?, ghost g: Chain, ghost i: nat)
    returns (target: FreqNode, ghost g': Chain)
    requires Shape(head, g) && i < |g.nodes| && g.nodes[i] == cur
    modifies g.nodeSet`prev, g.nodeSet`next
    ensures Shape(head, g')
    ensures HasNext(g'.nodes, i) && g'.nodes[i + 1] == target
    ensures if HasNext(g.nodes, i) then g' == g else fresh(target) && g' == WithNode(g, i + 1, target)
  {
    assert cur.next == if i + 1 == |g.nodes| then null else g.nodes[i + 1];
    if cur.next == null || cur.next.freq != cur.freq + 1 {
      target := new FreqNode(cur.freq + 1);
      SpliceAfter(cur, target, head, g.nodes, g.nodeSet, i);
      AllHoldInsert(g.nodes, g.lists, g.nodeSet, g.itemSet, i + 1, target, []);
      IncreasingInsert(g.nodes, i + 1, target);
      g' := WithNode(g, i + 1, target);
    } else {
      target := cur.next;
      g' := g;
    }
  }

  lemma ListsDisjoint(g: Chain, a: nat, b: nat)
    requires Increasing(g.nodes) && Filled(g) && a < |g.nodes| && b < |g.nodes| && a != b
    ensures g.nodes[a] != g.nodes[b]
    ensures forall x :: x in g.lists[a] ==> x !in g.lists[b]
  {
    assert g.nodes[a].freq != g.nodes[b].freq;
    assert g.nodes[a].Holds(g.lists[a]) && g.nodes[b].Holds(g.lists[b]);
    forall x | x in g.lists[a] ensures x !in g.lists[b] {
      assert x.freqNode == g.nodes[a];
    }
  }

  /** Item j of node i goes to the end of the items of node i + 1. */
  ghost function Moved(g: Chain, i: nat, j: nat): Chain
    requires i + 1 < |g.lists| && j < |g.lists[i]|
  {
    g.(lists := g.lists[i := Drop(g.lists[i], j)][i + 1 := g.lists[i + 1] + [g.lists[i][j]]])
  }

  method MoveItem(item: ItemNode, target: FreqNode, ghost g: Chain, ghost i: nat, ghost j: nat)
    requires Increasing(g.nodes) && Filled(g) && i + 1 < |g.nodes| && j < |g.lists[i]|
    requires g.lists[i][j] == item && g.nodes[i + 1] == target
    modifies g.nodeSet`itemHead, g.nodeSet`itemTail, g.itemSet
    ensures Filled(Moved(g, i, j))
  {
    Apart(g, i);
    Apart(g, i + 1);
    assert item in g.lists[i] && item.freqNode == g.nodes[i];
    item.Free(g.lists[i], j);
    AppendMoved(item, target, g, i, j);
  }

  lemma Apart(g: Chain, i: nat)
    requires Increasing(g.nodes) && Filled(g) && i < |g.nodes|
    ensures forall k :: 0 <= k < |g.nodes| && k != i ==>
      g.nodes[k] != g.nodes[i] && Elems(g.lists[k]) !! Elems(g.lists[i])
  {
    forall k | 0 <= k < |g.nodes| && k != i
      ensures g.nodes[k] != g.nodes[i] && Elems(g.lists[k]) !! Elems(g.lists[i])
    {
      ListsDisjoint(g, k, i);
    }
  }

  method AppendMoved(item: ItemNode, target: FreqNode, ghost g: Chain, ghost i: nat, ghost j: nat)
    requires |g.nodes| == |g.lists| && i + 1 < |g.nodes| && j < |g.lists[i]|
    requires g.lists[i][j] == item && g.nodes[i + 1] == target
    requires item !in Drop(g.lists[i], j) && item.prev == null && item.next == null
    requires forall k :: 0 <= k < |g.nodes| ==> g.nodes[k] in g.nodeSet
    requires forall k :: 0 <= k < |g.nodes| ==> Elems(g.lists[k]) <= g.itemSet
    requires g.nodes[i].Holds(Drop(g.lists[i], j))
    requires forall k :: 0 <= k < |g.nodes| && k != i ==>
      g.nodes[k] != g.nodes[i] && Elems(g.lists[k]) !! Elems(g.lists[i])
    requires forall k :: 0 <= k < |g.nodes| && k != i + 1 ==>
      g.nodes[k] != g.nodes[i + 1] && Elems(g.lists[k]) !! Elems(g.lists[i + 1])
    requires forall k :: 0 <= k < |g.nodes| && k != i ==> g.nodes[k].Holds(g.lists[k])
    modifies target`itemHead, target`itemTail, item, Elems(g.lists[i + 1])
    ensures Filled(Moved(g, i, j))
  {
    assert item in Elems(g.lists[i]);
    target.AppendItem(item, g.lists[i + 1]);
    ghost var g' := Moved(g, i, j);
    forall k | 0 <= k < |g'.nodes|
      ensures g'.nodes[k].Holds(g'.lists[k])
      ensures forall x :: x in g'.lists[k] ==> x in g'.itemSet
    {
      assert Elems(g.lists[k]) <= g.itemSet;
    }
  }

  /** The chain without node i. */
  ghost function WithoutNode(g: Chain, i: nat): Chain
    requires i < |g.nodes| == |g.lists|
  {
    g.(nodes := Drop(g.nodes, i), lists := Drop(g.lists, i))
  }

  method RemoveNode(cur: FreqNode, ghost head: FreqNode?, ghost g: Chain, ghost i: nat)
    requires Shape(head, g) && i < |g.nodes| && g.nodes[i] == cur
    modifies g.nodeSet
    ensures var g' := WithoutNode(g, i); Shape(if g'.nodes == [] then null else g'.nodes[0], g')
  {
    forall k | 0 <= k < |g.nodes| && k != i
      ensures g.nodes[k] != cur && g.nodes[k].Holds(g.lists[k])
    {
      ListsDisjoint(g, k, i);
    }
    Unlink(cur, head, g.nodes, g.nodeSet, i);
    ghost var g' := WithoutNode(g, i);
    forall k | 0 <= k < |g'.nodes|
      ensures g'.nodes[k].Holds(g'.lists[k])
      ensures forall x :: x in g'.lists[k] ==> x in g.itemSet
    {
      var k' := if k < i then k else k + 1;
      assert g'.nodes[k] == g.nodes[k'] && g'.lists[k] == g.lists[k'];
    }
  }

  // ---------- what the chain stands for ----------

  /** The items l carry the keys recorded at count c, in order, and the map finds each of them. */
  ghost predicate ListAt(c: nat, l: seq<ItemNode>, items: map<Key, ItemNode>, m: State) {
    && KeysOf(l) == AtCount(m.order, m.counts, c)
    && (forall x :: x in l ==> x.key in items && items[x.key] == x)
  }

  ghost predicate Lists(g: Chain, items: map<Key, ItemNode>, m: State) {
    && |g.nodes| == |g.lists|
    && (forall i :: 0 <= i < |g.nodes| ==> ListAt(g.nodes[i].freq, g.lists[i], items, m))
  }

  ghost predicate HasFreq(g: Chain, c: nat) {
    exists i :: 0 <= i < |g.nodes| && g.nodes[i].freq == c
  }

  ghost predicate Covers(g: Chain, m: State) {
    forall k :: k in m.counts ==> HasFreq(g, m.counts[k])
  }

  /** The chain and the map are two ways to read the plain value m. */
  ghost predicate Represents(g: Chain, items: map<Key, ItemNode>, m: State) {
    && Lists(g, items, m) && Covers(g, m)
    && items.Keys == m.counts.Keys
    && NoneEmpty(g.lists)
  }

  /** Where the item of a recorded key is listed. */
  lemma Locate(g: Chain, items: map<Key, ItemNode>, m: State, key: Key) returns (i: nat, j: nat)
    requires Represents(g, items, m) && Wf(m) && key in m.counts
    ensures i < |g.nodes| && g.nodes[i].freq == m.counts[key]
    ensures j < |g.lists[i]| && g.lists[i][j] == items[key] && items[key].key == key
  {
    hide AtCount, NoneEmpty;
    assert HasFreq(g, m.counts[key]);
    i :| 0 <= i < |g.nodes| && g.nodes[i].freq == m.counts[key];
    AtCountHas(m.order, m.counts, key);
    assert ListAt(g.nodes[i].freq, g.lists[i], items, m);
    j := KeyIn(g.lists[i], key);
    assert g.lists[i][j] in g.lists[i];
  }

  lemma KeyIn(l: seq<ItemNode>, key: Key) returns (j: nat)
    requires key in KeysOf(l)
    ensures j < |l| && l[j].key == key
  {
    j :| 0 <= j < |l| && KeysOf(l)[j] == key;
  }

  lemma NoneInGap(g: Chain, m: State, i: nat)
    requires Covers(g, m) && Increasing(g.nodes) && i < |g.nodes| && !HasNext(g.nodes, i)
    ensures AtCount(m.order, m.counts, g.nodes[i].freq + 1) == []
  {
    var a := AtCount(m.order, m.counts, g.nodes[i].freq + 1);
    if a != [] {
      FirstIn(a);
      assert false;
    }
  }

  lemma ListsInsert(g: Chain, items: map<Key, ItemNode>, m: State, i: nat, n: FreqNode)
    requires Lists(g, items, m) && i <= |g.nodes| && AtCount(m.order, m.counts, n.freq) == []
    ensures Lists(WithNode(g, i, n), items, m)
  {
    var g' := WithNode(g, i, n);
    forall k | 0 <= k < |g'.nodes| ensures ListAt(g'.nodes[k].freq, g'.lists[k], items, m) {
      if k != i {
        var k' := if k < i then k else k - 1;
        assert g'.nodes[k] == g.nodes[k'] && g'.lists[k] == g.lists[k'];
      } else {
        assert g'.lists[k] == [];
      }
    }
  }

  lemma ListsDropNode(g: Chain, items: map<Key, ItemNode>, m: State, i: nat)
    requires Lists(g, items, m) && i < |g.nodes|
    ensures Lists(WithoutNode(g, i), items, m)
  {
    var g' := WithoutNode(g, i);
    forall k | 0 <= k < |g'.nodes| ensures ListAt(g'.nodes[k].freq, g'.lists[k], items, m) {
      var k' := if k < i then k else k + 1;
      assert g'.nodes[k] == g.nodes[k'] && g'.lists[k] == g.lists[k'];
    }
  }

  lemma KeysOfDrop(l: seq<ItemNode>, j: nat)
    requires j < |l| && Distinct(KeysOf(l))
    ensures KeysOf(Drop(l, j)) == Without(KeysOf(l), l[j].key)
  {
    var p, q := KeysOf(l[..j]), KeysOf(l[j + 1..]);
    assert KeysOf(Drop(l, j)) == p + q;
    assert KeysOf(l) == p + [l[j].key] + q;
    AbsentAround(p, l[j].key, q);
    WithoutSplit(p, l[j].key, q);
  }

  lemma AbsentAround<T>(p: seq<T>, x: T, q: seq<T>)
    requires Distinct(p + [x] + q)
    ensures x !in p && x !in q
  {
    var s := p + [x] + q;
    assert forall i :: 0 <= i < |p| ==> s[i] == p[i] && s[i] != s[|p|];
    assert forall i :: 0 <= i < |q| ==> s[|p| + 1 + i] == q[i] && s[|p|] != s[|p| + 1 + i];
  }

  lemma AtCountBumped(m: State, key: Key, c: nat)
    requires Wf(m) && key in m.counts
    ensures var a, b := m.counts[key], Bumped(m, key);
      AtCount(b.order, b.counts, c) ==
        if c == a then Without(AtCount(m.order, m.counts, c), key)
        else if c == a + 1 then AtCount(m.order, m.counts, c) + [key]
        else AtCount(m.order, m.counts, c)
  {
    var b := Bumped(m, key);
    AtCountRemove(m, key, b.counts, c);
    AtCountAppend(Without(m.order, key), b.counts, key, c);
    if c != m.counts[key] {
      WithoutAbsent(AtCount(m.order, m.counts, c), key);
    }
  }

  /** The list a key leaves, the list it joins, and any other, once its count has gone up. */
  lemma ListAtLeft(c: nat, l: seq<ItemNode>, items: map<Key, ItemNode>, m: State, j: nat)
    requires ListAt(c, l, items, m) && Wf(m) && j < |l|
    ensures var key := l[j].key;
      key in m.counts && m.counts[key] == c && ListAt(c, Drop(l, j), items, Bumped(m, key))
  {
    hide Bumped, AtCount;
    KeyListed(c, l, items, m, j);
    AtCountDistinct(m.order, m.counts, c);
    KeysOfDrop(l, j);
    AtCountBumped(m, l[j].key, c);
    forall x | x in Drop(l, j) ensures x in l {
    }
  }

  lemma ListAtJoined(c: nat, l: seq<ItemNode>, items: map<Key, ItemNode>, m: State, x: ItemNode)
    requires ListAt(c, l, items, m) && Wf(m) && x.key in m.counts && m.counts[x.key] + 1 == c
    requires x.key in items && items[x.key] == x
    ensures ListAt(c, l + [x], items, Bumped(m, x.key))
  {
    hide Bumped, AtCount;
    AtCountBumped(m, x.key, c);
    assert KeysOf(l + [x]) == KeysOf(l) + [x.key];
  }

  lemma ListAtUntouched(c: nat, l: seq<ItemNode>, items: map<Key, ItemNode>, m: State, key: Key)
    requires ListAt(c, l, items, m) && Wf(m) && key in m.counts && m.counts[key] != c && m.counts[key] + 1 != c
    ensures ListAt(c, l, items, Bumped(m, key))
  {
    hide Bumped, AtCount;
    AtCountBumped(m, key, c);
  }

  lemma ListsMoved(g: Chain, items: map<Key, ItemNode>, m: State, i: nat, j: nat)
    requires Lists(g, items, m) && Wf(m) && Increasing(g.nodes)
    requires HasNext(g.nodes, i) && j < |g.lists[i]|
    ensures var key := g.lists[i][j].key;
      key in m.counts && Lists(Moved(g, i, j), items, Bumped(m, key))
  {
    hide ListAt, Wf, Bumped;
    var l, x := g.lists[i], g.lists[i][j];
    ListAtLeft(g.nodes[i].freq, l, items, m, j);
    ItemFound(g.nodes[i].freq, l, items, m, j);
    var g' := Moved(g, i, j);
    forall k | 0 <= k < |g'.nodes| ensures ListAt(g'.nodes[k].freq, g'.lists[k], items, Bumped(m, x.key)) {
      if k == i + 1 {
        ListAtJoined(g.nodes[k].freq, g.lists[k], items, m, x);
      } else if k != i {
        assert k < i ==> g.nodes[k].freq < g.nodes[i].freq;
        assert k > i + 1 ==> g.nodes[i + 1].freq < g.nodes[k].freq;
        ListAtUntouched(g.nodes[k].freq, g.lists[k], items, m, x.key);
      }
    }
  }

  lemma ItemFound(c: nat, l: seq<ItemNode>, items: map<Key, ItemNode>, m: State, j: nat)
    requires ListAt(c, l, items, m) && j < |l|
    ensures l[j].key in items && items[l[j].key] == l[j]
  {
    assert l[j] in l;
  }

  lemma CoversInsert(g: Chain, m: State, i: nat, n: FreqNode)
    requires Covers(g, m) && i <= |g.nodes| == |g.lists|
    ensures Covers(WithNode(g, i, n), m) && HasFreq(WithNode(g, i, n), n.freq)
  {
    var g' := WithNode(g, i, n);
    assert g'.nodes[i] == n;
    forall k | k in m.counts ensures HasFreq(g', m.counts[k]) {
      assert HasFreq(g, m.counts[k]);
      var x :| 0 <= x < |g.nodes| && g.nodes[x].freq == m.counts[k];
      assert g'.nodes[if x < i then x else x + 1] == g.nodes[x];
    }
  }

  lemma HasFreqDrop(g: Chain, c: nat, i: nat)
    requires |g.nodes| == |g.lists| && i < |g.nodes| && HasFreq(g, c) && g.nodes[i].freq != c
    ensures HasFreq(WithoutNode(g, i), c)
  {
    var x :| 0 <= x < |g.nodes| && g.nodes[x].freq == c;
    assert WithoutNode(g, i).nodes[if x < i then x else x - 1] == g.nodes[x];
  }

  lemma CoversDrop(g: Chain, items: map<Key, ItemNode>, m: State, i: nat)
    requires Lists(g, items, m) && Covers(g, m) && Wf(m) && i < |g.nodes| && g.lists[i] == []
    ensures Covers(WithoutNode(g, i), m)
  {
    assert ListAt(g.nodes[i].freq, g.lists[i], items, m);
    hide Lists, ListAt;
    forall k | k in m.counts ensures HasFreq(WithoutNode(g, i), m.counts[k]) {
      AtCountHas(m.order, m.counts, k);
      HasFreqDrop(g, m.counts[k], i);
    }
  }

  ghost predicate NoneEmpty(lists: seq<seq<ItemNode>>) {
    forall i :: 0 <= i < |lists| ==> lists[i] != []
  }

  ghost predicate NoneEmptyBut(lists: seq<seq<ItemNode>>, hole: nat) {
    forall i :: 0 <= i < |lists| && i != hole ==> lists[i] != []
  }

  lemma InsertNoneEmpty(lists: seq<seq<ItemNode>>, i: nat)
    requires i <= |lists| && NoneEmpty(lists)
    ensures NoneEmptyBut(Insert(lists, i, []), i)
  {
    var r := Insert(lists, i, []);
    forall k | 0 <= k < |r| && k != i ensures r[k] != [] {
      assert r[k] == lists[if k < i then k else k - 1];
    }
  }

  lemma DropNoneEmpty(lists: seq<seq<ItemNode>>, i: nat)
    requires i < |lists| && NoneEmptyBut(lists, i)
    ensures NoneEmpty(Drop(lists, i))
  {
    var r := Drop(lists, i);
    forall k | 0 <= k < |r| ensures r[k] != [] {
      assert r[k] == lists[if k < i then k else k + 1];
    }
  }

  /** As Represents, but node `hole` may be empty. */
  ghost predicate Almost(g: Chain, items: map<Key, ItemNode>, m: State, hole: nat) {
    && Lists(g, items, m) && Covers(g, m)
    && items.Keys == m.counts.Keys
    && NoneEmptyBut(g.lists, hole)
  }

  ghost function WithNext(g: Chain, i: nat, target: FreqNode): Chain
    requires i < |g.nodes| == |g.lists|
  {
    if HasNext(g.nodes, i) then g else WithNode(g, i + 1, target)
  }

  lemma WithNextRepresents(g: Chain, items: map<Key, ItemNode>, m: State, i: nat, target: FreqNode)
    requires Represents(g, items, m) && Increasing(g.nodes) && i < |g.nodes|
    requires HasNext(g.nodes, i) || target.freq == g.nodes[i].freq + 1
    ensures var g1 := WithNext(g, i, target);
      && HasNext(g1.nodes, i) && g1.nodes[i] == g.nodes[i] && g1.lists[i] == g.lists[i]
      && Increasing(g1.nodes) && Almost(g1, items, m, i + 1)
  {
    hide ListAt, HasFreq, AtCount;
    if !HasNext(g.nodes, i) {
      NoneInGap(g, m, i);
      ListsInsert(g, items, m, i + 1, target);
      CoversInsert(g, m, i + 1, target);
      IncreasingInsert(g.nodes, i + 1, target);
      InsertNoneEmpty(g.lists, i + 1);
    }
  }

  lemma CoversMoved(g: Chain, m: State, i: nat, j: nat, key: Key)
    requires Covers(g, m) && HasNext(g.nodes, i) && |g.nodes| == |g.lists| && j < |g.lists[i]|
    requires key in m.counts && m.counts[key] == g.nodes[i].freq
    ensures Covers(Moved(g, i, j), Bumped(m, key))
  {
    var b := Bumped(m, key);
    forall k | k in b.counts ensures HasFreq(Moved(g, i, j), b.counts[k]) {
      if k == key {
        assert g.nodes[i + 1].freq == b.counts[k];
      } else {
        assert HasFreq(g, m.counts[k]);
      }
    }
  }

  lemma MovedRepresents(g: Chain, items: map<Key, ItemNode>, m: State, i: nat, j: nat)
    requires Almost(g, items, m, i + 1) && Wf(m) && Increasing(g.nodes)
    requires HasNext(g.nodes, i) && j < |g.lists[i]|
    ensures var key := g.lists[i][j].key;
      key in m.counts && Almost(Moved(g, i, j), items, Bumped(m, key), i)
  {
    hide Wf, Increasing, ListAt, Covers, Bumped, NoneEmptyBut;
    var key := g.lists[i][j].key;
    ListsMoved(g, items, m, i, j);
    assert ListAt(g.nodes[i].freq, g.lists[i], items, m);
    KeyListed(g.nodes[i].freq, g.lists[i], items, m, j);
    CoversMoved(g, m, i, j, key);
    MovedNoneEmpty(g, i, j);
    BumpedKeys(m, key);
  }

  lemma KeyListed(c: nat, l: seq<ItemNode>, items: map<Key, ItemNode>, m: State, j: nat)
    requires ListAt(c, l, items, m) && j < |l|
    ensures l[j].key in m.counts && m.counts[l[j].key] == c
  {
    assert KeysOf(l)[j] in KeysOf(l);
  }

  lemma MovedNoneEmpty(g: Chain, i: nat, j: nat)
    requires i + 1 < |g.lists| && j < |g.lists[i]| && NoneEmptyBut(g.lists, i + 1)
    ensures NoneEmptyBut(Moved(g, i, j).lists, i)
  {
  }

  lemma BumpedKeys(m: State, key: Key)
    requires key in m.counts
    ensures Bumped(m, key).counts.Keys == m.counts.Keys
  {
  }

  ghost function Tidied(g: Chain, i: nat): Chain
    requires i < |g.nodes| == |g.lists|
  {
    if g.lists[i] == [] then WithoutNode(g, i) else g
  }

  lemma TidiedRepresents(g: Chain, items: map<Key, ItemNode>, m: State, i: nat)
    requires Almost(g, items, m, i) && Wf(m) && i < |g.nodes|
    ensures Represents(Tidied(g, i), items, m)
  {
    if g.lists[i] == [] {
      ListsDropNode(g, items, m, i);
      CoversDrop(g, items, m, i);
      DropNoneEmpty(g.lists, i);
    }
  }

  ghost function Incremented(g: Chain, i: nat, j: nat, target: FreqNode): Chain
    requires i < |g.nodes| == |g.lists| && j < |g.lists[i]|
  {
    var g1 := WithNext(g, i, target);
    assert g1.lists[i] == g.lists[i];
    Tidied(Moved(g1, i, j), i)
  }

  /** Moves an item, number j under node i, up one frequency; the new head of the nodes is returned. */
  method Increment(item: ItemNode, head: FreqNode?, ghost g: Chain, ghost i: nat, ghost j: nat)
    returns (head': FreqNode?, ghost target: FreqNode)
    requires Shape(head, g)
    requires i < |g.nodes| && j < |g.lists[i]| && g.lists[i][j] == item
    modifies g.nodeSet, g.itemSet
    ensures HasNext(g.nodes, i) || (fresh(target) && target.freq == g.nodes[i].freq + 1)
    ensures Shape(head', Incremented(g, i, j, target))
  {
    hide Linked, Increasing, Filled;
    ShapeHead(head, g);
    ItemAt(g, i, j);
    var cur := item.freqNode;
    var next, g1 := NextFreqNode(cur, head, g, i);
    target := next;
    ShapeHead(head, g1);
    MoveItem(item, next, g1, i, j);
    ghost var g2 := Moved(g1, i, j);
    HeadItem(g2, i);
    head' := head;
    if cur.itemHead != null {
      return;
    }
    if head' == cur {
      head' := next;
    }
    RemoveNode(cur, head, g2, i);
    HeadAfterDrop(head, g2.nodes, i);
  }

  lemma ItemAt(g: Chain, i: nat, j: nat)
    requires Filled(g) && i < |g.nodes| && i < |g.lists| && j < |g.lists[i]|
    ensures |g.nodes| == |g.lists| && g.lists[i][j] in g.itemSet && g.lists[i][j].freqNode == g.nodes[i]
  {
    assert g.nodes[i].Holds(g.lists[i]) && g.lists[i][j] in g.lists[i];
  }

  lemma HeadItem(g: Chain, i: nat)
    requires Filled(g) && i < |g.nodes|
    ensures |g.nodes| == |g.lists| && g.nodes[i] in g.nodeSet
    ensures g.nodes[i].itemHead != null <==> g.lists[i] != []
  {
    assert g.nodes[i].Holds(g.lists[i]);
  }

  lemma ShapeHead(head: FreqNode?, g: Chain)
    requires Shape(head, g)
    ensures |g.nodes| == |g.lists| && (head == null <==> g.nodes == [])
    ensures g.nodes != [] ==> head == g.nodes[0]
  {
  }

  lemma HeadAfterDrop(head: FreqNode?, nodes: seq<FreqNode>, i: nat)
    requires Increasing(nodes) && i + 1 < |nodes| && head == nodes[0]
    ensures Drop(nodes, i) != [] && Drop(nodes, i)[0] == if head == nodes[i] then nodes[i + 1] else head
  {
    assert i > 0 ==> nodes[0].freq < nodes[i].freq;
  }

  lemma IncrementedRepresents(g: Chain, items: map<Key, ItemNode>, m: State, i: nat, j: nat, target: FreqNode)
    requires Represents(g, items, m) && Wf(m) && Increasing(g.nodes)
    requires i < |g.nodes| && j < |g.lists[i]|
    requires HasNext(g.nodes, i) || target.freq == g.nodes[i].freq + 1
    ensures var key := g.lists[i][j].key;
      key in m.counts && Represents(Incremented(g, i, j, target), items, Bumped(m, key))
  {
    WithNextRepresents(g, items, m, i, target);
    var g1, key := WithNext(g, i, target), g.lists[i][j].key;
    hide Wf, Lists, Covers, Almost, Represents, Increasing;
    MovedRepresents(g1, items, m, i, j);
    BumpedWf(m, key);
    TidiedRepresents(Moved(g1, i, j), items, Bumped(m, key), i);
  }

  // ---------- giving up a key ----------

  ghost function Popped(g: Chain): Chain
    requires g.lists != [] && g.lists[0] != []
  {
    g.(lists := g.lists[0 := g.lists[0][1..]])
  }

  method PopFirst(head: FreqNode, ghost g: Chain)
    requires Increasing(g.nodes) && Filled(g) && g.nodes != [] && g.nodes[0] == head && g.lists[0] != []
    modifies g.nodeSet`itemHead, g.nodeSet`itemTail, g.itemSet
    ensures Filled(Popped(g))
  {
    Apart(g, 0);
    var _ := head.PopItem(g.lists[0]);
    ghost var g' := Popped(g);
    assert forall x :: x in g'.lists[0] ==> x in g.lists[0];
  }

  /** Gives up the first item of the first node; its key and the new head are returned. */
  method EvictFirst(head: FreqNode?, ghost g: Chain) returns (head': FreqNode?, key: Key)
    requires Shape(head, g) && g.lists != [] && g.lists[0] != []
    modifies g.nodeSet, g.itemSet
    ensures key == g.lists[0][0].key
    ensures Shape(head', Tidied(Popped(g), 0))
  {
    assert g.nodes[0].Holds(g.lists[0]);
    key := head.itemHead.key;
    PopFirst(head, g);
    ghost var g1 := Popped(g);
    assert g1.nodes[0].Holds(g1.lists[0]);
    head' := head;
    if head.itemHead != null {
      return;
    }
    assert g1.nodes[0].next == if |g1.nodes| == 1 then null else g1.nodes[1];
    head' := head.next;
    RemoveNode(head, head, g1, 0);
  }

  lemma AtCountEvicted(m: State, v: Key, c: nat)
    requires Wf(m) && v in m.counts
    ensures AtCount(Without(m.order, v), m.counts - {v}, c) == Without(AtCount(m.order, m.counts, c), v)
  {
    AtCountRemove(m, v, m.counts - {v}, c);
  }

  /** The first item of the first node is the one to give up. */
  lemma FirstIsVictim(g: Chain, items: map<Key, ItemNode>, m: State)
    requires Represents(g, items, m) && Wf(m) && Increasing(g.nodes) && m.order != []
    ensures g.lists != [] && g.lists[0] != []
    ensures g.lists[0][0].key == Victim(m.order, m.counts)
    ensures m.counts[g.lists[0][0].key] == g.nodes[0].freq
  {
    var v := Victim(m.order, m.counts);
    VictimFirst(m.order, m.counts);
    var i, j := Locate(g, items, m, v);
    assert g.nodes[0].freq <= g.nodes[i].freq;
    assert ListAt(g.nodes[0].freq, g.lists[0], items, m);
    var k := KeysOf(g.lists[0])[0];
    FirstIn(KeysOf(g.lists[0]));
    assert m.counts[v] <= m.counts[k];
  }

  lemma ListAtOther(c: nat, l: seq<ItemNode>, items: map<Key, ItemNode>, m: State, v: Key)
    requires ListAt(c, l, items, m) && Wf(m) && v in m.counts && m.counts[v] != c
    ensures ListAt(c, l, items - {v}, State(Without(m.order, v), m.counts - {v}))
  {
    AtCountEvicted(m, v, c);
    WithoutAbsent(AtCount(m.order, m.counts, c), v);
    forall x | x in l ensures x.key != v {
      var j :| 0 <= j < |l| && l[j] == x;
      assert KeysOf(l)[j] in KeysOf(l);
    }
  }

  lemma OtherKeysInTail(l: seq<ItemNode>)
    requires l != [] && Distinct(KeysOf(l))
    ensures forall x :: x in l[1..] ==> x in l && x.key != l[0].key
  {
    forall x | x in l[1..] ensures x in l && x.key != l[0].key {
      var j :| 0 <= j < |l| - 1 && l[1..][j] == x;
      assert KeysOf(l)[j + 1] == x.key && KeysOf(l)[0] == l[0].key;
    }
  }

  lemma ListAtPopped(c: nat, l: seq<ItemNode>, items: map<Key, ItemNode>, m: State)
    requires ListAt(c, l, items, m) && Wf(m) && l != [] && l[0].key in m.counts
    ensures var v := l[0].key;
      ListAt(c, l[1..], items - {v}, State(Without(m.order, v), m.counts - {v}))
  {
    var v := l[0].key;
    AtCountEvicted(m, v, c);
    assert Distinct(KeysOf(l)) by { AtCountDistinct(m.order, m.counts, c); }
    assert KeysOf(l[1..]) == Without(KeysOf(l), v) by {
      KeysOfDrop(l, 0);
      assert Drop(l, 0) == l[1..];
    }
    OtherKeysInTail(l);
  }

  lemma PoppedRepresents(g: Chain, items: map<Key, ItemNode>, m: State)
    requires Represents(g, items, m) && Wf(m) && Increasing(g.nodes) && m.order != []
    ensures g.lists != [] && g.lists[0] != []
    ensures var v := Victim(m.order, m.counts);
      v == g.lists[0][0].key && Almost(Popped(g), items - {v}, Evict(m), 0)
  {
    FirstIsVictim(g, items, m);
    var v, m', g' := Victim(m.order, m.counts), Evict(m), Popped(g);
    forall k | 0 <= k < |g'.nodes| ensures ListAt(g'.nodes[k].freq, g'.lists[k], items - {v}, m') {
      assert ListAt(g.nodes[k].freq, g.lists[k], items, m);
      if k == 0 {
        ListAtPopped(g.nodes[k].freq, g.lists[k], items, m);
      } else {
        ListAtOther(g.nodes[k].freq, g.lists[k], items, m, v);
      }
    }
    forall k | k in m'.counts ensures HasFreq(g', m'.counts[k]) {
      assert HasFreq(g, m.counts[k]);
    }
  }

  // ---------- recording a new key ----------

  /** The chain with a new item at frequency one; `fnode` is used only if no node has that frequency. */
  ghost function Added(g: Chain, item: ItemNode, fnode: FreqNode): Chain
    requires |g.nodes| == |g.lists|
  {
    if g.nodes != [] && g.nodes[0].freq == 1
    then Chain(g.nodes, g.lists[0 := g.lists[0] + [item]], g.nodeSet, g.itemSet + {item})
    else Chain([fnode] + g.nodes, [[item]] + g.lists, g.nodeSet + {fnode}, g.itemSet + {item})
  }

  method AddToFirst(item: ItemNode, head: FreqNode, ghost g: Chain)
    requires Increasing(g.nodes) && Filled(g) && g.nodes != [] && g.nodes[0] == head
    requires head.freq == 1 && item !in g.itemSet && item.prev == null && item.next == null
    modifies g.nodeSet`itemHead, g.nodeSet`itemTail, g.itemSet, item
    ensures Filled(Added(g, item, head))
  {
    Apart(g, 0);
    assert item !in g.lists[0];
    head.AppendItem(item, g.lists[0]);
    ghost var g' := Added(g, item, head);
    forall k | 0 <= k < |g'.nodes|
      ensures g'.nodes[k].Holds(g'.lists[k])
      ensures forall x :: x in g'.lists[k] ==> x in g'.itemSet
    {
    }
  }

  lemma AllHoldPrepend(g: Chain, item: ItemNode, fnode: FreqNode)
    requires Filled(g) && fnode.Holds([item])
    ensures AllHold([fnode] + g.nodes, [[item]] + g.lists, g.nodeSet + {fnode}, g.itemSet + {item})
  {
    var ns, ls := [fnode] + g.nodes, [[item]] + g.lists;
    forall k | 0 <= k < |ns|
      ensures ns[k].Holds(ls[k])
      ensures forall x :: x in ls[k] ==> x in g.itemSet + {item}
      ensures ns[k] in g.nodeSet + {fnode}
    {
      if k > 0 {
        assert ns[k] == g.nodes[k - 1] && ls[k] == g.lists[k - 1];
      }
    }
  }

  method AddNode(item: ItemNode, head: FreqNode?, ghost g: Chain) returns (n: FreqNode)
    requires Shape(head, g) && item !in g.itemSet && item.prev == null && item.next == null
    modifies g.nodeSet`prev, g.nodeSet`next, item
    ensures fresh(n) && n.freq == 1
    ensures Linked(n, [n] + g.nodes, g.nodeSet + {n})
    ensures AllHold([n] + g.nodes, [[item]] + g.lists, g.nodeSet + {n}, g.itemSet + {item})
  {
    hide Linked, Increasing, AllHold, Filled;
    ShapeHead(head, g);
    n := new FreqNode(1);
    n.AppendItem(item, []);
    assert [] + [item] == [item];
    if head != null {
      SpliceFirst(head, n, g.nodes, g.nodeSet);
    } else {
      LinkedAlone(n, g.nodeSet);
      assert [n] + g.nodes == [n];
    }
    AllHoldPrepend(g, item, n);
  }

  lemma LinkedAlone(n: FreqNode, nodeSet: set<FreqNode>)
    requires n.prev == null && n.next == null
    ensures Linked(n, [n], nodeSet + {n})
  {
  }

  method Add(item: ItemNode, head: FreqNode?, ghost g: Chain) returns (head': FreqNode, ghost g': Chain)
    requires Shape(head, g) && (forall i :: 0 <= i < |g.nodes| ==> g.nodes[i].freq >= 1)
    requires item !in g.itemSet && item.prev == null && item.next == null
    modifies g.nodeSet, g.itemSet, item
    ensures Shape(head', g') && head'.freq == 1 && g' == Added(g, item, head')
    ensures fresh(g'.nodeSet - g.nodeSet)
  {
    if head != null && head.freq == 1 {
      AddToFirst(item, head, g);
      head' := head;
    } else {
      head' := AddNode(item, head, g);
      IncreasingInsert(g.nodes, 0, head');
      assert Insert(g.nodes, 0, head') == [head'] + g.nodes;
    }
    g' := Added(g, item, head');
  }

  lemma AtCountAdded(m: State, key: Key, c: nat)
    requires Wf(m) && key !in m.counts
    ensures var m' := Recorded(m, key);
      AtCount(m'.order, m'.counts, c)
        == if c == 1 then AtCount(m.order, m.counts, c) + [key] else AtCount(m.order, m.counts, c)
  {
    var counts' := m.counts[key := 1];
    AtCountAppend(m.order, counts', key, c);
    AtCountAgree(m.order, m.counts, counts', c);
  }

  lemma ListAtAdded(c: nat, l: seq<ItemNode>, items: map<Key, ItemNode>, m: State, item: ItemNode)
    requires ListAt(c, l, items, m) && Wf(m) && items.Keys == m.counts.Keys && item.key !in items
    ensures var m', items' := Recorded(m, item.key), items[item.key := item];
      && (c == 1 ==> ListAt(c, l + [item], items', m'))
      && (c != 1 ==> ListAt(c, l, items', m'))
  {
    hide Wf, AtCount, Recorded;
    AtCountAdded(m, item.key, c);
    assert KeysOf(l + [item]) == KeysOf(l) + [item.key];
  }

  lemma NoneAtOne(g: Chain, m: State)
    requires Covers(g, m) && Increasing(g.nodes)
    requires forall i :: 0 <= i < |g.nodes| ==> g.nodes[i].freq >= 1
    requires g.nodes == [] || g.nodes[0].freq != 1
    ensures AtCount(m.order, m.counts, 1) == []
  {
    if AtCount(m.order, m.counts, 1) != [] {
      FirstIn(AtCount(m.order, m.counts, 1));
      assert false;
    }
  }

  lemma ListsAddedToFirst(g: Chain, items: map<Key, ItemNode>, m: State, item: ItemNode)
    requires Lists(g, items, m) && items.Keys == m.counts.Keys && Wf(m) && Increasing(g.nodes)
    requires g.nodes != [] && g.nodes[0].freq == 1 && item.key !in m.counts
    ensures Lists(Added(g, item, g.nodes[0]), items[item.key := item], Recorded(m, item.key))
  {
    var g' := Added(g, item, g.nodes[0]);
    forall k | 0 <= k < |g'.nodes|
      ensures ListAt(g'.nodes[k].freq, g'.lists[k], items[item.key := item], Recorded(m, item.key))
    {
      assert ListAt(g.nodes[k].freq, g.lists[k], items, m);
      assert k > 0 ==> g.nodes[0].freq < g.nodes[k].freq;
      ListAtAdded(g.nodes[k].freq, g.lists[k], items, m, item);
    }
  }

  lemma ListsAddedNode(g: Chain, items: map<Key, ItemNode>, m: State, item: ItemNode, fnode: FreqNode)
    requires Lists(g, items, m) && items.Keys == m.counts.Keys && Wf(m) && fnode.freq == 1
    requires AtCount(m.order, m.counts, 1) == [] && item.key !in m.counts
    requires forall i :: 0 <= i < |g.nodes| ==> g.nodes[i].freq > 1
    ensures Lists(Added(g, item, fnode), items[item.key := item], Recorded(m, item.key))
  {
    hide Wf, Recorded;
    var g' := Added(g, item, fnode);
    assert ListAt(1, [], items, m);
    ListAtAdded(1, [], items, m, item);
    assert [] + [item] == [item];
    hide ListAt;
    forall k | 0 <= k < |g'.nodes|
      ensures ListAt(g'.nodes[k].freq, g'.lists[k], items[item.key := item], Recorded(m, item.key))
    {
      if k > 0 {
        assert ListAt(g.nodes[k - 1].freq, g.lists[k - 1], items, m);
        ListAtAdded(g.nodes[k - 1].freq, g.lists[k - 1], items, m, item);
      }
    }
  }

  lemma AddedCovers(g: Chain, m: State, item: ItemNode, fnode: FreqNode)
    requires Covers(g, m) && |g.nodes| == |g.lists| && fnode.freq == 1
    ensures Covers(Added(g, item, fnode), Recorded(m, item.key))
  {
    var g' := Added(g, item, fnode);
    assert g'.nodes[0].freq == 1;
    forall k | k in Recorded(m, item.key).counts ensures HasFreq(g', Recorded(m, item.key).counts[k]) {
      if k != item.key {
        assert HasFreq(g, m.counts[k]);
        var x :| 0 <= x < |g.nodes| && g.nodes[x].freq == m.counts[k];
        assert g.nodes[x] == g'.nodes[if g'.nodes == g.nodes then x else x + 1];
      }
    }
  }

  lemma AddedNoneEmpty(g: Chain, items: map<Key, ItemNode>, m: State, item: ItemNode, fnode: FreqNode)
    requires Lists(g, items, m) && NoneEmpty(g.lists) && Increasing(g.nodes)
    requires forall i :: 0 <= i < |g.nodes| ==> g.nodes[i].freq >= 1
    ensures |g.nodes| == |g.lists| && NoneEmpty(Added(g, item, fnode).lists)
    ensures g.nodes != [] && g.nodes[0].freq != 1 ==> forall i :: 0 <= i < |g.nodes| ==> g.nodes[i].freq > 1
  {
    hide ListAt;
  }

  lemma AddedRepresents(g: Chain, items: map<Key, ItemNode>, m: State, item: ItemNode, fnode: FreqNode)
    requires Represents(g, items, m) && Wf(m) && Increasing(g.nodes) && fnode.freq == 1
    requires forall i :: 0 <= i < |g.nodes| ==> g.nodes[i].freq >= 1
    requires item.key !in m.counts
    ensures |g.nodes| == |g.lists|
    ensures Represents(Added(g, item, fnode), items[item.key := item], Recorded(m, item.key))
  {
    hide Wf, Lists, Covers, Increasing, NoneEmpty;
    AddedNoneEmpty(g, items, m, item, fnode);
    if g.nodes != [] && g.nodes[0].freq == 1 {
      ListsAddedToFirst(g, items, m, item);
    } else {
      NoneAtOne(g, m);
      ListsAddedNode(g, items, m, item, fnode);
    }
    AddedCovers(g, m, item, fnode);
  }

  /** Every node has a positive frequency, since it lists a recorded key. */
  lemma FreqsPositive(g: Chain, items: map<Key, ItemNode>, m: State)
    requires Represents(g, items, m) && Wf(m)
    ensures forall i :: 0 <= i < |g.nodes| ==> g.nodes[i].freq >= 1
  {
    forall i | 0 <= i < |g.nodes| ensures g.nodes[i].freq >= 1 {
      assert ListAt(g.nodes[i].freq, g.lists[i], items, m);
      FirstIn(KeysOf(g.lists[i]));
    }
  }

  lemma SameKeys(g: Chain, items: map<Key, ItemNode>, m: State)
    requires Represents(g, items, m)
    ensures items.Keys == m.counts.Keys && |items| == |m.counts|
  {
    assert |items.Keys| == |m.counts.Keys|;
  }

  lemma IncrementedSets(g: Chain, i: nat, j: nat, target: FreqNode)
    requires i < |g.nodes| == |g.lists| && j < |g.lists[i]|
    ensures var g' := Incremented(g, i, j, target);
      && g'.nodeSet == (if HasNext(g.nodes, i) then g.nodeSet else g.nodeSet + {target})
      && g'.itemSet == g.itemSet
  {
  }

  lemma IncrFacts(m: State, capacity: nat, key: Key)
    requires Wf(m) && 1 <= capacity && |m.counts| <= capacity
    ensures var m' := Incr(m, capacity, key);
      var room := if |m.counts| == capacity && m.order != [] then Evict(m) else m;
      && Wf(m') && |m'.counts| <= capacity
      && (key in m.counts ==> m' == Bumped(m, key))
      && (key !in m.counts ==> m' == Recorded(room, key) && Wf(room) && key !in room.counts)
      && (|m.counts| == capacity ==> m.order != [])
  {
    IncrWf(m, capacity, key);
    MakeRoomWf(m, capacity);
    assert m.order == [] ==> m.counts.Keys == {};
  }

  lemma ShapeFacts(head: FreqNode?, g: Chain, items: map<Key, ItemNode>, m: State)
    requires Shape(head, g) && Represents(g, items, m)
    ensures Increasing(g.nodes) && |g.nodes| == |g.lists|
  {
  }

  method IncrementKey(key: Key, head: FreqNode?, ghost g: Chain, items: map<Key, ItemNode>, ghost m: State)
    returns (head': FreqNode?, ghost g': Chain)
    requires Shape(head, g) && Represents(g, items, m) && Wf(m) && key in items && key in m.counts
    modifies g.nodeSet, g.itemSet
    ensures Shape(head', g') && Represents(g', items, Bumped(m, key))
    ensures fresh(g'.nodeSet - g.nodeSet) && g'.itemSet == g.itemSet
  {
    hide Wf, Represents, Shape, Increasing, Incremented;
    ShapeFacts(head, g, items, m);
    ghost var i, j := Locate(g, items, m, key);
    ghost var target;
    head', target := Increment(items[key], head, g, i, j);
    g' := Incremented(g, i, j, target);
    IncrementedSets(g, i, j, target);
    IncrementedRepresents(g, items, m, i, j, target);
  }

  lemma EvictedRepresents(head: FreqNode?, g: Chain, items: map<Key, ItemNode>, m: State)
    requires Shape(head, g) && Represents(g, items, m) && Wf(m) && m.order != []
    ensures g.lists != [] && g.lists[0] != [] && |g.nodes| == |g.lists|
    ensures Represents(Tidied(Popped(g), 0), items - {g.lists[0][0].key}, Evict(m))
  {
    assert Wf(Evict(m)) by { EvictWf(m); }
    PoppedRepresents(g, items, m);
    TidiedRepresents(Popped(g), items - {g.lists[0][0].key}, Evict(m), 0);
  }

  method EvictKey(head: FreqNode?, ghost g: Chain, items: map<Key, ItemNode>, ghost m: State)
    returns (head': FreqNode?, ghost g': Chain, items': map<Key, ItemNode>)
    requires Shape(head, g) && Represents(g, items, m) && Wf(m) && m.order != []
    modifies g.nodeSet, g.itemSet
    ensures Shape(head', g') && Represents(g', items', Evict(m))
    ensures g'.nodeSet == g.nodeSet && g'.itemSet == g.itemSet
  {
    hide Wf, Represents, Shape, Evict;
    EvictedRepresents(head, g, items, m);
    var key;
    head', key := EvictFirst(head, g);
    items' := items - {key};
    g' := Tidied(Popped(g), 0);
  }

  method AddKey(item: ItemNode, head: FreqNode?, ghost g: Chain, ghost items: map<Key, ItemNode>, ghost m: State)
    returns (head': FreqNode?, ghost g': Chain)
    requires Shape(head, g) && Represents(g, items, m) && Wf(m)
    requires item.key !in m.counts && item !in g.itemSet && item.prev == null && item.next == null
    modifies g.nodeSet, g.itemSet, item
    ensures Shape(head', g') && Represents(g', items[item.key := item], Recorded(m, item.key))
    ensures fresh(g'.nodeSet - g.nodeSet) && g'.itemSet == g.itemSet + {item}
  {
    hide Wf, Represents, Shape, Increasing;
    ShapeFacts(head, g, items, m);
    FreqsPositive(g, items, m);
    head', g' := Add(item, head, g);
    AddedRepresents(g, items, m, item, head');
  }

  /** The back link of a recorded item leads to its count. */
  lemma ItemFreq(head: FreqNode?, g: Chain, items: map<Key, ItemNode>, m: State, key: Key)
    requires Shape(head, g) && Represents(g, items, m) && Wf(m) && key in items
    ensures items[key] in g.itemSet && items[key].freqNode != null
    ensures key in m.counts && items[key].freqNode.freq == m.counts[key]
  {
    var i, j := Locate(g, items, m, key);
    assert g.nodes[i].Holds(g.lists[i]) && g.lists[i][j] in g.lists[i];
  }

  lemma EmptyChain()
    ensures var g := Chain([], [], {}, {});
      Shape(null, g) && Represents(g, map[], EMPTY) && Wf(EMPTY)
  {
  }

  /**
   The counter. Each operation leaves a well-formed structure that stands for exactly the
   value LfuSpec gives for the same operation.
   */
  class Counter {
    const capacity: nat
    var items: map<Key, ItemNode>
    var freqHead: FreqNode?
    ghost var chain: Chain
    ghost var model: State

    ghost predicate Valid()
      reads this, chain.nodeSet, chain.itemSet
    {
      && capacity <= 255
      && Shape(freqHead, chain)
      && Wf(model) && |model.counts| <= capacity
      && Represents(chain, items, model)
    }

    constructor (capacity: nat)
      requires capacity <= 255
      ensures Valid() && model == EMPTY && this.capacity == capacity
      ensures chain.nodeSet == {} && chain.itemSet == {}
    {
      this.capacity := capacity;
      items, freqHead := map[], null;
      chain, model := Chain([], [], {}, {}), EMPTY;
    }

    method IncrementItem(key: Key)
      requires Valid() && key in items && key in model.counts
      modifies this, chain.nodeSet, chain.itemSet
      ensures Valid() && model == Bumped(old(model), key) && items == old(items)
      ensures fresh(chain.nodeSet - old(chain.nodeSet)) && chain.itemSet == old(chain.itemSet)
    {
      hide Wf, Represents, Shape;
      BumpedWf(model, key);
      freqHead, chain := IncrementKey(key, freqHead, chain, items, model);
      model := Bumped(model, key);
    }

    method EvictItem()
      requires Valid() && model.order != []
      modifies this, chain.nodeSet, chain.itemSet
      ensures Valid() && model == Evict(old(model)) && |model.counts| == |old(model).counts| - 1
      ensures chain.nodeSet == old(chain.nodeSet) && chain.itemSet == old(chain.itemSet)
    {
      hide Wf, Represents, Shape, Evict;
      EvictWf(model);
      freqHead, chain, items := EvictKey(freqHead, chain, items, model);
      model := Evict(model);
    }

    method AddItem(item: ItemNode)
      requires Valid() && |model.counts| < capacity && item.key !in model.counts
      requires item !in chain.itemSet && item.prev == null && item.next == null
      modifies this, chain.nodeSet, chain.itemSet, item
      ensures Valid() && model == Recorded(old(model), item.key)
      ensures fresh(chain.nodeSet - old(chain.nodeSet)) && chain.itemSet == old(chain.itemSet) + {item}
    {
      hide Wf, Represents, Shape;
      RecordedWf(model, item.key);
      freqHead, chain := AddKey(item, freqHead, chain, items, model);
      items := items[item.key := item];
      model := Recorded(model, item.key);
    }

    method AddNew(key: Key)
      requires Valid() && |model.counts| < capacity && key !in model.counts
      modifies this, chain.nodeSet, chain.itemSet
      ensures Valid() && model == Recorded(old(model), key)
      ensures fresh(chain.nodeSet - old(chain.nodeSet)) && fresh(chain.itemSet - old(chain.itemSet))
    {
      hide Wf, Represents, Shape;
      var item := new ItemNode(key);
      AddItem(item);
    }

    /** Counts one more visit of a key. */
    method Incr(key: Key)
      requires Valid() && capacity >= 1
      modifies this, chain.nodeSet, chain.itemSet
      ensures Valid() && model == LfuSpec.Incr(old(model), capacity, key)
      ensures fresh(chain.nodeSet - old(chain.nodeSet)) && fresh(chain.itemSet - old(chain.itemSet))
    {
      hide Wf, Represents, Shape, MakeRoom, Evict, LfuSpec.Incr;
      SameKeys(chain, items, model);
      IncrFacts(model, capacity, key);
      if key in items {
        IncrementItem(key);
        return;
      }
      if |items| % 256 >= capacity {
        EvictItem();
      }
      AddNew(key);
    }

    method Report() returns (res: map<Key, nat>)
      requires Valid()
      ensures res == model.counts
    {
      hide Wf, Represents, Shape;
      SameKeys(chain, items, model);
      res := map[];
      var todo := items.Keys;
      while todo != {}
        invariant Valid() && todo <= items.Keys
        invariant res.Keys == items.Keys - todo
        invariant forall k :: k in res ==> res[k] == model.counts[k]
        decreases todo
      {
        var key :| key in todo;
        ItemFreq(freqHead, chain, items, model, key);
        res := res[key := items[key].freqNode.freq];
        todo := todo - {key};
      }
    }

    /** Reports the visits of each recorded key and starts afresh. */
    method Latch() returns (res: map<Key, nat>)
      requires Valid()
      modifies this
      ensures res == old(model).counts
      ensures Valid() && model == EMPTY
      ensures chain.nodeSet == {} && chain.itemSet == {}
    {
      hide Wf, Represents, Shape;
      res := Report();
      EmptyChain();
      items, freqHead := map[], null;
      chain, model := Chain([], [], {}, {}), EMPTY;
    }
  }
}
