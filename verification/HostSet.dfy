/** Hosts, their health flags, and the sorted list of those that take traffic. */
module HostSet {

  type Addr = string

  datatype Kind = Main | Backup

  class Host {
    const addr: Addr
    const kind: Kind
    var isHealthy: bool

    constructor (addr: Addr, kind: Kind)
      ensures this.addr == addr && this.kind == kind && isHealthy
    {
      this.addr, this.kind, isHealthy := addr, kind, true;
    }
  }

  // ---------- the order of addresses ----------

  predicate Less(a: Addr, b: Addr) {
    if b == "" then false
    else if a == "" then true
    else a[0] < b[0] || (a[0] == b[0] && Less(a[1..], b[1..]))
  }

  /** The addresses differ first at k: one ends there and the other goes on, or has the greater character. */
  predicate DiffersAt(a: Addr, b: Addr, k: nat) {
    k <= |a| && k < |b| && a[..k] == b[..k] && (k == |a| || a[k] < b[k])
  }

  lemma FirstDiffers(a: Addr, b: Addr, k: nat)
    requires DiffersAt(a, b, k) && a != "" && b != ""
    ensures if k == 0 then a[0] < b[0] else a[0] == b[0]
  {
    if k > 0 {
      assert a[0] == a[..k][0] == b[..k][0];
    }
  }

  /** The order is that of dictionaries. */
  lemma {:induction false} LessExactly(a: Addr, b: Addr)
    ensures Less(a, b) <==> exists k: nat :: DiffersAt(a, b, k)
  {
    if a != "" && b != "" && a[0] == b[0] {
      LessExactly(a[1..], b[1..]);
      if k: nat :| DiffersAt(a[1..], b[1..], k) {
        assert a[..k + 1] == [a[0]] + a[1..][..k] && b[..k + 1] == [b[0]] + b[1..][..k];
        assert DiffersAt(a, b, k + 1);
      }
      if k: nat :| DiffersAt(a, b, k) {
        assert k > 0;
        assert a[1..][..k - 1] == a[..k][1..] && b[1..][..k - 1] == b[..k][1..];
        assert DiffersAt(a[1..], b[1..], k - 1);
      }
    } else if a != "" && b != "" {
      if k: nat :| DiffersAt(a, b, k) {
        FirstDiffers(a, b, k);
      }
      if a[0] < b[0] {
        assert DiffersAt(a, b, 0);
      }
    } else if b != "" {
      assert DiffersAt(a, b, 0);
    }
  }

  lemma {:induction false} LessTransitive(a: Addr, b: Addr, c: Addr)
    requires Less(a, b) && Less(b, c)
    ensures Less(a, c)
  {
    if a != "" && a[0] == b[0] == c[0] {
      LessTransitive(a[1..], b[1..], c[1..]);
    }
  }

  lemma {:induction false} LessTotal(a: Addr, b: Addr)
    ensures Less(a, b) || a == b || Less(b, a)
  {
    if a != "" && b != "" && a[0] == b[0] {
      LessTotal(a[1..], b[1..]);
      assert a == [a[0]] + a[1..] && b == [b[0]] + b[1..];
    }
  }

  lemma {:induction false} LessStrict(a: Addr, b: Addr)
    requires Less(a, b)
    ensures a != b && !Less(b, a)
  {
    if a != "" && a[0] == b[0] {
      LessStrict(a[1..], b[1..]);
    }
  }

  ghost predicate Ascending(s: seq<Addr>) {
    forall i, j :: 0 <= i < j < |s| ==> Less(s[i], s[j])
  }

  /** Two ascending lists of the same addresses are the same list. */
  lemma {:induction false} AscendingUnique(s: seq<Addr>, t: seq<Addr>)
    requires Ascending(s) && Ascending(t) && forall a :: a in s <==> a in t
    ensures s == t
  {
    assert t != [] ==> t[0] in t;
    if s != [] {
      assert s[0] in t;
      assert t[0] in s;
      FirstSame(s, t);
      forall a ensures a in s[1..] <==> a in t[1..] {
        RestOf(s, a);
        RestOf(t, a);
      }
      AscendingUnique(s[1..], t[1..]);
      assert s == [s[0]] + s[1..] && t == [t[0]] + t[1..];
    }
  }

  lemma FirstSame(s: seq<Addr>, t: seq<Addr>)
    requires Ascending(s) && Ascending(t) && s != [] && t != [] && s[0] in t && t[0] in s
    ensures s[0] == t[0]
  {
    var i :| 0 <= i < |t| && t[i] == s[0];
    var j :| 0 <= j < |s| && s[j] == t[0];
    if i > 0 && j > 0 {
      LessStrict(t[0], t[i]);
    }
  }

  lemma RestOf(s: seq<Addr>, a: Addr)
    requires Ascending(s) && s != []
    ensures a in s[1..] <==> a in s && a != s[0]
  {
    assert s == [s[0]] + s[1..];
    forall i | 1 <= i < |s| ensures s[i] != s[0] {
      LessStrict(s[0], s[i]);
    }
  }

  /** The library's sort, on a set of keys: ascending, with the same keys. */
  method SortKeys(keys: set<Addr>) returns (r: seq<Addr>)
    ensures Ascending(r) && forall a :: a in r <==> a in keys
  {
    r := [];
    var todo := keys;
    while todo != {}
      invariant todo <= keys && Ascending(r) && forall a :: a in r <==> a in keys - todo
    {
      var k :| k in todo;
      var i := 0;
      while i < |r| && Less(r[i], k)
        invariant 0 <= i <= |r| && forall j :: 0 <= j < i ==> Less(r[j], k)
      {
        i := i + 1;
      }
      Squeezed(r, k, i);
      r := r[..i] + [k] + r[i..];
      todo := todo - {k};
    }
  }

  lemma Squeezed(r: seq<Addr>, k: Addr, i: nat)
    requires Ascending(r) && k !in r && i <= |r| && (forall j :: 0 <= j < i ==> Less(r[j], k))
    requires i < |r| ==> !Less(r[i], k)
    ensures Ascending(r[..i] + [k] + r[i..]) && forall a :: a in r[..i] + [k] + r[i..] <==> a in r || a == k
  {
    if i < |r| {
      LessTotal(k, r[i]);
    }
    forall j | i <= j < |r| ensures Less(k, r[j]) {
      if j > i {
        LessTransitive(k, r[i], r[j]);
      }
    }
    assert r == r[..i] + r[i..];
  }

  // ---------- the set as a value ----------

  /** All hosts, the listed ones by kind, and the hosts whose own flag says unhealthy. */
  datatype State = State(all: map<Addr, Host>, main: map<Addr, Host>, backup: map<Addr, Host>, down: set<Host>)

  function Put(m: map<Addr, Host>, hosts: seq<Host>): map<Addr, Host> {
    if hosts == [] then m
    else
      var h := hosts[|hosts| - 1];
      Put(m, hosts[..|hosts| - 1])[h.addr := h]
  }

  function OfKind(hosts: seq<Host>, kind: Kind): seq<Host> {
    if hosts == [] then []
    else
      var h := hosts[|hosts| - 1];
      OfKind(hosts[..|hosts| - 1], kind) + if h.kind == kind then [h] else []
  }

  function Addrs(hosts: seq<Host>): set<Addr> {
    set h | h in hosts :: h.addr
  }

  function ListAll(s: State, hosts: seq<Host>): State {
    s.(main := Put(s.main, OfKind(hosts, Main)), backup := Put(s.backup, OfKind(hosts, Backup)))
  }

  function UnlistAll(s: State, hosts: seq<Host>): State {
    s.(main := s.main - Addrs(OfKind(hosts, Main)), backup := s.backup - Addrs(OfKind(hosts, Backup)))
  }

  function AddHosts(s: State, hosts: seq<Host>): State {
    ListAll(s.(all := Put(s.all, hosts)), hosts)
  }

  function RemoveHosts(s: State, hosts: seq<Host>): State {
    UnlistAll(s.(all := s.all - Addrs(hosts)), hosts)
  }

  function MarkHealthy(s: State, h: Host): State {
    if h !in s.down then s
    else
      var flagged := s.(down := s.down - {h});
      if h.addr in s.all then ListAll(flagged, [h]) else flagged
  }

  function MarkUnhealthy(s: State, h: Host): State {
    if h in s.down then s
    else
      var flagged := s.(down := s.down + {h});
      if h.addr in s.all then UnlistAll(flagged, [h]) else flagged
  }

  /** Every host of the set is removed by its own kind. */
  function Cleared(s: State): State {
    s.(all := map[],
       main := s.main - (set a | a in s.all && s.all[a].kind == Main :: s.all[a].addr),
       backup := s.backup - (set a | a in s.all && s.all[a].kind == Backup :: s.all[a].addr))
  }

  datatype Op =
    | Add(hosts: seq<Host>)
    | Remove(hosts: seq<Host>)
    | ReplaceAll(hosts: seq<Host>)
    | MarkUp(host: Host)
    | MarkDown(host: Host)

  function Apply(s: State, op: Op): State {
    match op
    case Add(hosts) => AddHosts(s, hosts)
    case Remove(hosts) => RemoveHosts(s, hosts)
    case ReplaceAll(hosts) => AddHosts(Cleared(s), hosts)
    case MarkUp(h) => MarkHealthy(s, h)
    case MarkDown(h) => MarkUnhealthy(s, h)
  }

  /** The hosts that take traffic: the main ones, or the backups when no main host is listed. */
  function Selected(s: State): map<Addr, Host> {
    if s.main == map[] then s.backup else s.main
  }

  ghost predicate Keyed(m: map<Addr, Host>) {
    forall a :: a in m ==> m[a].addr == a
  }

  lemma {:induction false} PutKeyed(m: map<Addr, Host>, hosts: seq<Host>)
    requires Keyed(m)
    ensures Keyed(Put(m, hosts))
  {
    if hosts != [] {
      PutKeyed(m, hosts[..|hosts| - 1]);
    }
  }

  lemma PutNext(m: map<Addr, Host>, hosts: seq<Host>, i: nat)
    requires i < |hosts|
    ensures Put(m, hosts[..i + 1]) == Put(m, hosts[..i])[hosts[i].addr := hosts[i]]
  {
    assert hosts[..i + 1][..i] == hosts[..i];
  }

  lemma OfKindNext(hosts: seq<Host>, i: nat, kind: Kind)
    requires i < |hosts|
    ensures OfKind(hosts[..i + 1], kind) == OfKind(hosts[..i], kind) + if hosts[i].kind == kind then [hosts[i]] else []
  {
    assert hosts[..i + 1][..i] == hosts[..i];
  }

  lemma PutLast(m: map<Addr, Host>, hosts: seq<Host>, h: Host)
    ensures Put(m, hosts + [h]) == Put(m, hosts)[h.addr := h]
    ensures Addrs(hosts + [h]) == Addrs(hosts) + {h.addr}
  {
    assert (hosts + [h])[..|hosts|] == hosts;
    assert forall x :: x in hosts + [h] <==> x in hosts || x == h;
  }

  lemma ListNothing(s: State)
    ensures ListAll(s, []) == s && UnlistAll(s, []) == s
  {
  }

  lemma ListNext(s: State, hosts: seq<Host>, i: nat)
    requires i < |hosts|
    ensures var before, h := ListAll(s, hosts[..i]), hosts[i];
            ListAll(s, hosts[..i + 1]) == match h.kind
                                          case Main => before.(main := before.main[h.addr := h])
                                          case Backup => before.(backup := before.backup[h.addr := h])
  {
    hide Put, OfKind;
    OfKindNext(hosts, i, Main);
    OfKindNext(hosts, i, Backup);
    assert OfKind(hosts[..i], Main) + [] == OfKind(hosts[..i], Main);
    assert OfKind(hosts[..i], Backup) + [] == OfKind(hosts[..i], Backup);
    PutLast(s.main, OfKind(hosts[..i], Main), hosts[i]);
    PutLast(s.backup, OfKind(hosts[..i], Backup), hosts[i]);
  }

  lemma UnlistNext(s: State, hosts: seq<Host>, i: nat)
    requires i < |hosts|
    ensures var before, h := UnlistAll(s, hosts[..i]), hosts[i];
            UnlistAll(s, hosts[..i + 1]) == match h.kind
                                            case Main => before.(main := before.main - {h.addr})
                                            case Backup => before.(backup := before.backup - {h.addr})
  {
    hide Put, OfKind, Addrs;
    OfKindNext(hosts, i, Main);
    OfKindNext(hosts, i, Backup);
    assert OfKind(hosts[..i], Main) + [] == OfKind(hosts[..i], Main);
    assert OfKind(hosts[..i], Backup) + [] == OfKind(hosts[..i], Backup);
    PutLast(map[], OfKind(hosts[..i], Main), hosts[i]);
    PutLast(map[], OfKind(hosts[..i], Backup), hosts[i]);
  }

  lemma ListKeyed(s: State, hosts: seq<Host>)
    requires Keyed(s.main) && Keyed(s.backup)
    ensures Keyed(ListAll(s, hosts).main) && Keyed(ListAll(s, hosts).backup) && ListAll(s, hosts).all == s.all
  {
    PutKeyed(s.main, OfKind(hosts, Main));
    PutKeyed(s.backup, OfKind(hosts, Backup));
  }

  lemma UnlistKeyed(s: State, hosts: seq<Host>)
    requires Keyed(s.main) && Keyed(s.backup)
    ensures Keyed(UnlistAll(s, hosts).main) && Keyed(UnlistAll(s, hosts).backup) && UnlistAll(s, hosts).all == s.all
  {
  }

  ghost predicate Listing(cache: seq<Host>, m: map<Addr, Host>) {
    && Ascending(seq(|cache|, i requires 0 <= i < |cache| => cache[i].addr))
    && (forall i :: 0 <= i < |cache| ==> cache[i].addr in m && m[cache[i].addr] == cache[i])
    && (forall a :: a in m ==> exists i :: 0 <= i < |cache| && cache[i].addr == a)
  }

  class Set {
    var all: map<Addr, Host>
    var healthyMain: map<Addr, Host>
    var healthyBackup: map<Addr, Host>
    var healthyCache: seq<Host>
    ghost var down: set<Host>

    ghost function Model(): State
      reads this
    {
      State(all, healthyMain, healthyBackup, down)
    }

    /** Keys are the hosts' own addresses, and the cache lists what is selected. */
    ghost predicate Valid()
      reads this
    {
      Keyed(all) && Keyed(healthyMain) && Keyed(healthyBackup) && Listing(healthyCache, Selected(Model()))
    }

    /** The flags of the given hosts are those on record. */
    ghost predicate Flags(hosts: set<Host>)
      reads this, hosts
    {
      forall h :: h in hosts ==> (h.isHealthy <==> h !in down)
    }

    constructor ()
      ensures Valid() && Model() == State(map[], map[], map[], {}) && healthyCache == []
    {
      all, healthyMain, healthyBackup, healthyCache, down := map[], map[], map[], [], {};
    }

    method BuildHealthyCache()
      requires Keyed(all) && Keyed(healthyMain) && Keyed(healthyBackup)
      modifies this`healthyCache
      ensures Valid()
    {
      hide Listing, Ascending;
      var hostMap := healthyMain;
      if |hostMap| == 0 {
        hostMap := healthyBackup;
      }
      var keys := SortKeys(hostMap.Keys);
      var hosts: seq<Host> := [];
      var i := 0;
      while i < |keys|
        invariant 0 <= i <= |keys| && |hosts| == i
        invariant forall j :: 0 <= j < i ==> hosts[j] == hostMap[keys[j]]
      {
        hosts := hosts + [hostMap[keys[i]]];
        i := i + 1;
      }
      SortedListing(hosts, keys, hostMap);
      healthyCache := hosts;
    }

    method AddToHealthy(hosts: seq<Host>)
      requires Valid()
      modifies this
      ensures Valid() && Model() == ListAll(old(Model()), hosts)
    {
      hide Listing, ListAll;
      ghost var was := Model();
      ListNothing(was);
      if |hosts| == 0 {
        assert hosts == [];
        return;
      }
      assert hosts[..0] == [];
      var i := 0;
      while i < |hosts|
        invariant 0 <= i <= |hosts| && Model() == ListAll(was, hosts[..i])
      {
        var h := hosts[i];
        ListNext(was, hosts, i);
        match h.kind {
          case Main => healthyMain := healthyMain[h.addr := h];
          case Backup => healthyBackup := healthyBackup[h.addr := h];
        }
        i := i + 1;
      }
      assert hosts[..i] == hosts;
      ListKeyed(was, hosts);
      BuildHealthyCache();
    }

    method RemoveFromHealthy(hosts: seq<Host>)
      requires Valid()
      modifies this
      ensures Valid() && Model() == UnlistAll(old(Model()), hosts)
    {
      hide Listing, UnlistAll;
      ghost var was := Model();
      ListNothing(was);
      if |hosts| == 0 {
        assert hosts == [];
        return;
      }
      assert hosts[..0] == [];
      var i := 0;
      while i < |hosts|
        invariant 0 <= i <= |hosts| && Model() == UnlistAll(was, hosts[..i])
      {
        var h := hosts[i];
        UnlistNext(was, hosts, i);
        match h.kind {
          case Main => healthyMain := healthyMain - {h.addr};
          case Backup => healthyBackup := healthyBackup - {h.addr};
        }
        i := i + 1;
      }
      assert hosts[..i] == hosts;
      UnlistKeyed(was, hosts);
      BuildHealthyCache();
    }

    method Add(hosts: seq<Host>)
      requires Valid()
      modifies this
      ensures Valid() && Model() == AddHosts(old(Model()), hosts)
    {
      hide Listing;
      var i := 0;
      while i < |hosts|
        invariant 0 <= i <= |hosts| && Valid()
        invariant Model() == old(Model()).(all := Put(old(all), hosts[..i]))
      {
        PutNext(old(all), hosts, i);
        PutKeyed(old(all), hosts[..i + 1]);
        all := all[hosts[i].addr := hosts[i]];
        i := i + 1;
      }
      assert hosts[..i] == hosts;
      AddToHealthy(hosts);
    }

    method Remove(hosts: seq<Host>)
      requires Valid()
      modifies this
      ensures Valid() && Model() == RemoveHosts(old(Model()), hosts)
    {
      hide Listing, Addrs, UnlistAll, Keyed;
      var i := 0;
      RemoveNone(all);
      while i < |hosts|
        invariant 0 <= i <= |hosts| && Valid()
        invariant Model() == old(Model()).(all := old(all) - Addrs(hosts[..i]))
      {
        assert hosts[..i + 1] == hosts[..i] + [hosts[i]];
        PutLast(map[], hosts[..i], hosts[i]);
        Minus(old(all), Addrs(hosts[..i]), hosts[i].addr);
        Minus(all, {hosts[i].addr}, hosts[i].addr);
        all := all - {hosts[i].addr};
        i := i + 1;
      }
      assert hosts[..i] == hosts;
      RemoveFromHealthy(hosts);
    }

    method ReplaceAll(hosts: seq<Host>)
      requires Valid()
      modifies this
      ensures Valid() && Model() == AddHosts(Cleared(old(Model())), hosts)
    {
      hide Listing;
      ghost var was := Model();
      ghost var gone: set<Addr> := {};
      ClearNothing(was);
      while all != map[]
        invariant Valid() && gone <= was.all.Keys
        invariant Model() == ClearedOf(was, gone)
        decreases |all|
      {
        var a :| a in all;
        ghost var before := Model();
        Remove([all[a]]);
        ClearOne(was, gone, a);
        gone := gone + {a};
      }
      ClearAll(was, gone);
      Add(hosts);
    }

    /** The first half of a mark, on the host alone: its flag is swapped unless it says healthy already. */
    method SwapHealthy(host: Host, ghost hosts: set<Host>) returns (swapped: bool)
      requires Valid() && host in hosts && Flags(hosts)
      modifies this`down, host
      ensures Valid() && Flags(hosts) && Model() == old(Model()).(down := old(down) - {host})
      ensures swapped <==> host in old(down)
    {
      swapped := !host.isHealthy;
      host.isHealthy := true;
      down := down - {host};
    }

    method SwapUnhealthy(host: Host, ghost hosts: set<Host>) returns (swapped: bool)
      requires Valid() && host in hosts && Flags(hosts)
      modifies this`down, host
      ensures Valid() && Flags(hosts) && Model() == old(Model()).(down := old(down) + {host})
      ensures swapped <==> host !in old(down)
    {
      swapped := host.isHealthy;
      host.isHealthy := false;
      down := down + {host};
    }

    /** The second half, under the lock: the host is listed if its address is a member. */
    method LandHealthy(host: Host) returns (ok: bool)
      requires Valid()
      modifies this
      ensures Valid() && ok == (host.addr in old(all))
      ensures Model() == if ok then ListAll(old(Model()), [host]) else old(Model())
      ensures down == old(down) && all == old(all)
    {
      hide Listing;
      if host.addr !in all {
        return false;
      }
      AddToHealthy([host]);
      return true;
    }

    method LandUnhealthy(host: Host) returns (ok: bool)
      requires Valid()
      modifies this
      ensures Valid() && ok == (host.addr in old(all))
      ensures Model() == if ok then UnlistAll(old(Model()), [host]) else old(Model())
      ensures down == old(down) && all == old(all)
    {
      hide Listing;
      if host.addr !in all {
        return false;
      }
      RemoveFromHealthy([host]);
      return true;
    }

    /** Both halves with nothing in between. */
    method MarkHostHealthy(host: Host, ghost hosts: set<Host>) returns (ok: bool)
      requires Valid() && host in hosts && Flags(hosts)
      modifies this, host
      ensures Valid() && Flags(hosts) && Model() == MarkHealthy(old(Model()), host)
      ensures ok <==> old(!host.isHealthy) && host.addr in all
    {
      hide Listing, ListAll;
      assert host.isHealthy <==> host !in down;
      var swapped := SwapHealthy(host, hosts);
      if !swapped {
        assert old(down) - {host} == old(down);
        return false;
      }
      ok := LandHealthy(host);
    }

    method MarkHostUnhealthy(host: Host, ghost hosts: set<Host>) returns (ok: bool)
      requires Valid() && host in hosts && Flags(hosts)
      modifies this, host
      ensures Valid() && Flags(hosts) && Model() == MarkUnhealthy(old(Model()), host)
      ensures ok <==> old(host.isHealthy) && host.addr in all
    {
      hide Listing, UnlistAll;
      assert host.isHealthy <==> host !in down;
      var swapped := SwapUnhealthy(host, hosts);
      if !swapped {
        assert old(down) + {host} == old(down);
        return false;
      }
      ok := LandUnhealthy(host);
    }

    method Healthy() returns (hosts: seq<Host>)
      requires Valid()
      ensures Listing(hosts, Selected(Model()))
    {
      hosts := healthyCache;
    }
  }

  lemma SortedListing(hosts: seq<Host>, keys: seq<Addr>, m: map<Addr, Host>)
    requires Keyed(m) && Ascending(keys) && (forall a :: a in keys <==> a in m)
    requires |hosts| == |keys| && forall j :: 0 <= j < |keys| ==> keys[j] in m && hosts[j] == m[keys[j]]
    ensures Listing(hosts, m)
  {
    assert seq(|hosts|, i requires 0 <= i < |hosts| => hosts[i].addr) == keys;
    forall a | a in m ensures exists i :: 0 <= i < |hosts| && hosts[i].addr == a {
      var i :| 0 <= i < |keys| && keys[i] == a;
      assert hosts[i].addr == a;
    }
  }

  // ---------- clearing one by one ----------

  ghost function KindAddrs(all: map<Addr, Host>, gone: set<Addr>, kind: Kind): set<Addr> {
    set a | a in gone && a in all && all[a].kind == kind :: all[a].addr
  }

  ghost function ClearedOf(s: State, gone: set<Addr>): State {
    s.(all := s.all - gone,
       main := s.main - KindAddrs(s.all, gone, Main),
       backup := s.backup - KindAddrs(s.all, gone, Backup))
  }

  lemma ClearNothing(s: State)
    ensures ClearedOf(s, {}) == s
  {
  }

  lemma Minus(m: map<Addr, Host>, gone: set<Addr>, a: Addr)
    ensures (m - gone) - {a} == m - (gone + {a})
    ensures Keyed(m) ==> Keyed(m - gone)
  {
  }

  lemma RemoveNone(m: map<Addr, Host>)
    ensures m - Addrs([]) == m
  {
  }

  lemma RemoveOne(s: State, h: Host)
    ensures RemoveHosts(s, [h]) == s.(all := s.all - {h.addr},
                                      main := if h.kind == Main then s.main - {h.addr} else s.main,
                                      backup := if h.kind == Backup then s.backup - {h.addr} else s.backup)
  {
    OneOfKind(h);
    assert Addrs([h]) == {h.addr};
    assert Addrs([]) == {};
  }

  lemma KindAddrsNext(all: map<Addr, Host>, gone: set<Addr>, a: Addr, kind: Kind)
    requires Keyed(all) && a in all
    ensures KindAddrs(all, gone + {a}, kind) == KindAddrs(all, gone, kind) + if all[a].kind == kind then {a} else {}
  {
  }

  lemma ClearOne(s: State, gone: set<Addr>, a: Addr)
    requires Keyed(s.all) && a in s.all
    ensures RemoveHosts(ClearedOf(s, gone), [s.all[a]]) == ClearedOf(s, gone + {a})
  {
    hide RemoveHosts, KindAddrs;
    var h := s.all[a];
    RemoveOne(ClearedOf(s, gone), h);
    KindAddrsNext(s.all, gone, a, Main);
    KindAddrsNext(s.all, gone, a, Backup);
    Minus(s.all, gone, a);
    Minus(s.main, KindAddrs(s.all, gone, Main), a);
    Minus(s.backup, KindAddrs(s.all, gone, Backup), a);
    assert KindAddrs(s.all, gone, Main) + {} == KindAddrs(s.all, gone, Main);
    assert KindAddrs(s.all, gone, Backup) + {} == KindAddrs(s.all, gone, Backup);
  }

  lemma OneOfKind(h: Host)
    ensures forall kind :: OfKind([h], kind) == if h.kind == kind then [h] else []
  {
    assert [h][..0] == [];
  }

  lemma ClearAll(s: State, gone: set<Addr>)
    requires gone <= s.all.Keys && s.all - gone == map[]
    ensures ClearedOf(s, gone) == Cleared(s)
  {
    assert forall a :: a in s.all && a !in gone ==> a in s.all - gone;
    assert KindAddrs(s.all, gone, Main) == (set a | a in s.all && s.all[a].kind == Main :: s.all[a].addr);
    assert KindAddrs(s.all, gone, Backup) == (set a | a in s.all && s.all[a].kind == Backup :: s.all[a].addr);
  }
}
