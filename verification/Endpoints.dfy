/** Endpoint lists: how the configuration store edits them and how the controller reads them. */
module Endpoints {

  datatype Address = Address(ip: string, port: nat)
  datatype Endpoint = Endpoint(addr: Address, backup: bool)

  /** Host addresses with whether each is a backup. */
  type Hosts = map<string, bool>

  // ---------- host addresses ----------

  function PortText(n: nat): (s: string)
    ensures s != [] && ':' !in s
  {
    if n < 10 then [('0' as int + n) as char] else PortText(n / 10) + [('0' as int + n % 10) as char]
  }

  function HostAddr(a: Address): string {
    a.ip + ":" + PortText(a.port)
  }

  /** The number that decimal digits stand for. */
  function PortNumber(s: string): int {
    if s == [] then 0 else 10 * PortNumber(s[..|s| - 1]) + (s[|s| - 1] as int - '0' as int)
  }

  /** A port is written as the decimal digits that stand for it, without leading zeros. */
  lemma {:induction false} PortTextIs(n: nat)
    ensures var s := PortText(n);
      && (forall i :: 0 <= i < |s| ==> '0' <= s[i] <= '9')
      && PortNumber(s) == n && (n > 0 ==> s[0] != '0') && (n == 0 ==> s == "0")
  {
    var s := PortText(n);
    if n < 10 {
      assert s[..0] == [];
    } else {
      PortTextIs(n / 10);
      assert s[..|s| - 1] == PortText(n / 10);
    }
  }

  lemma {:induction false} PortTextInjective(m: nat, n: nat)
    requires PortText(m) == PortText(n)
    ensures m == n
  {
    var s, t := PortText(m), PortText(n);
    assert s[|s| - 1] == t[|t| - 1];
    assert (m < 10 <==> |s| == 1) && (n < 10 <==> |t| == 1);
    if m >= 10 {
      assert s[..|s| - 1] == PortText(m / 10) && t[..|t| - 1] == PortText(n / 10);
      PortTextInjective(m / 10, n / 10);
    }
  }

  lemma NoColonAfter(ip: string, port: string)
    requires ':' !in port
    ensures var s := ip + ":" + port; forall j :: |ip| < j < |s| ==> s[j] != ':'
  {
    var s := ip + ":" + port;
    assert forall j :: |ip| < j < |s| ==> s[j] == port[j - |ip| - 1];
  }

  lemma LastColon(ip: string, port: string, ip': string, port': string)
    requires ':' !in port && ':' !in port' && ip + ":" + port == ip' + ":" + port'
    ensures ip == ip' && port == port'
  {
    var s := ip + ":" + port;
    assert s == ip' + ":" + port';
    assert s[|ip|] == ':' && s[|ip'|] == ':';
    NoColonAfter(ip, port);
    NoColonAfter(ip', port');
    assert ip == s[..|ip|] && ip' == s[..|ip'|];
    assert port == s[|ip| + 1..] && port' == s[|ip'| + 1..];
  }

  /** Different addresses never share a host address. */
  lemma HostAddrInjective(a: Address, b: Address)
    requires HostAddr(a) == HostAddr(b)
    ensures a == b
  {
    LastColon(a.ip, PortText(a.port), b.ip, PortText(b.port));
    PortTextInjective(a.port, b.port);
  }

  // ---------- editing ----------

  /** The first endpoint with this address, or the length. */
  function Find(eps: seq<Endpoint>, a: Address): (i: nat)
    ensures i <= |eps|
    ensures i < |eps| ==> eps[i].addr == a
    ensures forall j :: 0 <= j < i ==> eps[j].addr != a
  {
    if eps == [] || eps[0].addr == a then 0 else 1 + Find(eps[1..], a)
  }

  predicate Has(eps: seq<Endpoint>, a: Address) {
    exists i :: 0 <= i < |eps| && eps[i].addr == a
  }

  method IsContainEndpoint(eps: seq<Endpoint>, a: Address) returns (i: nat, found: bool)
    ensures found == Has(eps, a)
    ensures found ==> i < |eps| && i == Find(eps, a)
  {
    i := 0;
    while i < |eps|
      invariant i <= |eps| && forall j :: 0 <= j < i ==> eps[j].addr != a
    {
      if eps[i].addr == a {
        return i, true;
      }
      i := i + 1;
    }
    return 0, false;
  }

  function Remove(eps: seq<Endpoint>, a: Address): seq<Endpoint> {
    var i := Find(eps, a);
    if i < |eps| then eps[..i] + eps[i + 1..] else eps
  }

  /** The list after removing each address in turn, and the removals that took effect. */
  function RemoveEach(eps: seq<Endpoint>, gone: seq<Endpoint>): (seq<Endpoint>, seq<Endpoint>) {
    if gone == [] then (eps, [])
    else
      var e := gone[|gone| - 1];
      var (rest, valid) := RemoveEach(eps, gone[..|gone| - 1]);
      if Has(rest, e.addr) then (Remove(rest, e.addr), valid + [e]) else (rest, valid)
  }

  /** The list after adding each new address in turn, and the additions that took effect. */
  function AddEach(eps: seq<Endpoint>, more: seq<Endpoint>): (seq<Endpoint>, seq<Endpoint>) {
    if more == [] then (eps, [])
    else
      var e := more[|more| - 1];
      var (rest, valid) := AddEach(eps, more[..|more| - 1]);
      if Has(rest, e.addr) then (rest, valid) else (rest + [e], valid + [e])
  }

  /** The host map a list of endpoints stands for. */
  function HostsOf(eps: seq<Endpoint>): Hosts {
    if eps == [] then map[]
    else HostsOf(eps[..|eps| - 1])[HostAddr(eps[|eps| - 1].addr) := eps[|eps| - 1].backup]
  }

  function AddrsOf(eps: seq<Endpoint>): (s: set<string>)
    ensures forall e :: e in eps ==> HostAddr(e.addr) in s
    ensures forall k :: k in s ==> exists e :: e in eps && HostAddr(e.addr) == k
  {
    set e | e in eps :: HostAddr(e.addr)
  }

  // ---------- what the edits do to the hosts ----------

  ghost predicate Unique(eps: seq<Endpoint>) {
    forall i, j :: 0 <= i < j < |eps| ==> eps[i].addr != eps[j].addr
  }

  lemma {:induction false} HostsKeys(eps: seq<Endpoint>)
    ensures HostsOf(eps).Keys == AddrsOf(eps)
  {
    if eps != [] {
      var init, last := eps[..|eps| - 1], eps[|eps| - 1];
      HostsKeys(init);
      assert forall e :: e in eps <==> e in init || e == last;
    }
  }

  lemma {:induction false} HostsConcat(a: seq<Endpoint>, b: seq<Endpoint>)
    ensures HostsOf(a + b) == HostsOf(a) + HostsOf(b)
  {
    if b == [] {
      assert a + b == a;
    } else {
      var init := b[..|b| - 1];
      assert (a + b)[..|a + b| - 1] == a + init;
      HostsConcat(a, init);
    }
  }

  lemma HasAddr(eps: seq<Endpoint>, a: Address)
    ensures Has(eps, a) <==> HostAddr(a) in AddrsOf(eps)
  {
    if HostAddr(a) in AddrsOf(eps) {
      var e :| e in eps && HostAddr(e.addr) == HostAddr(a);
      HostAddrInjective(e.addr, a);
    }
    if Has(eps, a) {
      var i :| 0 <= i < |eps| && eps[i].addr == a;
      assert eps[i] in eps;
    }
  }

  lemma UniqueParts(p: seq<Endpoint>, e: Endpoint, q: seq<Endpoint>)
    requires Unique(p + [e] + q)
    ensures Unique(p + q) && !Has(p, e.addr) && !Has(q, e.addr)
  {
    var s, r := p + [e] + q, p + q;
    assert forall i :: 0 <= i < |r| ==> r[i] == s[if i < |p| then i else i + 1];
    assert forall i :: 0 <= i < |p| ==> p[i] == s[i];
    assert forall i :: 0 <= i < |q| ==> q[i] == s[|p| + 1 + i];
    assert s[|p|] == e;
  }

  lemma RemoveMiddle(p: seq<Endpoint>, e: Endpoint, q: seq<Endpoint>)
    requires !Has(p, e.addr) && !Has(q, e.addr)
    ensures HostsOf(p + q) == HostsOf(p + [e] + q) - {HostAddr(e.addr)}
  {
    hide HostAddr, Has, AddrsOf;
    HostsConcat(p, q);
    HostsConcat(p + [e], q);
    HostsConcat(p, [e]);
    assert HostsOf([e]) == map[HostAddr(e.addr) := e.backup] by { assert [e][..0] == []; }
    HasAddr(p, e.addr);
    HasAddr(q, e.addr);
    HostsKeys(p);
    HostsKeys(q);
    MapDrop(HostsOf(p), HostAddr(e.addr), e.backup, HostsOf(q));
  }

  lemma MapDrop(p: Hosts, k: string, b: bool, q: Hosts)
    requires k !in p && k !in q
    ensures p + q == p + map[k := b] + q - {k}
  {
  }

  lemma RemoveHosts(eps: seq<Endpoint>, a: Address)
    requires Unique(eps)
    ensures Unique(Remove(eps, a)) && HostsOf(Remove(eps, a)) == HostsOf(eps) - {HostAddr(a)}
  {
    hide HostAddr, HostsOf;
    var i := Find(eps, a);
    if i < |eps| {
      var p, q := eps[..i], eps[i + 1..];
      assert eps == p + [eps[i]] + q;
      UniqueParts(p, eps[i], q);
      RemoveMiddle(p, eps[i], q);
    } else {
      HasAddr(eps, a);
      HostsKeys(eps);
      assert HostsOf(eps) - {HostAddr(a)} == HostsOf(eps);
    }
  }

  lemma UniqueAppend(eps: seq<Endpoint>, e: Endpoint)
    requires Unique(eps) && !Has(eps, e.addr)
    ensures Unique(eps + [e])
  {
  }

  lemma AddrsAppend(eps: seq<Endpoint>, e: Endpoint)
    ensures AddrsOf(eps + [e]) == AddrsOf(eps) + {HostAddr(e.addr)}
  {
    assert forall x :: x in eps + [e] <==> x in eps || x == e;
  }

  lemma {:induction false} RemoveEachHosts(eps: seq<Endpoint>, gone: seq<Endpoint>)
    requires Unique(eps)
    ensures var (rest, valid) := RemoveEach(eps, gone);
      && Unique(rest)
      && HostsOf(rest) == HostsOf(eps) - AddrsOf(valid)
      && AddrsOf(valid) == AddrsOf(gone) * AddrsOf(eps)
      && AddrsOf(rest) == AddrsOf(eps) - AddrsOf(gone)
  {
    hide HostsOf, HostAddr, AddrsOf, Unique, Has, Remove;
    if gone == [] {
      NoAddrs(eps);
    } else {
      var init, e := gone[..|gone| - 1], gone[|gone| - 1];
      var (rest, valid) := RemoveEach(eps, init);
      RemoveEachHosts(eps, init);
      assert gone == init + [e];
      AddrsAppend(init, e);
      HasAddr(rest, e.addr);
      RemoveHosts(rest, e.addr);
      HostsKeys(rest);
      HostsKeys(Remove(rest, e.addr));
      AddrsAppend(valid, e);
      MapMinus(HostsOf(eps), AddrsOf(valid), HostAddr(e.addr));
    }
  }

  lemma NoAddrs(eps: seq<Endpoint>)
    ensures AddrsOf([]) == {} && HostsOf(eps) - AddrsOf([]) == HostsOf(eps)
  {
  }

  lemma MapMinus(m: Hosts, s: set<string>, k: string)
    ensures m - s - {k} == m - (s + {k})
  {
  }

  lemma {:induction false} AddEachHosts(eps: seq<Endpoint>, more: seq<Endpoint>)
    requires Unique(eps)
    ensures var (rest, valid) := AddEach(eps, more);
      && rest == eps + valid
      && Unique(rest)
      && HostsOf(rest) == HostsOf(eps) + HostsOf(valid)
      && AddrsOf(rest) == AddrsOf(eps) + AddrsOf(more)
      && AddrsOf(valid) == AddrsOf(more) - AddrsOf(eps)
  {
    hide HostsOf, HostAddr, AddrsOf, Unique, Has;
    if more == [] {
      NoAddrs(eps);
      HostsConcat(eps, []);
      assert eps + [] == eps;
    } else {
      var init, e := more[..|more| - 1], more[|more| - 1];
      var (rest, valid) := AddEach(eps, init);
      AddEachHosts(eps, init);
      assert more == init + [e];
      AddrsAppend(init, e);
      HasAddr(rest, e.addr);
      OneMore(AddrsOf(eps), AddrsOf(init), HostAddr(e.addr));
      if !Has(rest, e.addr) {
        UniqueAppend(rest, e);
        AddrsAppend(rest, e);
        AddrsAppend(valid, e);
        AppendAssoc(eps, valid, e);
        HostsConcat(eps, valid + [e]);
      }
    }
  }

  lemma OneMore(h: set<string>, m: set<string>, k: string)
    ensures k in h + m ==> h + (m + {k}) == h + m && (m + {k}) - h == m - h
    ensures k !in h + m ==> h + (m + {k}) == h + m + {k} && (m + {k}) - h == (m - h) + {k}
  {
  }

  lemma AppendAssoc(a: seq<Endpoint>, b: seq<Endpoint>, e: Endpoint)
    ensures a + b + [e] == a + (b + [e])
  {
  }
}
