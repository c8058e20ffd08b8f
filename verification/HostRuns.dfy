/** What the list of healthy hosts means over any series of calls. */
module HostRuns {
  import opened Basics
  import opened HostSet

  /**
   The addresses that are up: added, and since then not marked down with effect. This is what
   the calls amount to, told without the two maps.
   */
  function UpAfter(s: State, up: set<Addr>, op: Op): set<Addr> {
    match op
    case Add(hosts) => up + Addrs(hosts)
    case Remove(hosts) => up - Addrs(hosts)
    case ReplaceAll(hosts) => Addrs(hosts)
    case MarkUp(h) => if h in s.down && h.addr in s.all then up + {h.addr} else up
    case MarkDown(h) => if h !in s.down && h.addr in s.all then up - {h.addr} else up
  }

  /** One of the two maps lists exactly the members of its kind that are up. */
  ghost predicate Right(m: map<Addr, Host>, all: map<Addr, Host>, up: set<Addr>, kind: Kind) {
    && Keyed(m)
    && (forall a :: a in m <==> a in up && a in all && all[a].kind == kind)
  }

  ghost predicate Agrees(s: State, up: set<Addr>) {
    && Keyed(s.all) && up <= s.all.Keys
    && Right(s.main, s.all, up, Main) && Right(s.backup, s.all, up, Backup)
  }

  // ---------- single steps ----------

  lemma AddOne(s: State, h: Host)
    ensures AddHosts(s, [h]) == s.(all := s.all[h.addr := h],
                                   main := if h.kind == Main then s.main[h.addr := h] else s.main,
                                   backup := if h.kind == Backup then s.backup[h.addr := h] else s.backup)
  {
    OneOfKind(h);
    PutOne(s.all, h);
    PutOne(s.main, h);
    PutOne(s.backup, h);
  }

  lemma PutOne(m: map<Addr, Host>, h: Host)
    ensures Put(m, [h]) == m[h.addr := h] && Put(m, []) == m
  {
    assert [h][..0] == [];
  }

  lemma AddrsOne(h: Host)
    ensures Addrs([h]) == {h.addr}
  {
  }

  /** The guard under which a call on one host keeps the maps right: the host has the listed kind. */
  predicate SameKind(s: State, up: set<Addr>, op: Op, h: Host) {
    match op
    case MarkUp(_) => h in s.down && h.addr in s.all ==> s.all[h.addr].kind == h.kind
    case MarkDown(_) => h !in s.down && h.addr in up && h.addr in s.all ==> s.all[h.addr].kind == h.kind
    case _ => h.addr in up && h.addr in s.all ==> s.all[h.addr].kind == h.kind
  }

  lemma AddAgreesIff(s: State, up: set<Addr>, h: Host)
    requires Agrees(s, up)
    ensures Agrees(Apply(s, Add([h])), UpAfter(s, up, Add([h]))) <==> SameKind(s, up, Add([h]), h)
  {
    hide AddHosts;
    AddOne(s, h);
    AddrsOne(h);
    var t := Apply(s, Add([h]));
    if !SameKind(s, up, Add([h]), h) {
      assert h.addr in t.main && h.addr in t.backup;
    }
  }

  lemma RemoveAgreesIff(s: State, up: set<Addr>, h: Host)
    requires Agrees(s, up)
    ensures Agrees(Apply(s, Remove([h])), UpAfter(s, up, Remove([h]))) <==> SameKind(s, up, Remove([h]), h)
  {
    hide RemoveHosts;
    RemoveOne(s, h);
    AddrsOne(h);
    var t := Apply(s, Remove([h]));
    if !SameKind(s, up, Remove([h]), h) {
      assert h.addr in t.main || h.addr in t.backup;
    }
  }

  lemma MarkUpAgreesIff(s: State, up: set<Addr>, h: Host)
    requires Agrees(s, up)
    ensures Agrees(Apply(s, MarkUp(h)), UpAfter(s, up, MarkUp(h))) <==> SameKind(s, up, MarkUp(h), h)
  {
    hide ListAll;
    ListOne(s.(down := s.down - {h}), h);
    var t := Apply(s, MarkUp(h));
    if !SameKind(s, up, MarkUp(h), h) {
      assert h.addr in if h.kind == Main then t.main else t.backup;
    }
  }

  lemma MarkDownAgreesIff(s: State, up: set<Addr>, h: Host)
    requires Agrees(s, up)
    ensures Agrees(Apply(s, MarkDown(h)), UpAfter(s, up, MarkDown(h))) <==> SameKind(s, up, MarkDown(h), h)
  {
    hide UnlistAll;
    UnlistOne(s.(down := s.down + {h}), h);
    var t := Apply(s, MarkDown(h));
    if !SameKind(s, up, MarkDown(h), h) {
      assert h.addr in t.main || h.addr in t.backup;
    }
  }

  lemma ListOne(s: State, h: Host)
    ensures ListAll(s, [h]) == s.(main := if h.kind == Main then s.main[h.addr := h] else s.main,
                                  backup := if h.kind == Backup then s.backup[h.addr := h] else s.backup)
  {
    OneOfKind(h);
    PutOne(s.main, h);
    PutOne(s.backup, h);
  }

  lemma UnlistOne(s: State, h: Host)
    ensures UnlistAll(s, [h]) == s.(main := if h.kind == Main then s.main - {h.addr} else s.main,
                                    backup := if h.kind == Backup then s.backup - {h.addr} else s.backup)
  {
    OneOfKind(h);
    AddrsOne(h);
    assert Addrs([]) == {};
  }

  /** A host that comes back under another kind leaves a listed address that is no member any more. */
  lemma KindChangeLeavesStranger(main: Host, backup: Host)
    requires main.addr == backup.addr && main.kind == Main && backup.kind == Backup
    ensures var s0 := State(map[], map[], map[], {});
            var s := Apply(Apply(Apply(s0, Add([main])), Add([backup])), Remove([backup]));
            main.addr in Selected(s) && main.addr !in s.all
  {
    hide AddHosts, RemoveHosts;
    var s0 := State(map[], map[], map[], {});
    AddOne(s0, main);
    var s1 := AddHosts(s0, [main]);
    AddOne(s1, backup);
    RemoveOne(AddHosts(s1, [backup]), backup);
  }

  // ---------- calls on many hosts are calls on one after another ----------

  lemma AddSplits(s: State, hosts: seq<Host>, k: nat)
    requires k < |hosts|
    ensures AddHosts(s, hosts[..k + 1]) == AddHosts(AddHosts(s, hosts[..k]), [hosts[k]])
  {
    hide Put, OfKind;
    var before := AddHosts(s, hosts[..k]);
    AddOne(before, hosts[k]);
    PutNext(s.all, hosts, k);
    ListNext(s.(all := Put(s.all, hosts[..k])), hosts, k);
  }

  lemma RemoveSplits(s: State, hosts: seq<Host>, k: nat)
    requires k < |hosts|
    ensures RemoveHosts(s, hosts[..k + 1]) == RemoveHosts(RemoveHosts(s, hosts[..k]), [hosts[k]])
  {
    hide OfKind, Addrs;
    var before := RemoveHosts(s, hosts[..k]);
    RemoveOne(before, hosts[k]);
    AddrsNext(hosts, k);
    Minus(s.all, Addrs(hosts[..k]), hosts[k].addr);
    UnlistNext(s.(all := s.all - Addrs(hosts[..k])), hosts, k);
  }

  lemma AddrsNext(hosts: seq<Host>, k: nat)
    requires k < |hosts|
    ensures Addrs(hosts[..k + 1]) == Addrs(hosts[..k]) + {hosts[k].addr}
  {
    assert hosts[..k + 1] == hosts[..k] + [hosts[k]];
  }

  // ---------- each address carries one kind ----------

  ghost predicate HostsFit(hosts: seq<Host>, kindOf: Addr -> Kind) {
    forall i :: 0 <= i < |hosts| ==> hosts[i].kind == kindOf(hosts[i].addr)
  }

  ghost predicate Fits(op: Op, kindOf: Addr -> Kind) {
    match op
    case MarkUp(h) => h.kind == kindOf(h.addr)
    case MarkDown(h) => h.kind == kindOf(h.addr)
    case _ => HostsFit(op.hosts, kindOf)
  }

  ghost predicate Sound(s: State, up: set<Addr>, kindOf: Addr -> Kind) {
    Agrees(s, up) && forall a :: a in s.all ==> s.all[a].kind == kindOf(a)
  }

  lemma AddOneSound(s: State, up: set<Addr>, h: Host, kindOf: Addr -> Kind)
    requires Sound(s, up, kindOf) && h.kind == kindOf(h.addr)
    ensures Sound(AddHosts(s, [h]), up + {h.addr}, kindOf)
  {
    hide AddHosts, Right;
    AddAgreesIff(s, up, h);
    AddOne(s, h);
    AddrsOne(h);
  }

  lemma RemoveOneSound(s: State, up: set<Addr>, h: Host, kindOf: Addr -> Kind)
    requires Sound(s, up, kindOf) && h.kind == kindOf(h.addr)
    ensures Sound(RemoveHosts(s, [h]), up - {h.addr}, kindOf)
  {
    hide RemoveHosts, Right;
    RemoveAgreesIff(s, up, h);
    RemoveOne(s, h);
    AddrsOne(h);
  }

  lemma {:induction false} AddSound(s: State, up: set<Addr>, hosts: seq<Host>, k: nat, kindOf: Addr -> Kind)
    requires Sound(s, up, kindOf) && HostsFit(hosts, kindOf) && k <= |hosts|
    ensures Sound(AddHosts(s, hosts[..k]), up + Addrs(hosts[..k]), kindOf)
  {
    hide AddHosts, Sound, Addrs;
    if k == 0 {
      AddNone(s, up, hosts);
    } else {
      AddSound(s, up, hosts, k - 1, kindOf);
      AddOneSound(AddHosts(s, hosts[..k - 1]), up + Addrs(hosts[..k - 1]), hosts[k - 1], kindOf);
      AddSplits(s, hosts, k - 1);
      AddrsNext(hosts, k - 1);
      assert up + Addrs(hosts[..k - 1]) + {hosts[k - 1].addr} == up + Addrs(hosts[..k]);
    }
  }

  lemma AddNone(s: State, up: set<Addr>, hosts: seq<Host>)
    ensures AddHosts(s, hosts[..0]) == s && up + Addrs(hosts[..0]) == up
    ensures RemoveHosts(s, hosts[..0]) == s && up - Addrs(hosts[..0]) == up
  {
    assert hosts[..0] == [];
    ListNothing(s);
    assert s.all - {} == s.all;
  }

  lemma {:induction false} RemoveSound(s: State, up: set<Addr>, hosts: seq<Host>, k: nat, kindOf: Addr -> Kind)
    requires Sound(s, up, kindOf) && HostsFit(hosts, kindOf) && k <= |hosts|
    ensures Sound(RemoveHosts(s, hosts[..k]), up - Addrs(hosts[..k]), kindOf)
  {
    hide RemoveHosts, Sound, Addrs;
    if k == 0 {
      AddNone(s, up, hosts);
    } else {
      RemoveSound(s, up, hosts, k - 1, kindOf);
      RemoveOneSound(RemoveHosts(s, hosts[..k - 1]), up - Addrs(hosts[..k - 1]), hosts[k - 1], kindOf);
      RemoveSplits(s, hosts, k - 1);
      AddrsNext(hosts, k - 1);
      assert up - Addrs(hosts[..k - 1]) - {hosts[k - 1].addr} == up - Addrs(hosts[..k]);
    }
  }

  lemma ClearedSound(s: State, up: set<Addr>, kindOf: Addr -> Kind)
    requires Sound(s, up, kindOf)
    ensures Sound(Cleared(s), {}, kindOf)
  {
    var t := Cleared(s);
    forall a ensures a !in t.main && a !in t.backup {
      if a in s.all {
        assert s.all[a].addr == a;
      }
    }
  }

  lemma StepSound(s: State, up: set<Addr>, op: Op, kindOf: Addr -> Kind)
    requires Sound(s, up, kindOf) && Fits(op, kindOf)
    ensures Sound(Apply(s, op), UpAfter(s, up, op), kindOf)
  {
    hide AddHosts, RemoveHosts, Cleared, Addrs, Agrees;
    match op {
      case Add(hosts) =>
        AddSound(s, up, hosts, |hosts|, kindOf);
        assert hosts[..|hosts|] == hosts;
      case Remove(hosts) =>
        RemoveSound(s, up, hosts, |hosts|, kindOf);
        assert hosts[..|hosts|] == hosts;
      case ReplaceAll(hosts) =>
        ClearedSound(s, up, kindOf);
        AddSound(Cleared(s), {}, hosts, |hosts|, kindOf);
        assert hosts[..|hosts|] == hosts && {} + Addrs(hosts) == Addrs(hosts);
      case MarkUp(h) =>
        MarkUpAgreesIff(s, up, h);
      case MarkDown(h) =>
        MarkDownAgreesIff(s, up, h);
    }
  }

  function Run(ops: seq<Op>): State {
    if ops == [] then State(map[], map[], map[], {}) else Apply(Run(ops[..|ops| - 1]), ops[|ops| - 1])
  }

  function UpRun(ops: seq<Op>): set<Addr> {
    if ops == [] then {} else UpAfter(Run(ops[..|ops| - 1]), UpRun(ops[..|ops| - 1]), ops[|ops| - 1])
  }

  lemma {:induction false} RunSound(ops: seq<Op>, kindOf: Addr -> Kind)
    requires forall i :: 0 <= i < |ops| ==> Fits(ops[i], kindOf)
    ensures Sound(Run(ops), UpRun(ops), kindOf)
  {
    hide Apply, UpAfter, Fits;
    if ops == [] {
      NothingSound(kindOf);
    } else {
      RunSound(ops[..|ops| - 1], kindOf);
      StepSound(Run(ops[..|ops| - 1]), UpRun(ops[..|ops| - 1]), ops[|ops| - 1], kindOf);
    }
  }

  lemma NothingSound(kindOf: Addr -> Kind)
    ensures Sound(State(map[], map[], map[], {}), {}, kindOf)
  {
  }

  /** The last of the hosts with the address. */
  function LastWith(hosts: seq<Host>, a: Addr): Option<Host> {
    if hosts == [] then None
    else if hosts[|hosts| - 1].addr == a then Some(hosts[|hosts| - 1])
    else LastWith(hosts[..|hosts| - 1], a)
  }

  /** The member of an address, by the calls alone: the host last added with it, unless it was removed since. */
  function MemberAfter(ops: seq<Op>, a: Addr): Option<Host> {
    if ops == [] then None
    else
      var before, op := MemberAfter(ops[..|ops| - 1], a), ops[|ops| - 1];
      match op
      case Add(hosts) => if LastWith(hosts, a).Some? then LastWith(hosts, a) else before
      case Remove(hosts) => if LastWith(hosts, a).Some? then None else before
      case ReplaceAll(hosts) => LastWith(hosts, a)
      case _ => before
  }

  lemma {:induction false} PutLooks(m: map<Addr, Host>, hosts: seq<Host>, a: Addr)
    ensures a in Put(m, hosts) <==> LastWith(hosts, a).Some? || a in m
    ensures a in Put(m, hosts) ==>
      Put(m, hosts)[a] == if LastWith(hosts, a).Some? then LastWith(hosts, a).value else m[a]
    ensures a in Addrs(hosts) <==> LastWith(hosts, a).Some?
  {
    if hosts != [] {
      PutLooks(m, hosts[..|hosts| - 1], a);
      assert hosts == hosts[..|hosts| - 1] + [hosts[|hosts| - 1]];
    }
  }

  /** The members after any calls are those that the calls leave. */
  lemma {:induction false} MembersExactly(ops: seq<Op>, a: Addr)
    ensures MemberAfter(ops, a) == if a in Run(ops).all then Some(Run(ops).all[a]) else None
  {
    hide Put, Addrs, OfKind;
    if ops != [] {
      MembersExactly(ops[..|ops| - 1], a);
      var op, s := ops[|ops| - 1], Run(ops[..|ops| - 1]);
      match op {
        case Add(hosts) => PutLooks(s.all, hosts, a);
        case Remove(hosts) => PutLooks(s.all, hosts, a);
        case ReplaceAll(hosts) => PutLooks(map[], hosts, a);
        case MarkUp(_) =>
        case MarkDown(_) =>
      }
    }
  }

  /** The kind that takes traffic. */
  ghost predicate Takes(s: State, up: set<Addr>, kind: Kind) {
    kind == if exists a :: a in up && a in s.all && s.all[a].kind == Main then Main else Backup
  }

  /**
   After any calls in which each address keeps its kind, the list is, in order of address, the main
   hosts that are up, or the backups that are up when no main host is; all of them are members.
   */
  lemma HealthyList(ops: seq<Op>, kindOf: Addr -> Kind, cache: seq<Host>, kind: Kind)
    requires forall i :: 0 <= i < |ops| ==> Fits(ops[i], kindOf)
    requires Listing(cache, Selected(Run(ops))) && Takes(Run(ops), UpRun(ops), kind)
    ensures Ascending(seq(|cache|, i requires 0 <= i < |cache| => cache[i].addr))
    ensures forall i :: 0 <= i < |cache| ==> cache[i].addr in Run(ops).all
    ensures forall a :: (exists i :: 0 <= i < |cache| && cache[i].addr == a)
                   <==> a in UpRun(ops) && a in Run(ops).all && Run(ops).all[a].kind == kind
  {
    hide Run, UpRun, Fits;
    RunSound(ops, kindOf);
    ListIs(Run(ops), UpRun(ops), cache, kind);
  }

  lemma ListIs(s: State, up: set<Addr>, cache: seq<Host>, kind: Kind)
    requires Agrees(s, up) && Listing(cache, Selected(s)) && Takes(s, up, kind)
    ensures Ascending(seq(|cache|, i requires 0 <= i < |cache| => cache[i].addr))
    ensures forall i :: 0 <= i < |cache| ==> cache[i].addr in s.all
    ensures forall a :: (exists i :: 0 <= i < |cache| && cache[i].addr == a)
                   <==> a in up && a in s.all && s.all[a].kind == kind
  {
    assert s.main == map[] <==> !exists a :: a in up && a in s.all && s.all[a].kind == Main by {
      assert s.main != map[] ==> exists a :: a in s.main;
    }
  }

  // ---------- the hosts' own flags ----------

  ghost predicate IsListed(s: State, a: Addr) {
    a in s.main || a in s.backup
  }

  /** Of the added addresses, those whose new member carries a flag that says unhealthy. */
  function AddedDown(s: State, hosts: seq<Host>): set<Addr> {
    set a | a in Addrs(hosts) && a in Put(s.all, hosts) && Put(s.all, hosts)[a] in s.down
  }

  /** A mark of h with effect tells the truth about its address: h is the member, or the member's flag agrees. */
  predicate TellsTruth(s: State, h: Host, up: bool)
    requires h.addr in s.all
  {
    s.all[h.addr] == h || (up <==> s.all[h.addr] !in s.down)
  }

  /**
   The addresses last told wrong: added while the new member's flag said unhealthy, or marked through a host
   object that is not the member while the member's own flag said otherwise.
   */
  function StaleAfter(s: State, stale: set<Addr>, op: Op): set<Addr> {
    match op
    case Add(hosts) => stale - Addrs(hosts) + AddedDown(s, hosts)
    case Remove(_) => stale
    case ReplaceAll(hosts) => AddedDown(Cleared(s), hosts)
    case MarkUp(h) =>
      if h !in s.down || h.addr !in s.all then stale
      else if TellsTruth(s, h, true) then stale - {h.addr} else stale + {h.addr}
    case MarkDown(h) =>
      if h in s.down || h.addr !in s.all then stale
      else if TellsTruth(s, h, false) then stale - {h.addr} else stale + {h.addr}
  }

  function StaleRun(ops: seq<Op>): set<Addr> {
    if ops == [] then {} else StaleAfter(Run(ops[..|ops| - 1]), StaleRun(ops[..|ops| - 1]), ops[|ops| - 1])
  }

  /** An address is up as its member's own flag says, unless it was last told wrong. */
  ghost predicate Tell(s: State, up: set<Addr>, stale: set<Addr>) {
    forall a :: a in s.all ==> ((a in up <==> s.all[a] !in s.down) <==> a !in stale)
  }

  lemma {:induction false} PutKeys(m: map<Addr, Host>, hosts: seq<Host>)
    ensures Put(m, hosts).Keys == m.Keys + Addrs(hosts)
    ensures forall a :: a in m && a !in Addrs(hosts) ==> Put(m, hosts)[a] == m[a]
  {
    if hosts != [] {
      var k := |hosts| - 1;
      PutKeys(m, hosts[..k]);
      AddrsNext(hosts, k);
      assert hosts[..k + 1] == hosts;
    }
  }

  lemma AddTell(s: State, up: set<Addr>, stale: set<Addr>, hosts: seq<Host>)
    requires Tell(s, up, stale)
    ensures Tell(AddHosts(s, hosts), up + Addrs(hosts), stale - Addrs(hosts) + AddedDown(s, hosts))
  {
    hide Put, Addrs, OfKind;
    PutKeys(s.all, hosts);
  }

  lemma MarkTell(s: State, up: set<Addr>, stale: set<Addr>, h: Host)
    requires Keyed(s.all) && Tell(s, up, stale)
    ensures Tell(Apply(s, MarkUp(h)), UpAfter(s, up, MarkUp(h)), StaleAfter(s, stale, MarkUp(h)))
    ensures Tell(Apply(s, MarkDown(h)), UpAfter(s, up, MarkDown(h)), StaleAfter(s, stale, MarkDown(h)))
  {
    hide ListAll, UnlistAll;
    ListOne(s.(down := s.down - {h}), h);
    UnlistOne(s.(down := s.down + {h}), h);
  }

  lemma StepTell(s: State, up: set<Addr>, stale: set<Addr>, op: Op)
    requires Keyed(s.all) && Tell(s, up, stale)
    ensures Tell(Apply(s, op), UpAfter(s, up, op), StaleAfter(s, stale, op))
  {
    hide AddHosts, Addrs, OfKind, Put, AddedDown, Tell;
    match op {
      case Add(hosts) => AddTell(s, up, stale, hosts);
      case Remove(hosts) => RemoveTell(s, up, stale, hosts);
      case ReplaceAll(hosts) =>
        ClearedTell(s);
        AddTell(Cleared(s), {}, {}, hosts);
        var down := AddedDown(Cleared(s), hosts);
        assert {} + Addrs(hosts) == Addrs(hosts) && {} - Addrs(hosts) + down == down;
      case MarkUp(h) => MarkTell(s, up, stale, h);
      case MarkDown(h) => MarkTell(s, up, stale, h);
    }
  }

  lemma RemoveTell(s: State, up: set<Addr>, stale: set<Addr>, hosts: seq<Host>)
    requires Tell(s, up, stale)
    ensures Tell(RemoveHosts(s, hosts), up - Addrs(hosts), stale)
  {
    hide Addrs, OfKind;
  }

  lemma ClearedTell(s: State)
    ensures Tell(Cleared(s), {}, {})
  {
  }

  lemma {:induction false} RunTell(ops: seq<Op>, kindOf: Addr -> Kind)
    requires forall i :: 0 <= i < |ops| ==> Fits(ops[i], kindOf)
    ensures Tell(Run(ops), UpRun(ops), StaleRun(ops))
  {
    hide Apply, UpAfter, StaleAfter, Fits, Tell;
    if ops == [] {
      ClearedTell(State(map[], map[], map[], {}));
      assert Cleared(State(map[], map[], map[], {})) == State(map[], map[], map[], {});
    } else {
      var k := |ops| - 1;
      RunTell(ops[..k], kindOf);
      RunSound(ops[..k], kindOf);
      StepTell(Run(ops[..k]), UpRun(ops[..k]), StaleRun(ops[..k]), ops[k]);
    }
  }

  /**
   After any calls in which each address keeps its kind, the list is read off the flags of the members that take
   traffic, exactly when none of their addresses was last told wrong.
   */
  lemma HealthyByFlags(ops: seq<Op>, kindOf: Addr -> Kind, cache: seq<Host>, kind: Kind)
    requires forall i :: 0 <= i < |ops| ==> Fits(ops[i], kindOf)
    requires Listing(cache, Selected(Run(ops))) && Takes(Run(ops), UpRun(ops), kind)
    ensures var s := Run(ops);
      (forall a :: a in s.all && s.all[a].kind == kind ==>
         ((exists i :: 0 <= i < |cache| && cache[i].addr == a) <==> s.all[a] !in s.down))
      <==> (forall a :: a in s.all && s.all[a].kind == kind ==> a !in StaleRun(ops))
  {
    hide Run, UpRun, StaleRun, Fits, Listing;
    RunTell(ops, kindOf);
    HealthyList(ops, kindOf, cache, kind);
    var s := Run(ops);
    forall a | a in s.all && s.all[a].kind == kind
      ensures ((exists i :: 0 <= i < |cache| && cache[i].addr == a) <==> s.all[a] !in s.down) <==> a !in StaleRun(ops)
    {
      assert (exists i :: 0 <= i < |cache| && cache[i].addr == a) <==> a in UpRun(ops);
    }
  }

  /** The same for both kinds: every member is listed as its flag says exactly when no member was last told wrong. */
  lemma ListedByFlags(ops: seq<Op>, kindOf: Addr -> Kind)
    requires forall i :: 0 <= i < |ops| ==> Fits(ops[i], kindOf)
    ensures var s := Run(ops);
      (forall a :: a in s.all ==> (IsListed(s, a) <==> s.all[a] !in s.down))
      <==> (forall a :: a in s.all ==> a !in StaleRun(ops))
  {
    hide Run, UpRun, StaleRun, Fits;
    RunTell(ops, kindOf);
    RunSound(ops, kindOf);
    var s := Run(ops);
    forall a | a in s.all ensures IsListed(s, a) <==> a in UpRun(ops) {
    }
  }

  /** An address is up exactly when its member's own flag says so. */
  ghost predicate FlagsTell(s: State, up: set<Addr>) {
    forall a :: a in s.all ==> (a in up <==> s.all[a] !in s.down)
  }

  /** Adding a host keeps the list in step with the flags exactly when that host's flag says healthy. */
  lemma AddTellsIff(s: State, up: set<Addr>, h: Host)
    requires FlagsTell(s, up)
    ensures FlagsTell(Apply(s, Add([h])), UpAfter(s, up, Add([h]))) <==> h !in s.down
  {
    AddOne(s, h);
    AddrsOne(h);
    assert Apply(s, Add([h])).all[h.addr] == h;
  }

  // ---------- one host object per address ----------

  ghost predicate Single(op: Op, hostOf: Addr -> Host) {
    match op
    case MarkUp(h) => h == hostOf(h.addr)
    case MarkDown(h) => h == hostOf(h.addr)
    case _ => forall h :: h in op.hosts ==> h == hostOf(h.addr)
  }

  /** No host is added while its flag says unhealthy. */
  ghost predicate AddsHealthy(s: State, op: Op) {
    op.Add? || op.ReplaceAll? ==> forall h :: h in op.hosts ==> h !in s.down
  }

  ghost predicate Own(s: State, hostOf: Addr -> Host) {
    forall a :: a in s.all ==> s.all[a] == hostOf(a)
  }

  lemma {:induction false} PutOwn(m: map<Addr, Host>, hosts: seq<Host>, hostOf: Addr -> Host)
    requires forall h :: h in hosts ==> h == hostOf(h.addr)
    ensures forall a :: a in Put(m, hosts) && a in Addrs(hosts) ==> Put(m, hosts)[a] == hostOf(a) && hostOf(a) in hosts
  {
    if hosts != [] {
      var k := |hosts| - 1;
      PutOwn(m, hosts[..k], hostOf);
      PutKeys(m, hosts[..k]);
      AddrsNext(hosts, k);
      assert hosts[..k + 1] == hosts;
    }
  }

  lemma SingleStep(s: State, op: Op, hostOf: Addr -> Host)
    requires Own(s, hostOf) && Single(op, hostOf) && AddsHealthy(s, op)
    ensures Own(Apply(s, op), hostOf) && StaleAfter(s, {}, op) == {}
  {
    hide Put, Addrs, OfKind;
    if op.Add? || op.ReplaceAll? {
      var t := if op.Add? then s else Cleared(s);
      PutOwn(t.all, op.hosts, hostOf);
      PutKeys(t.all, op.hosts);
      assert AddedDown(t, op.hosts) == {};
    }
  }

  /** With one host object per address, added only while healthy, no address is ever told wrong. */
  lemma {:induction false} SingleNeverStale(ops: seq<Op>, hostOf: Addr -> Host)
    requires forall i :: 0 <= i < |ops| ==> Single(ops[i], hostOf) && AddsHealthy(Run(ops[..i]), ops[i])
    ensures Own(Run(ops), hostOf) && StaleRun(ops) == {}
  {
    hide Apply, StaleAfter, Single, AddsHealthy;
    if ops != [] {
      var k := |ops| - 1;
      assert forall i :: 0 <= i < k ==> ops[..k][..i] == ops[..i];
      SingleNeverStale(ops[..k], hostOf);
      SingleStep(Run(ops[..k]), ops[k], hostOf);
    }
  }

  /**
   The member of an address is replaced by a new host object while the old one is still being checked: a mark of
   the old object takes the address off the list, and marking the new one healthy does not bring it back.
   */
  lemma ReplacedObjectUnlisted(h1: Host, h2: Host, h3: Host)
    requires h1.addr == h2.addr == h3.addr && h1.kind == h2.kind == h3.kind && h1 != h3
    ensures var ops := [Add([h1]), Remove([h2]), Add([h3]), MarkDown(h1)];
      var s := Run(ops);
      && s.all == map[h3.addr := h3] && h3 !in s.down && !IsListed(s, h3.addr)
      && Apply(s, MarkUp(h3)) == s
  {
    hide AddHosts, RemoveHosts, UnlistAll;
    var ops := [Add([h1]), Remove([h2]), Add([h3]), MarkDown(h1)];
    var s0 := State(map[], map[], map[], {});
    RunFour(ops);
    AddOne(s0, h1);
    var s1 := AddHosts(s0, [h1]);
    RemoveOne(s1, h2);
    var s2 := RemoveHosts(s1, [h2]);
    assert s2 == s0;
    AddOne(s2, h3);
    var s3 := AddHosts(s2, [h3]);
    UnlistOne(s3.(down := s3.down + {h1}), h1);
  }

  lemma RunFour(ops: seq<Op>)
    requires |ops| == 4
    ensures Run(ops) == Apply(Apply(Apply(Apply(State(map[], map[], map[], {}), ops[0]), ops[1]), ops[2]), ops[3])
  {
    hide Apply;
    assert ops[..3][..2] == ops[..2] && ops[..2][..1] == ops[..1] && ops[..1][..0] == [];
    assert Run(ops[..1]) == Apply(Run([]), ops[0]);
    assert Run(ops[..2]) == Apply(Run(ops[..1]), ops[1]);
    assert Run(ops[..3]) == Apply(Run(ops[..2]), ops[2]);
  }
}
