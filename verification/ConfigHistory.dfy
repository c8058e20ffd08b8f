/**
 What the configuration store holds and which processors run, read off the list of updates alone: which services
 were added and not removed since, their latest configuration, and the endpoints that the updates leave.
 */
module ConfigHistory {
  import opened Basics
  import opened Endpoints
  import opened ConfigReplay
  import opened ConfigAgreement

  // ---------- the history of one service ----------

  /** The update that added the service which is there now, if it is: nothing has removed it since. */
  function Since(us: seq<Update>, name: string): (i: Option<nat>)
    ensures i.Some? ==> i.value < |us|
  {
    if us == [] then None
    else
      var before, u := Since(us[..|us| - 1], name), us[|us| - 1];
      if !u.Dependency? then before
      else if name in u.removedNames then None
      else if before.Some? then before
      else if name in u.addedNames then Some(|us| - 1)
      else None
  }

  /** Told without recursion: the service was not there, this update adds it, and no update from there on removes it. */
  lemma {:induction false} SinceExactly(us: seq<Update>, name: string, i: nat)
    ensures Since(us, name) == Some(i) <==>
      && i < |us| && us[i].Dependency? && name in us[i].addedNames && Since(us[..i], name).None?
      && forall j :: i <= j < |us| && us[j].Dependency? ==> name !in us[j].removedNames
  {
    if us != [] {
      var init := us[..|us| - 1];
      SinceExactly(init, name, i);
      assert i <= |init| ==> init[..i] == us[..i];
      assert forall j :: 0 <= j < |init| ==> init[j] == us[j];
      if i < |init| && Since(us[..i], name).None? && us[i].Dependency? && name in us[i].addedNames {
        assert Since(us, name) == Some(i) <==>
          Since(init, name) == Some(i) && !(us[|init|].Dependency? && name in us[|init|].removedNames);
      }
    }
  }

  /** The configuration in the last update after this one that brings, or takes away, one. */
  function LastConfig(us: seq<Update>, from: nat, name: string): Option<Cfg> {
    if |us| <= from + 1 then None
    else
      var u := us[|us| - 1];
      if u.Config? && u.name == name then u.config else LastConfig(us[..|us| - 1], from, name)
  }

  /** An update after this one lists endpoints of the service. */
  ghost predicate HasList(us: seq<Update>, from: nat, name: string) {
    exists j :: from < j < |us| && us[j].EndpointList? && us[j].name == name && us[j].added != []
  }

  /** The first endpoint of a list with the address: whether it is a backup. */
  function Lookup(eps: seq<Endpoint>, a: Address): Option<bool> {
    if eps == [] then None
    else
      var first, e := Lookup(eps[..|eps| - 1], a), eps[|eps| - 1];
      if first.Some? then first else if e.addr == a then Some(e.backup) else None
  }

  /** Whether the address is listed after the updates since this one, each removing first and then adding. */
  function HostAfter(us: seq<Update>, from: nat, name: string, a: Address): Option<bool> {
    if |us| <= from + 1 then None
    else
      var before, u := HostAfter(us[..|us| - 1], from, name, a), us[|us| - 1];
      if !u.EndpointList? || u.name != name then before
      else
        var kept := if Lookup(u.removed, a).Some? then None else before;
        if kept.Some? then kept else Lookup(u.added, a)
  }

  // ---------- looking up ----------

  lemma {:induction false} LookupConcat(p: seq<Endpoint>, q: seq<Endpoint>, a: Address)
    ensures Lookup(p + q, a) == if Lookup(p, a).Some? then Lookup(p, a) else Lookup(q, a)
  {
    if q == [] {
      assert p + q == p;
    } else {
      assert (p + q)[..|p + q| - 1] == p + q[..|q| - 1];
      LookupConcat(p, q[..|q| - 1], a);
    }
  }

  lemma {:induction false} LookupHas(eps: seq<Endpoint>, a: Address)
    ensures Lookup(eps, a).Some? <==> Has(eps, a)
  {
    if eps != [] {
      var init := eps[..|eps| - 1];
      LookupHas(init, a);
      if Has(init, a) {
        var i :| 0 <= i < |init| && init[i].addr == a;
        assert eps[i].addr == a;
      }
      if Has(eps, a) {
        var i :| 0 <= i < |eps| && eps[i].addr == a;
        assert i < |init| ==> init[i].addr == a;
      }
    }
  }

  lemma LookupRemove(eps: seq<Endpoint>, b: Address, a: Address)
    requires Unique(eps)
    ensures Unique(Remove(eps, b))
    ensures Lookup(Remove(eps, b), a) == if a == b then None else Lookup(eps, a)
  {
    hide Lookup, Unique, HostsOf, HostAddr;
    RemoveHosts(eps, b);
    var i := Find(eps, b);
    if i < |eps| {
      var p, e, q := eps[..i], eps[i], eps[i + 1..];
      assert eps == p + [e] + q;
      UniqueParts(p, e, q);
      LookupMiddle(p, e, q, a);
    } else {
      LookupHas(eps, b);
    }
  }

  lemma LookupMiddle(p: seq<Endpoint>, e: Endpoint, q: seq<Endpoint>, a: Address)
    requires !Has(p, e.addr) && !Has(q, e.addr)
    ensures Lookup(p + q, a) == if a == e.addr then None else Lookup(p + [e] + q, a)
  {
    hide Has;
    LookupConcat(p, q, a);
    LookupConcat(p + [e], q, a);
    LookupConcat(p, [e], a);
    LookupHas(p, a);
    LookupHas(q, a);
    assert [e][..0] == [];
  }

  lemma {:induction false} RemoveEachLookup(eps: seq<Endpoint>, gone: seq<Endpoint>, a: Address)
    requires Unique(eps)
    ensures Unique(RemoveEach(eps, gone).0)
    ensures Lookup(RemoveEach(eps, gone).0, a) == if Lookup(gone, a).Some? then None else Lookup(eps, a)
  {
    if gone != [] {
      var init, e := gone[..|gone| - 1], gone[|gone| - 1];
      RemoveEachLookup(eps, init, a);
      var rest := RemoveEach(eps, init).0;
      LookupRemove(rest, e.addr, a);
      LookupHas(rest, e.addr);
    }
  }

  lemma {:induction false} AddEachLookup(eps: seq<Endpoint>, more: seq<Endpoint>, a: Address)
    requires Unique(eps)
    ensures Unique(AddEach(eps, more).0)
    ensures Lookup(AddEach(eps, more).0, a) == if Lookup(eps, a).Some? then Lookup(eps, a) else Lookup(more, a)
  {
    hide Unique, Has;
    if more != [] {
      var init, e := more[..|more| - 1], more[|more| - 1];
      AddEachLookup(eps, init, a);
      var rest := AddEach(eps, init).0;
      LookupHas(rest, e.addr);
      if !Has(rest, e.addr) {
        UniqueAppend(rest, e);
        assert (rest + [e])[..|rest|] == rest;
      }
    }
  }

  lemma {:induction false} HostsLookup(eps: seq<Endpoint>, a: Address)
    requires Unique(eps)
    ensures HostAddr(a) in HostsOf(eps) <==> Lookup(eps, a).Some?
    ensures HostAddr(a) in HostsOf(eps) ==> Lookup(eps, a) == Some(HostsOf(eps)[HostAddr(a)])
  {
    hide HostAddr;
    if eps != [] {
      var init, e := eps[..|eps| - 1], eps[|eps| - 1];
      HostsLookup(init, a);
      if HostAddr(e.addr) == HostAddr(a) {
        HostAddrInjective(e.addr, a);
        LookupHas(init, a);
      }
    }
  }

  // ---------- the store ----------

  /** What is known of a service by its updates alone. */
  ghost predicate Known(us: seq<Update>, name: string, sws: Services) {
    && (name in sws <==> Since(us, name).Some?)
    && (name in sws ==>
          var i, s := Since(us, name).value, sws[name];
          && s.config == LastConfig(us, i, name)
          && (s.endpoints.Some? <==> HasList(us, i, name))
          && Unique(ListOf(s))
          && forall a :: Lookup(ListOf(s), a) == HostAfter(us, i, name, a))
  }

  lemma {:induction false} NamesAdded(sws: Services, names: seq<string>, name: string)
    ensures name in AddNames(sws, names) <==> name in sws || name in names
    ensures name in sws ==> AddNames(sws, names)[name] == sws[name]
    ensures name !in sws && name in names ==> AddNames(sws, names)[name] == Service(None, None)
  {
    if names != [] {
      NamesAdded(sws, names[..|names| - 1], name);
      assert names == names[..|names| - 1] + [names[|names| - 1]];
    }
  }

  lemma {:induction false} NamesRemoved(sws: Services, names: seq<string>, name: string)
    ensures name in RemoveNames(sws, names).0 <==> name in sws && name !in names
    ensures name in RemoveNames(sws, names).0 ==> RemoveNames(sws, names).0[name] == sws[name]
  {
    if names != [] {
      NamesRemoved(sws, names[..|names| - 1], name);
      assert names == names[..|names| - 1] + [names[|names| - 1]];
    }
  }

  /** An update that does not speak of the service's configuration or endpoints. */
  lemma OtherUpdate(us: seq<Update>, u: Update, i: nat, name: string)
    requires i < |us| && (u.Dependency? || u.name != name)
    ensures LastConfig(us + [u], i, name) == LastConfig(us, i, name)
    ensures HasList(us + [u], i, name) <==> HasList(us, i, name)
    ensures forall a :: HostAfter(us + [u], i, name, a) == HostAfter(us, i, name, a)
  {
    var vs := us + [u];
    assert vs[..|us|] == us;
    ListNext(us, u, i, name);
  }

  lemma ListNext(us: seq<Update>, u: Update, i: nat, name: string)
    requires i < |us|
    ensures HasList(us + [u], i, name) <==>
      HasList(us, i, name) || (u.EndpointList? && u.name == name && u.added != [])
  {
    var vs := us + [u];
    if HasList(us, i, name) {
      var j :| i < j < |us| && us[j].EndpointList? && us[j].name == name && us[j].added != [];
      assert vs[j] == us[j];
    }
    assert vs[|us|] == u;
    if HasList(vs, i, name) {
      var j :| i < j < |vs| && vs[j].EndpointList? && vs[j].name == name && vs[j].added != [];
      assert j < |us| ==> us[j] == vs[j];
    }
  }

  lemma DependencyKnown(us: seq<Update>, u: Update, name: string, sws: Services)
    requires Known(us, name, sws) && u.Dependency?
    ensures Known(us + [u], name, Apply(sws, u).0)
  {
    var vs := us + [u];
    assert vs[..|us|] == us;
    NamesAdded(sws, u.addedNames, name);
    NamesRemoved(AddNames(sws, u.addedNames), u.removedNames, name);
    if Since(us, name).Some? {
      OtherUpdate(us, u, Since(us, name).value, name);
    } else if Since(vs, name).Some? {
      assert !HasList(vs, |us|, name);
    }
  }

  lemma ConfigKnown(us: seq<Update>, u: Update, name: string, sws: Services)
    requires Known(us, name, sws) && u.Config? && u.name == name
    ensures Known(us + [u], name, Apply(sws, u).0)
  {
    var vs := us + [u];
    assert vs[..|us|] == us;
    if name in sws {
      ListNext(us, u, Since(us, name).value, name);
    }
  }

  lemma EndpointsKnown(us: seq<Update>, u: Update, name: string, sws: Services)
    requires Known(us, name, sws) && u.EndpointList? && u.name == name
    ensures Known(us + [u], name, Apply(sws, u).0)
  {
    hide Unique, RemoveEach, AddEach, HostsOf, AddrsOf;
    var vs := us + [u];
    assert vs[..|us|] == us;
    if name in sws {
      var i, s := Since(us, name).value, sws[name];
      var rest := RemoveEach(ListOf(s), u.removed).0;
      ListNext(us, u, i, name);
      RemoveEachHosts(ListOf(s), u.removed);
      AddEachHosts(rest, u.added);
      forall a ensures Lookup(AddEach(rest, u.added).0, a) == HostAfter(vs, i, name, a) {
        RemoveEachLookup(ListOf(s), u.removed, a);
        AddEachLookup(rest, u.added, a);
      }
      if s.endpoints.None? {
        NothingToRemove(u.removed);
        NoneUnique();
        AddFirst(u.added);
      }
      if u.added == [] && u.removed == [] {
        assert forall a :: HostAfter(vs, i, name, a) == HostAfter(us, i, name, a);
      } else {
        var s' := UpdateEndpoints(name, s, u.added, u.removed).0;
        assert ListOf(s') == AddEach(rest, u.added).0;
        assert LastConfig(vs, i, name) == LastConfig(us, i, name);
      }
    }
  }

  lemma NoneUnique()
    ensures Unique([])
  {
  }

  lemma OthersKnown(us: seq<Update>, u: Update, name: string, sws: Services)
    requires Known(us, name, sws) && !u.Dependency? && u.name != name
    ensures Known(us + [u], name, Apply(sws, u).0)
  {
    hide RemoveEach, AddEach;
    assert (us + [u])[..|us|] == us;
    if name in sws {
      OtherUpdate(us, u, Since(us, name).value, name);
    }
  }

  /**
   After any updates the store holds exactly the services added and not removed since, each with the configuration
   of the last update that brought one since then, and with the endpoints that the updates since then leave.
   */
  lemma {:induction false} StoreIsHistory(us: seq<Update>, name: string)
    ensures Known(us, name, RunStore(us).0)
  {
    hide Known, Apply;
    if us == [] {
      NothingKnown(name);
    } else {
      var init, u := us[..|us| - 1], us[|us| - 1];
      StoreIsHistory(init, name);
      assert us == init + [u];
      var sws := RunStore(init).0;
      if u.Dependency? {
        DependencyKnown(init, u, name, sws);
      } else if u.name != name {
        OthersKnown(init, u, name, sws);
      } else if u.Config? {
        ConfigKnown(init, u, name, sws);
      } else {
        EndpointsKnown(init, u, name, sws);
      }
    }
  }

  lemma NothingKnown(name: string)
    ensures Known([], name, map[])
  {
  }

  // ---------- the controller ----------

  /** The service has been given a configuration and endpoints, and it has a name. */
  ghost predicate IsServed(us: seq<Update>, name: string) {
    && name != "" && Since(us, name).Some?
    && LastConfig(us, Since(us, name).value, name).Some? && HasList(us, Since(us, name).value, name)
  }

  /** The processor of the service has the latest configuration and exactly the hosts that the updates leave. */
  ghost predicate Runs(us: seq<Update>, name: string, p: Proc)
    requires Since(us, name).Some?
  {
    var i := Since(us, name).value;
    && p.config == LastConfig(us, i, name)
    && (forall k :: k in p.hosts ==> exists a :: k == HostAddr(a) && HostAfter(us, i, name, a).Some?)
    && (forall a :: HostAfter(us, i, name, a).Some? ==>
          HostAddr(a) in p.hosts && HostAfter(us, i, name, a) == Some(p.hosts[HostAddr(a)]))
  }

  ghost predicate Follows(us: seq<Update>, name: string, procs: Procs) {
    && (name in procs <==> IsServed(us, name))
    && (name in procs ==> Runs(us, name, procs[name]))
  }

  /**
   The updates that the controller survives, by the history alone. A service with endpoints must not lose its
   configuration, nor get one that its processor does not take, unless it has it already. An endpoint update to a
   configured service must not both remove and add an address that is listed; if there is no list yet, it must add
   one if the processor takes the configuration, and none if not.
   */
  ghost predicate FairAfter(accepts: Accepts, us: seq<Update>, u: Update) {
    !u.Dependency? && u.name != "" && Since(us, u.name).Some? ==>
      var i := Since(us, u.name).value;
      var latest := LastConfig(us, i, u.name);
      if u.Config? then
        HasList(us, i, u.name) ==> u.config == latest || (u.config.Some? && accepts(u.name, u.config))
      else
        latest.Some? && !(u.added == [] && u.removed == []) ==>
          if !HasList(us, i, u.name) then u.added != [] <==> accepts(u.name, latest)
          else
            forall a :: !(Lookup(u.added, a).Some? && Lookup(u.removed, a).Some? && HostAfter(us, i, u.name, a).Some?)
  }

  lemma LookupAddrs(eps: seq<Endpoint>, a: Address)
    ensures Lookup(eps, a).Some? <==> HostAddr(a) in AddrsOf(eps)
  {
    LookupHas(eps, a);
    HasAddr(eps, a);
  }

  lemma NoCommon(x: seq<Endpoint>, y: seq<Endpoint>, z: seq<Endpoint>)
    ensures AddrsOf(x) * AddrsOf(y) * AddrsOf(z) == {} <==>
      forall a :: !(Lookup(x, a).Some? && Lookup(y, a).Some? && Lookup(z, a).Some?)
  {
    hide HostAddr, Lookup;
    if AddrsOf(x) * AddrsOf(y) * AddrsOf(z) == {} {
      forall a ensures !(Lookup(x, a).Some? && Lookup(y, a).Some? && Lookup(z, a).Some?) {
        LookupAddrs(x, a);
        LookupAddrs(y, a);
        LookupAddrs(z, a);
        assert HostAddr(a) !in AddrsOf(x) * AddrsOf(y) * AddrsOf(z);
      }
    } else {
      var k :| k in AddrsOf(x) * AddrsOf(y) * AddrsOf(z);
      var e :| e in x && HostAddr(e.addr) == k;
      LookupAddrs(x, e.addr);
      LookupAddrs(y, e.addr);
      LookupAddrs(z, e.addr);
    }
  }

  lemma FairIsFair(accepts: Accepts, us: seq<Update>, u: Update)
    ensures FairAfter(accepts, us, u) <==> Fair(accepts, RunStore(us).0, u)
  {
    hide AddrsOf, HasList, LastConfig, HostAfter, Since, RunStore;
    if !u.Dependency? {
      StoreIsHistory(us, u.name);
      var sws := RunStore(us).0;
      if u.EndpointList? && u.name in sws {
        var i, eps := Since(us, u.name).value, ListOf(sws[u.name]);
        NoCommon(u.added, u.removed, eps);
        assert AddrsOf(u.added) * AddrsOf(u.removed) * AddrsOf(eps) == {} <==> forall a ::
          !(Lookup(u.added, a).Some? && Lookup(u.removed, a).Some? && HostAfter(us, i, u.name, a).Some?) by {
          assert forall a :: Lookup(eps, a) == HostAfter(us, i, u.name, a);
        }
      }
    }
  }

  lemma AgreeFollows(us: seq<Update>, name: string, sws: Services, procs: Procs)
    requires Known(us, name, sws)
    ensures AgreeOn(name, sws, procs) <==> Follows(us, name, procs)
  {
    hide HasList, LastConfig, HostAfter, Since, HostAddr, HostsOf;
    if name in procs && name in sws && Served(name, sws[name]) {
      RunsExactly(us, name, sws[name], procs[name]);
    }
  }

  lemma RunsExactly(us: seq<Update>, name: string, s: Service, p: Proc)
    requires Since(us, name).Some? && Unique(ListOf(s)) && s.endpoints.Some?
    requires s.config == LastConfig(us, Since(us, name).value, name)
    requires forall a :: Lookup(ListOf(s), a) == HostAfter(us, Since(us, name).value, name, a)
    ensures p == Proc(s.config, HostsOf(s.endpoints.value)) <==> Runs(us, name, p)
  {
    hide LastConfig, HostAfter, Since, HostAddr, HostsOf, Unique, Lookup;
    var eps := s.endpoints.value;
    var hosts := HostsOf(eps);
    forall a ensures HostAddr(a) in hosts <==> Lookup(eps, a).Some?
      ensures HostAddr(a) in hosts ==> Lookup(eps, a) == Some(hosts[HostAddr(a)])
    {
      HostsLookup(eps, a);
    }
    HostsKeys(eps);
    forall k | k in hosts ensures exists a :: k == HostAddr(a) && Lookup(eps, a).Some? {
      var e :| e in eps && HostAddr(e.addr) == k;
      assert Lookup(eps, e.addr).Some?;
    }
    if Runs(us, name, p) {
      forall k | k in p.hosts ensures k in hosts && p.hosts[k] == hosts[k] {
        var a :| k == HostAddr(a) && HostAfter(us, Since(us, name).value, name, a).Some?;
      }
      forall k | k in hosts ensures k in p.hosts {
        var a :| k == HostAddr(a) && Lookup(eps, a).Some?;
      }
      assert p.hosts == hosts;
    }
  }

  /** Every update was fair after those before it. */
  ghost predicate AllFairAfter(accepts: Accepts, us: seq<Update>) {
    forall i :: 0 <= i < |us| ==> FairAfter(accepts, us[..i], us[i])
  }

  lemma AllFairIs(accepts: Accepts, us: seq<Update>)
    ensures AllFairAfter(accepts, us) <==> AllFair(accepts, us)
  {
    hide Fair, FairAfter, RunStore;
    forall i | 0 <= i < |us| ensures FairAfter(accepts, us[..i], us[i]) <==> Fair(accepts, RunStore(us[..i]).0, us[i]) {
      FairIsFair(accepts, us[..i], us[i]);
    }
  }

  /**
   For every run of fair updates, a controller that has replayed all events has processors for exactly the services
   that were added, not removed since, and given a configuration and endpoints since, each with the latest
   configuration and exactly the hosts that the updates leave.
   */
  lemma RunAgrees(accepts: Accepts, us: seq<Update>, name: string)
    requires AllFairAfter(accepts, us)
    ensures Follows(us, name, ReplayAll(accepts, map[], RunStore(us).1))
  {
    hide Follows, Known, RunStore, ReplayAll, AgreeOn, AllFairAfter, AllFair, NoDuplicates;
    AllFairIs(accepts, us);
    RunKeepsAgreement(accepts, us);
    StoreIsHistory(us, name);
    var (sws, evts) := RunStore(us);
    AgreeFollows(us, name, sws, ReplayAll(accepts, map[], evts));
  }

  /** The other way: right after the first update that is not fair, the processors are not what the updates demand. */
  lemma UnfairDisagrees(accepts: Accepts, us: seq<Update>, u: Update) returns (name: string)
    requires AllFairAfter(accepts, us) && !FairAfter(accepts, us, u)
    ensures !Follows(us + [u], name, ReplayAll(accepts, map[], RunStore(us + [u]).1))
  {
    hide Follows, Known, RunStore, ReplayAll, AgreeOn, AllFairAfter, AllFair, FairAfter, Fair;
    AllFairIs(accepts, us);
    FairIsFair(accepts, us, u);
    UnfairParts(accepts, us, u);
    var (sws, evts) := RunStore(us + [u]);
    name :| !AgreeOn(name, sws, ReplayAll(accepts, map[], evts));
    StoreIsHistory(us + [u], name);
    AgreeFollows(us + [u], name, sws, ReplayAll(accepts, map[], evts));
  }
}
