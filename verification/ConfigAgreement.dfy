/** Store and controller agree after every update but the ones named here. */
module ConfigAgreement {
  import opened Basics
  import opened Endpoints
  import opened ConfigReplay

  /** A service is served once it has both a configuration and an endpoint list, and a name. */
  predicate Served(name: string, s: Service) {
    name != "" && s.config.Some? && s.endpoints.Some?
  }

  ghost predicate AgreeOn(name: string, sws: Services, procs: Procs) {
    && (name in procs <==> name in sws && Served(name, sws[name]))
    && (name in procs ==> procs[name] == Proc(sws[name].config, HostsOf(sws[name].endpoints.value)))
  }

  /** Exactly the served services have processors, with the stored configuration and addresses. */
  ghost predicate Agree(sws: Services, procs: Procs) {
    forall name :: AgreeOn(name, sws, procs)
  }

  /** No endpoint list names an address twice. */
  ghost predicate NoDuplicates(sws: Services) {
    forall name :: name in sws ==> Unique(ListOf(sws[name]))
  }

  /**
   The updates the protocol survives. A service with endpoints must not lose its configuration, nor get one that
   its processor does not take, unless it has it already. An endpoint update to a configured service must not both
   remove and add an address that is listed; if there is no list yet, it must add one if the processor takes the
   configuration, and none if not.
   */
  ghost predicate Fair(accepts: Accepts, sws: Services, u: Update) {
    !u.Dependency? && u.name != "" && u.name in sws ==>
      var s := sws[u.name];
      match u
      case Config(name, cfg) =>
        s.endpoints.Some? ==>
          || (cfg == s.config)
          || (cfg.Some? && accepts(name, cfg))
      case EndpointList(name, added, removed) =>
        s.config.Some? && !(added == [] && removed == []) ==>
          if s.endpoints.None? then added != [] <==> accepts(name, s.config)
          else AddrsOf(added) * AddrsOf(removed) * AddrsOf(s.endpoints.value) == {}
      case _ => true
  }

  // ---------- one service ----------

  lemma ReplayOne(accepts: Accepts, procs: Procs, e: Event)
    ensures ReplayAll(accepts, procs, [e]) == Replay(accepts, procs, e)
    ensures ReplayAll(accepts, procs, []) == procs
  {
    assert [e][..0] == [];
  }

  lemma ReplayOthers(accepts: Accepts, procs: Procs, e: Event, name: string)
    requires e.name != name
    ensures name in Replay(accepts, procs, e) <==> name in procs
    ensures name in procs ==> Replay(accepts, procs, e)[name] == procs[name]
  {
  }

  lemma AddFirst(more: seq<Endpoint>)
    ensures var (eps, valid) := AddEach([], more); eps == valid && (valid == [] <==> more == [])
  {
    AddEachHosts([], more);
    var (eps, valid) := AddEach([], more);
    assert [] + valid == valid;
    if more != [] {
      assert more[0] in more;
      assert HostAddr(more[0].addr) in AddrsOf(valid);
    }
  }

  /** The edit of a host map in the controller's order and in the store's order. */
  lemma OrderOfEdits(h: Hosts, a: Hosts, r: set<string>)
    ensures h + a - r == h - r + a <==> a.Keys * r == {}
  {
    if k :| k in a.Keys && k in r {
      assert k in h - r + a && k !in h + a - r && k in a.Keys * r;
    } else {
      assert a.Keys * r == {};
    }
  }

  /** An endpoint update of a configured, named service keeps agreement exactly when it is fair. */
  lemma EndpointsAgree(accepts: Accepts, name: string, sws: Services, procs: Procs,
                       added: seq<Endpoint>, removed: seq<Endpoint>)
    requires name in sws && AgreeOn(name, sws, procs) && Unique(ListOf(sws[name]))
    requires !(added == [] && removed == [])
    ensures var (sws', evts) := Apply(sws, EndpointList(name, added, removed));
      && Unique(ListOf(sws'[name]))
      && (AgreeOn(name, sws', ReplayAll(accepts, procs, evts))
          <==> Fair(accepts, sws, EndpointList(name, added, removed)))
  {
    hide HostsOf, AddrsOf, Unique, RemoveEach, AddEach;
    var s := sws[name];
    var (rest, validRemoved) := RemoveEach(ListOf(s), removed);
    var (eps, validAdded) := AddEach(rest, added);
    RemoveEachHosts(ListOf(s), removed);
    AddEachHosts(rest, added);
    var (s', evts) := UpdateEndpoints(name, s, added, removed);
    ReplayOne(accepts, procs, SvcAdd(name, None, []));
    if s.endpoints.None? {
      NothingToRemove(removed);
      AddFirst(added);
      if s.config.Some? {
        ReplayOne(accepts, procs, SvcAdd(name, s.config, eps));
      }
    } else {
      HostsKeys(validAdded);
      SameAddresses(AddrsOf(s.endpoints.value), AddrsOf(added), AddrsOf(removed));
      OrderOfEdits(HostsOf(s.endpoints.value), HostsOf(validAdded), AddrsOf(validRemoved));
      if validAdded == [] && validRemoved == [] {
        NoAddrs(rest);
        assert rest + [] == rest;
        HostsConcat(rest, []);
        NoAddrs(s.endpoints.value);
      }
      ReplayOne(accepts, procs, SvcEndpoint(name, validAdded, validRemoved));
    }
  }

  lemma NothingToRemove(removed: seq<Endpoint>)
    ensures RemoveEach([], removed) == ([], [])
  {
    if removed != [] {
      NothingToRemove(removed[..|removed| - 1]);
    }
  }

  lemma SameAddresses(h: set<string>, a: set<string>, r: set<string>)
    ensures (a - (h - r)) * (r * h) == a * r * h
  {
  }

  lemma ConfigAgree(accepts: Accepts, name: string, sws: Services, procs: Procs, cfg: Option<Cfg>)
    requires name in sws && AgreeOn(name, sws, procs)
    ensures var (sws', evts) := Apply(sws, Config(name, cfg));
      AgreeOn(name, sws', ReplayAll(accepts, procs, evts)) <==> Fair(accepts, sws, Config(name, cfg))
  {
    hide HostsOf;
    var s := sws[name];
    ReplayOne(accepts, procs, SvcConfig(name, cfg));
    if s.endpoints.Some? && s.config.None? {
      ReplayOne(accepts, procs, SvcAdd(name, cfg, s.endpoints.value));
    }
  }

  // ---------- services coming and going ----------

  lemma {:induction false} AddNamesAgree(sws: Services, procs: Procs, names: seq<string>)
    requires Agree(sws, procs) && NoDuplicates(sws)
    ensures Agree(AddNames(sws, names), procs) && NoDuplicates(AddNames(sws, names))
  {
    if names != [] {
      AddNamesAgree(sws, procs, names[..|names| - 1]);
      var rest, n := AddNames(sws, names[..|names| - 1]), names[|names| - 1];
      forall name ensures AgreeOn(name, AddNames(sws, names), procs) {
        assert AgreeOn(name, rest, procs);
      }
    }
  }

  lemma {:induction false} RemoveNamesAgree(accepts: Accepts, sws: Services, procs: Procs, names: seq<string>)
    requires Agree(sws, procs) && NoDuplicates(sws)
    ensures var (sws', evts) := RemoveNames(sws, names);
      Agree(sws', ReplayAll(accepts, procs, evts)) && NoDuplicates(sws')
  {
    if names != [] {
      RemoveNamesAgree(accepts, sws, procs, names[..|names| - 1]);
      var (rest, evts) := RemoveNames(sws, names[..|names| - 1]);
      var n := names[|names| - 1];
      if n in rest {
        assert (evts + [SvcRemove(n)])[..|evts|] == evts;
        var procs' := ReplayAll(accepts, procs, evts);
        forall name ensures AgreeOn(name, rest - {n}, procs' - {n}) {
          assert AgreeOn(name, rest, procs');
        }
      }
    }
  }

  // ---------- whole runs ----------

  lemma UpdateTouchesOne(accepts: Accepts, sws: Services, procs: Procs, u: Update, name: string)
    requires !u.Dependency? && name != u.name && AgreeOn(name, sws, procs)
    ensures var (sws', evts) := Apply(sws, u);
      && |evts| <= 1 && (name in sws' <==> name in sws) && (name in sws ==> sws'[name] == sws[name])
      && AgreeOn(name, sws', ReplayAll(accepts, procs, evts))
  {
    hide HostsOf, RemoveEach, AddEach;
    var (sws', evts) := Apply(sws, u);
    if evts != [] {
      assert evts == [evts[0]];
      ReplayOne(accepts, procs, evts[0]);
      ReplayOthers(accepts, procs, evts[0], name);
    } else {
      ReplayOne(accepts, procs, SvcRemove(name));
    }
  }

  /**
   One update, any update: from agreement, replaying what the store emits leads to agreement again
   if and only if the update is fair. Endpoint lists stay free of duplicates in any case.
   */
  lemma UpdateAgreesIffFair(accepts: Accepts, sws: Services, procs: Procs, u: Update)
    requires Agree(sws, procs) && NoDuplicates(sws)
    ensures var (sws', evts) := Apply(sws, u);
      && NoDuplicates(sws')
      && (Agree(sws', ReplayAll(accepts, procs, evts)) <==> Fair(accepts, sws, u))
  {
    hide Apply, AgreeOn, Unique, HostsOf, ReplayAll;
    if u.Dependency? {
      AddNamesAgree(sws, procs, u.addedNames);
      RemoveNamesAgree(accepts, AddNames(sws, u.addedNames), procs, u.removedNames);
      DependencyApply(sws, u.addedNames, u.removedNames);
    } else {
      NamedAgree(accepts, sws, procs, u);
      forall name | name != u.name
        ensures AgreeOn(name, Apply(sws, u).0, ReplayAll(accepts, procs, Apply(sws, u).1))
        ensures name in Apply(sws, u).0 <==> name in sws
        ensures name in sws ==> Apply(sws, u).0[name] == sws[name]
      {
        assert AgreeOn(name, sws, procs);
        UpdateTouchesOne(accepts, sws, procs, u, name);
      }
    }
  }

  lemma DependencyApply(sws: Services, added: seq<string>, removed: seq<string>)
    ensures Apply(sws, Dependency(added, removed)) == RemoveNames(AddNames(sws, added), removed)
  {
  }

  lemma NamedAgree(accepts: Accepts, sws: Services, procs: Procs, u: Update)
    requires !u.Dependency? && Agree(sws, procs) && NoDuplicates(sws)
    ensures var (sws', evts) := Apply(sws, u);
      && (u.name in sws' <==> u.name in sws)
      && (u.name in sws' ==> Unique(ListOf(sws'[u.name])))
      && (AgreeOn(u.name, sws', ReplayAll(accepts, procs, evts)) <==> Fair(accepts, sws, u))
  {
    hide HostsOf, RemoveEach, AddEach, Unique, AddrsOf;
    assert AgreeOn(u.name, sws, procs);
    if u.name in sws && u.Config? {
      ConfigAgree(accepts, u.name, sws, procs, u.config);
    } else if u.name in sws && !(u.added == [] && u.removed == []) {
      EndpointsAgree(accepts, u.name, sws, procs, u.added, u.removed);
    } else {
      ReplayOne(accepts, procs, SvcRemove(u.name));
    }
  }

  /** The store after a list of updates, and everything it emitted. */
  function RunStore(us: seq<Update>): (Services, seq<Event>) {
    if us == [] then (map[], [])
    else
      var (sws, evts) := RunStore(us[..|us| - 1]);
      var (sws', more) := Apply(sws, us[|us| - 1]);
      (sws', evts + more)
  }

  ghost predicate AllFair(accepts: Accepts, us: seq<Update>) {
    forall i :: 0 <= i < |us| ==> Fair(accepts, RunStore(us[..i]).0, us[i])
  }

  lemma {:induction false} ReplayConcat(accepts: Accepts, procs: Procs, a: seq<Event>, b: seq<Event>)
    ensures ReplayAll(accepts, procs, a + b) == ReplayAll(accepts, ReplayAll(accepts, procs, a), b)
  {
    if b == [] {
      assert a + b == a;
    } else {
      assert (a + b)[..|a + b| - 1] == a + b[..|b| - 1];
      ReplayConcat(accepts, procs, a, b[..|b| - 1]);
    }
  }

  /**
   For every run of fair updates from an empty store, a controller that has replayed all events has
   processors for exactly the served services, with the latest configuration and the stored addresses.
   */
  lemma {:induction false} RunKeepsAgreement(accepts: Accepts, us: seq<Update>)
    requires AllFair(accepts, us)
    ensures var (sws, evts) := RunStore(us); Agree(sws, ReplayAll(accepts, map[], evts)) && NoDuplicates(sws)
  {
    hide Agree, Fair, Apply, NoDuplicates;
    if us == [] {
      EmptyAgrees(accepts);
    } else {
      var init, u := us[..|us| - 1], us[|us| - 1];
      assert forall i :: 0 <= i < |init| ==> init[i] == us[i] && init[..i] == us[..i];
      RunKeepsAgreement(accepts, init);
      var (sws, evts) := RunStore(init);
      var (sws', more) := Apply(sws, u);
      UpdateAgreesIffFair(accepts, sws, ReplayAll(accepts, map[], evts), u);
      ReplayConcat(accepts, map[], evts, more);
    }
  }

  lemma EmptyAgrees(accepts: Accepts)
    ensures Agree(map[], ReplayAll(accepts, map[], [])) && NoDuplicates(map[])
  {
  }

  /** The other way: right after the first update that is not fair, the two sides differ. */
  lemma UnfairParts(accepts: Accepts, us: seq<Update>, u: Update)
    requires AllFair(accepts, us) && !Fair(accepts, RunStore(us).0, u)
    ensures var (sws, evts) := RunStore(us + [u]); !Agree(sws, ReplayAll(accepts, map[], evts))
  {
    hide Agree, Fair, Apply, NoDuplicates;
    assert (us + [u])[..|us|] == us;
    RunKeepsAgreement(accepts, us);
    var (sws, evts) := RunStore(us);
    UpdateAgreesIffFair(accepts, sws, ReplayAll(accepts, map[], evts), u);
    ReplayConcat(accepts, map[], evts, Apply(sws, u).1);
  }

  lemma RunStoreNext(us: seq<Update>, u: Update)
    ensures RunStore(us + [u]).0 == Apply(RunStore(us).0, u).0
  {
    assert (us + [u])[..|us|] == us;
  }

  lemma AllFairNext(accepts: Accepts, us: seq<Update>, u: Update)
    requires AllFair(accepts, us) && Fair(accepts, RunStore(us).0, u)
    ensures AllFair(accepts, us + [u])
  {
    hide Fair, RunStore;
    var vs := us + [u];
    forall i | 0 <= i < |vs| ensures Fair(accepts, RunStore(vs[..i]).0, vs[i]) {
      assert vs[..i] == us[..i];
      if i == |us| { assert us[..i] == us; }
    }
  }

  /**
   Every kind of unfair update can happen: moving an address within one update, removing endpoints from a
   configured service that has none yet, losing the configuration, and getting one the processor does not take.
   */
  lemma UnfairExamples(accepts: Accepts, e: Endpoint, bad: Cfg)
    requires accepts("s", Some(1)) && bad != 1 && !accepts("s", Some(bad))
    ensures exists us :: AllFair(accepts, us) && !Fair(accepts, RunStore(us).0, EndpointList("s", [e], [e]))
    ensures exists us :: AllFair(accepts, us) && !Fair(accepts, RunStore(us).0, EndpointList("s", [], [e]))
    ensures exists us :: AllFair(accepts, us) && !Fair(accepts, RunStore(us).0, Config("s", None))
    ensures exists us :: AllFair(accepts, us) && !Fair(accepts, RunStore(us).0, Config("s", Some(bad)))
  {
    hide AllFair, RunStore;
    NoUpdates(accepts);
    var u1, u2, u3 := Dependency(["s"], []), Config("s", Some(1)), EndpointList("s", [e], []);
    var us1 := [] + [u1];
    RunStoreNext([], u1);
    AllFairNext(accepts, [], u1);
    FirstName("s");
    assert RunStore(us1).0 == map["s" := Service(None, None)];
    var us2 := us1 + [u2];
    RunStoreNext(us1, u2);
    AllFairNext(accepts, us1, u2);
    var s2 := Service(Some(1), None);
    assert RunStore(us2).0 == map["s" := s2];
    assert !Fair(accepts, RunStore(us2).0, EndpointList("s", [], [e]));
    var us3 := us2 + [u3];
    RunStoreNext(us2, u3);
    AllFairNext(accepts, us2, u3);
    FirstEndpoint("s", s2, e);
    assert RunStore(us3).0 == map["s" := Service(Some(1), Some([e]))];
    assert e in [e] && HostAddr(e.addr) in AddrsOf([e]) * AddrsOf([e]) * AddrsOf([e]);
    assert !Fair(accepts, RunStore(us3).0, EndpointList("s", [e], [e]));
    assert !Fair(accepts, RunStore(us3).0, Config("s", None));
    assert !Fair(accepts, RunStore(us3).0, Config("s", Some(bad)));
  }

  lemma FirstName(name: string)
    ensures Apply(map[], Dependency([name], [])).0 == map[name := Service(None, None)]
  {
    assert [name][..0] == [];
    assert AddNames(map[], [name][..0]) == map[];
  }

  lemma FirstEndpoint(name: string, s: Service, e: Endpoint)
    requires s.endpoints.None?
    ensures UpdateEndpoints(name, s, [e], []).0 == s.(endpoints := Some([e]))
  {
    assert [e][..0] == [];
    assert AddEach([], [e][..0]) == ([], []);
    assert [] + [e] == [e];
    assert AddEach([], [e]) == ([e], [e]);
  }

  lemma NoUpdates(accepts: Accepts)
    ensures RunStore([]).0 == map[] && AllFair(accepts, [])
  {
  }
}
