/**
 The configuration store and its consumer. The store applies updates from the discovery service
 to what it knows of each service and emits events; the controller replays the events on its
 processors. The theorem is that both sides then agree, and exactly which updates break that.
 */
module ConfigReplay {
  import opened Basics
  import opened Endpoints

  /** A service configuration, told apart by a number. */
  type Cfg = nat

  /**
   Which configurations a processor of a service takes, be it to start with or as an update: they validate, and
   nothing else fails. An update may come without a configuration.
   */
  type Accepts = (string, Option<Cfg>) -> bool

  /** What the store knows of a service. No endpoint list at all differs from an empty one. */
  datatype Service = Service(config: Option<Cfg>, endpoints: Option<seq<Endpoint>>)

  type Services = map<string, Service>

  datatype Event =
    | SvcAdd(name: string, config: Option<Cfg>, endpoints: seq<Endpoint>)
    | SvcRemove(name: string)
    | SvcConfig(name: string, config: Option<Cfg>)
    | SvcEndpoint(name: string, added: seq<Endpoint>, removed: seq<Endpoint>)

  datatype Update =
    | Dependency(addedNames: seq<string>, removedNames: seq<string>)
    | Config(name: string, config: Option<Cfg>)
    | EndpointList(name: string, added: seq<Endpoint>, removed: seq<Endpoint>)

  // ---------- the store ----------

  function ListOf(s: Service): seq<Endpoint> {
    if s.endpoints.Some? then s.endpoints.value else []
  }

  function AddNames(sws: Services, names: seq<string>): Services {
    if names == [] then sws
    else
      var rest, n := AddNames(sws, names[..|names| - 1]), names[|names| - 1];
      if n in rest then rest else rest[n := Service(None, None)]
  }

  function RemoveNames(sws: Services, names: seq<string>): (Services, seq<Event>) {
    if names == [] then (sws, [])
    else
      var (rest, evts) := RemoveNames(sws, names[..|names| - 1]);
      var n := names[|names| - 1];
      if n in rest then (rest - {n}, evts + [SvcRemove(n)]) else (rest, evts)
  }

  /** A service after an endpoint update, and the event if the service has a configuration. */
  function UpdateEndpoints(name: string, s: Service, added: seq<Endpoint>, removed: seq<Endpoint>)
    : (Service, seq<Event>)
  {
    var (rest, validRemoved) := RemoveEach(ListOf(s), removed);
    var (eps, validAdded) := AddEach(rest, added);
    var s' := s.(endpoints := if s.endpoints.None? && validAdded == [] then None else Some(eps));
    if s.config.None? then (s', [])
    else if s.endpoints.None? then (s', [SvcAdd(name, s.config, eps)])
    else if validAdded == [] && validRemoved == [] then (s', [])
    else (s', [SvcEndpoint(name, validAdded, validRemoved)])
  }

  /** The store after an update, and the events it emits. */
  function Apply(sws: Services, u: Update): (Services, seq<Event>) {
    match u
    case Dependency(added, removed) => RemoveNames(AddNames(sws, added), removed)
    case Config(name, cfg) =>
      if name !in sws then (sws, [])
      else
        var s := sws[name];
        var sws' := sws[name := s.(config := cfg)];
        if s.endpoints.None? then (sws', [])
        else if s.config.None? then (sws', [SvcAdd(name, cfg, s.endpoints.value)])
        else (sws', [SvcConfig(name, cfg)])
    case EndpointList(name, added, removed) =>
      if (added == [] && removed == []) || name !in sws then (sws, [])
      else
        var (s', evts) := UpdateEndpoints(name, sws[name], added, removed);
        (sws[name := s'], evts)
  }

  class Store {
    var sws: Services
    var events: seq<Event>

    constructor ()
      ensures sws == map[] && events == []
    {
      sws, events := map[], [];
    }

    method HandleDependencyUpdate(added: seq<string>, removed: seq<string>)
      modifies this
      ensures sws == Apply(old(sws), Dependency(added, removed)).0
      ensures events == old(events) + Apply(old(sws), Dependency(added, removed)).1
    {
      var i := 0;
      while i < |added|
        invariant 0 <= i <= |added|
        invariant sws == AddNames(old(sws), added[..i]) && events == old(events)
      {
        assert added[..i + 1][..i] == added[..i];
        if added[i] !in sws {
          sws := sws[added[i] := Service(None, None)];
        }
        i := i + 1;
      }
      assert added[..i] == added;
      ghost var mid := sws;
      i := 0;
      while i < |removed|
        invariant 0 <= i <= |removed|
        invariant sws == RemoveNames(mid, removed[..i]).0
        invariant events == old(events) + RemoveNames(mid, removed[..i]).1
      {
        assert removed[..i + 1][..i] == removed[..i];
        if removed[i] in sws {
          sws := sws - {removed[i]};
          events := events + [SvcRemove(removed[i])];
        }
        i := i + 1;
      }
      assert removed[..i] == removed;
    }

    method HandleSvcConfigUpdate(name: string, cfg: Option<Cfg>)
      modifies this
      ensures sws == Apply(old(sws), Config(name, cfg)).0
      ensures events == old(events) + Apply(old(sws), Config(name, cfg)).1
    {
      if name !in sws {
        return;
      }
      var s := sws[name];
      sws := sws[name := s.(config := cfg)];
      if s.endpoints.None? {
        return;
      }
      if s.config.None? {
        events := events + [SvcAdd(name, cfg, s.endpoints.value)];
      } else {
        events := events + [SvcConfig(name, cfg)];
      }
    }

    method HandleSvcEndpointUpdate(name: string, added: seq<Endpoint>, removed: seq<Endpoint>)
      modifies this
      ensures sws == Apply(old(sws), EndpointList(name, added, removed)).0
      ensures events == old(events) + Apply(old(sws), EndpointList(name, added, removed)).1
    {
      if |added| == 0 && |removed| == 0 {
        return;
      }
      if name !in sws {
        return;
      }
      var s := sws[name];
      var eps, validRemoved := RemoveValid(ListOf(s), removed);
      var eps', validAdded := AddValid(eps, added);
      sws := sws[name := s.(endpoints := if s.endpoints.None? && validAdded == [] then None else Some(eps'))];
      if s.config.None? {
        return;
      }
      if s.endpoints.None? {
        events := events + [SvcAdd(name, s.config, eps')];
      } else if |validAdded| != 0 || |validRemoved| != 0 {
        events := events + [SvcEndpoint(name, validAdded, validRemoved)];
      }
    }
  }

  method RemoveValid(eps: seq<Endpoint>, removed: seq<Endpoint>) returns (rest: seq<Endpoint>, valid: seq<Endpoint>)
    ensures (rest, valid) == RemoveEach(eps, removed)
  {
    rest, valid := eps, [];
    var k := 0;
    while k < |removed|
      invariant 0 <= k <= |removed|
      invariant (rest, valid) == RemoveEach(eps, removed[..k])
    {
      assert removed[..k + 1][..k] == removed[..k];
      var i, ok := IsContainEndpoint(rest, removed[k].addr);
      if ok {
        rest := rest[..i] + rest[i + 1..];
        valid := valid + [removed[k]];
      }
      k := k + 1;
    }
    assert removed[..k] == removed;
  }

  method AddValid(eps: seq<Endpoint>, added: seq<Endpoint>) returns (rest: seq<Endpoint>, valid: seq<Endpoint>)
    ensures (rest, valid) == AddEach(eps, added)
  {
    rest, valid := eps, [];
    var k := 0;
    while k < |added|
      invariant 0 <= k <= |added|
      invariant (rest, valid) == AddEach(eps, added[..k])
    {
      assert added[..k + 1][..k] == added[..k];
      var _, ok := IsContainEndpoint(rest, added[k].addr);
      if !ok {
        rest := rest + [added[k]];
        valid := valid + [added[k]];
      }
      k := k + 1;
    }
    assert added[..k] == added;
  }

  // ---------- the controller ----------

  /** A running processor: its configuration and its hosts by address. */
  datatype Proc = Proc(config: Option<Cfg>, hosts: Hosts)

  type Procs = map<string, Proc>

  /** One event replayed: additions of endpoints come before removals. */
  function Replay(accepts: Accepts, procs: Procs, e: Event): Procs {
    match e
    case SvcAdd(name, cfg, eps) =>
      if name in procs || name == "" || cfg.None? || !accepts(name, cfg) then procs
      else procs[name := Proc(cfg, HostsOf(eps))]
    case SvcRemove(name) => procs - {name}
    case SvcConfig(name, cfg) =>
      if name in procs && accepts(name, cfg) then procs[name := procs[name].(config := cfg)] else procs
    case SvcEndpoint(name, added, removed) =>
      if name !in procs then procs
      else procs[name := procs[name].(hosts := procs[name].hosts + HostsOf(added) - AddrsOf(removed))]
  }

  function ReplayAll(accepts: Accepts, procs: Procs, evts: seq<Event>): Procs {
    if evts == [] then procs else Replay(accepts, ReplayAll(accepts, procs, evts[..|evts| - 1]), evts[|evts| - 1])
  }

  method EndpointsToHosts(eps: seq<Endpoint>) returns (hosts: seq<(string, bool)>)
    ensures |hosts| == |eps|
    ensures forall i :: 0 <= i < |eps| ==> hosts[i] == (HostAddr(eps[i].addr), eps[i].backup)
  {
    hosts := [];
    var i := 0;
    while i < |eps|
      invariant 0 <= i <= |eps| && |hosts| == i
      invariant forall j :: 0 <= j < i ==> hosts[j] == (HostAddr(eps[j].addr), eps[j].backup)
    {
      hosts := hosts + [(HostAddr(eps[i].addr), eps[i].backup)];
      i := i + 1;
    }
  }

  method AddHosts(hosts: Hosts, eps: seq<Endpoint>) returns (hosts': Hosts)
    ensures hosts' == hosts + HostsOf(eps)
  {
    var added := EndpointsToHosts(eps);
    hosts' := hosts;
    var i := 0;
    while i < |added|
      invariant 0 <= i <= |added|
      invariant hosts' == hosts + HostsOf(eps[..i])
    {
      assert eps[..i + 1][..i] == eps[..i];
      hosts' := hosts'[added[i].0 := added[i].1];
      i := i + 1;
    }
    assert eps[..i] == eps;
  }

  method RemoveHostsOf(hosts: Hosts, eps: seq<Endpoint>) returns (hosts': Hosts)
    ensures hosts' == hosts - AddrsOf(eps)
  {
    var removed := EndpointsToHosts(eps);
    hosts' := hosts;
    var i := 0;
    while i < |removed|
      invariant 0 <= i <= |removed|
      invariant hosts' == hosts - AddrsOf(eps[..i])
    {
      assert eps[..i + 1] == eps[..i] + [eps[i]];
      AddrsAppend(eps[..i], eps[i]);
      hosts' := hosts' - {removed[i].0};
      i := i + 1;
    }
    assert eps[..i] == eps;
  }

  class Controller {
    var procs: Procs
    const accepts: Accepts

    constructor (accepts: Accepts)
      ensures procs == map[] && this.accepts == accepts
    {
      procs := map[];
      this.accepts := accepts;
    }

    method HandleEvent(e: Event)
      modifies this
      ensures procs == Replay(accepts, old(procs), e)
    {
      match e
      case SvcAdd(name, cfg, eps) =>
        if name in procs || name == "" || cfg.None? || !accepts(name, cfg) {
          return;
        }
        var hosts := AddHosts(map[], eps);
        assert map[] + HostsOf(eps) == HostsOf(eps);
        procs := procs[name := Proc(cfg, hosts)];
      case SvcRemove(name) =>
        if name in procs {
          procs := procs - {name};
        } else {
          assert procs - {name} == procs;
        }
      case SvcConfig(name, cfg) =>
        if name in procs && accepts(name, cfg) {
          procs := procs[name := procs[name].(config := cfg)];
        }
      case SvcEndpoint(name, added, removed) =>
        HandleEndpointsAdd(name, added);
        HandleEndpointsRemove(name, removed);
    }

    method HandleEndpointsAdd(name: string, added: seq<Endpoint>)
      modifies this
      ensures procs == if name !in old(procs) then old(procs)
        else old(procs)[name := old(procs)[name].(hosts := old(procs)[name].hosts + HostsOf(added))]
    {
      if name !in procs {
        return;
      }
      var hosts := AddHosts(procs[name].hosts, added);
      procs := procs[name := procs[name].(hosts := hosts)];
    }

    method HandleEndpointsRemove(name: string, removed: seq<Endpoint>)
      modifies this
      ensures procs == if name !in old(procs) then old(procs)
        else old(procs)[name := old(procs)[name].(hosts := old(procs)[name].hosts - AddrsOf(removed))]
    {
      if name !in procs {
        return;
      }
      var hosts := RemoveHostsOf(procs[name].hosts, removed);
      procs := procs[name := procs[name].(hosts := hosts)];
    }
  }
}
