/**
 The loops of `get_net_config_from_topology`, each computing the function of `TopologyConfig`
 that specifies it.
 */
module TopologyConfigLoops {
  import opened Wrappers
  import opened Dicts
  import opened Topologies
  import opened RoutingGraph
  import opened FirstHops
  import opened IpAddresses
  import opened NetConfigs
  import opened TopologyConfig

  method ComputeRouteTo(env: Env, m: Name, f: Family, target: Name) returns (r: Result<seq<Triple>, Error>)
    requires env.Valid() && m in env.ifaces.vals
    ensures r == RouteTo(env, m, f, target)
  {
    GraphClosed(env);
    var start := env.choices.order[m];
    if target in start || !NetHas(env, target, f) {
      return Success([]);
    }
    var hop := Bfs(env.graph, start, {target});
    HopUsable(env, m, {target});
    if hop.None? || !NetHas(env, hop.value.via, f) {
      return Success([]);
    }
    var ip := GetIp(env, hop.value.router, hop.value.via, f);
    if ip.Failure? {
      return Failure(ip.error);
    }
    if ip.value.None? {
      return Success([]);
    }
    var net := GetNet(env, target, f);
    if net.Failure? {
      return Failure(net.error);
    }
    return Success([Triple(net.value, env.Row(m).vals[hop.value.via], ip.value.value.ip)]);
  }

  method CollectRoutesTo(env: Env, m: Name, f: Family) returns (r: Result<seq<Triple>, Error>)
    requires env.Valid() && m in env.ifaces.vals
    ensures r == RoutesTo(env, m, f, NetNames(env.topology))
  {
    hide Env.Valid, RouteTo;
    var targets := NetNames(env.topology);
    r := Success([]);
    for k := 0 to |targets|
      invariant r == RoutesTo(env, m, f, targets[..k])
    {
      assert targets[..k + 1][..k] == targets[..k];
      if r.Success? {
        var part := ComputeRouteTo(env, m, f, targets[k]);
        r := if part.Success? then Success(r.value + part.value) else part;
      }
    }
    assert targets[..|targets|] == targets;
  }

  method CollectFamily(env: Env, m: Name, f: Family) returns (r: Result<seq<Triple>, Error>)
    requires env.Valid() && m in env.ifaces.vals
    ensures r == FamilyRoutes(env, m, f)
  {
    var has := HasAddress(env, m, f, env.choices.order[m]);
    if has.Failure? {
      return Failure(has.error);
    }
    if !has.value {
      return Success([]);
    }
    var specific := CollectRoutesTo(env, m, f);
    if specific.Failure? {
      return specific;
    }
    var default := CollectDefault(env, m, f);
    if default.Failure? {
      return default;
    }
    return Success(specific.value + default.value);
  }

  method FindGateway(env: Env, m: Name, gateway: Name) returns (hop: Option<Hop>)
    requires env.Valid() && m in env.ifaces.vals && env.request.gateway == Some(gateway)
    ensures hop == HopToMachine(env, m, gateway)
  {
    GraphClosed(env);
    if env.NetSet(m) * env.NetSet(gateway) != {} {
      return Some(Hop(env.choices.shared[m], gateway));
    }
    hop := Bfs(env.graph, env.choices.order[m], env.NetSet(gateway));
  }

  method CollectDefault(env: Env, m: Name, f: Family) returns (r: Result<seq<Triple>, Error>)
    requires env.Valid() && m in env.ifaces.vals
    ensures r == DefaultRoute(env, m, f)
  {
    if env.request.gateway.None? {
      return Success([]);
    }
    var gateway := env.request.gateway.value;
    if m == gateway {
      return ExternalRoute(env, m, f);
    }
    var hop := FindGateway(env, m, gateway);
    TowardMachine(env, m, gateway);
    hide HopToMachine, Env.Valid, GetIp, NetHas, ExternalRoute;
    if hop.None? || !NetHas(env, hop.value.via, f) {
      return Success([]);
    }
    var ip := GetIp(env, hop.value.router, hop.value.via, f);
    if ip.Failure? {
      return Failure(ip.error);
    }
    if ip.value.None? {
      return Success([]);
    }
    return Success([Triple(DefaultNet(f), env.Row(m).vals[hop.value.via], ip.value.value.ip)]);
  }

  method CollectCandidates(env: Env, m: Name) returns (r: Result<seq<Triple>, Error>)
    requires env.Valid() && m in env.ifaces.vals
    ensures r == Candidates(env, m, env.request.Families())
  {
    var families := env.request.Families();
    r := Success([]);
    for k := 0 to |families|
      invariant r == Candidates(env, m, families[..k])
    {
      assert families[..k + 1][..k] == families[..k];
      if r.Success? {
        var part := CollectFamily(env, m, families[k]);
        r := if part.Success? then Success(r.value + part.value) else part;
      }
    }
    assert families[..|families|] == families;
  }

  method FillEntries(env: Env, m: Name, routes: seq<Triple>, empty: MachineConfig)
    returns (r: Result<MachineConfig, Error>)
    requires m in env.ifaces.vals && env.Row(m).Valid()
    requires forall n :: n in env.Row(m).vals ==> env.Row(m).vals[n] < |empty|
    requires forall x :: x in routes ==> x.eth in env.Row(m).vals.Values
    ensures r == Filled(env, m, routes, empty, |env.Row(m).keys|)
  {
    var row := env.Row(m);
    var byEth := GroupKept(routes, row.vals.Values);
    r := Success(empty);
    for k := 0 to |row.keys|
      invariant r == Filled(env, m, routes, empty, k)
    {
      var n := row.keys[k];
      assert n in row.vals && row.vals[n] in row.vals.Values;
      if r.Success? {
        var addresses := AddressesOn(env, m, n, env.request.Families());
        r := if addresses.Failure? then Failure(addresses.error)
             else Success(r.value[row.vals[n] := Static(addresses.value, byEth[row.vals[n]])]);
      }
    }
  }

  lemma RowIsNumbered(env: Env, m: Name)
    requires env.Valid() && m in env.ifaces.vals
    ensures env.Row(m).Valid() && Numbers(env.Row(m)) != []
  {
  }

  method BuildMachine(env: Env, m: Name) returns (r: Result<MachineConfig, Error>)
    requires env.Valid() && m in env.ifaces.vals
    ensures r == ConfigOf(env, m)
  {
    hide Env.Valid, Candidates, Filled, Numbers;
    var row := env.Row(m);
    RowIsNumbered(env, m);
    var candidates := CollectCandidates(env, m);
    if candidates.Failure? {
      return Failure(candidates.error);
    }
    CandidateNumbers(env, m, env.request.Families());
    var empty := EmptyConfig(MaxOf(Numbers(row)) + 1);
    forall n | n in row.vals
      ensures row.vals[n] < |empty|
    {
      NumberBound(row, n);
    }
    r := FillEntries(env, m, candidates.value, empty);
  }

  lemma MachineHasRow(env: Env, k: nat)
    requires env.Valid() && k < |env.ifaces.keys|
    ensures env.ifaces.keys[k] in env.ifaces.vals
  {
    assert env.ifaces.keys[k] in env.ifaces.keys;
  }

  method BuildAll(env: Env) returns (r: Result<map<Name, MachineConfig>, Error>)
    requires env.Valid()
    ensures r == ConfigsOf(env, |env.ifaces.keys|)
  {
    var machines := env.ifaces.keys;
    hide Env.Valid, ConfigOf;
    r := Success(map[]);
    for k := 0 to |machines|
      invariant r == ConfigsOf(env, k)
    {
      MachineHasRow(env, k);
      if r.Success? {
        var nc := BuildMachine(env, machines[k]);
        r := if nc.Failure? then Failure(nc.error) else Success(r.value[machines[k] := nc.value]);
      }
    }
  }

  method GetNetConfigFromTopology(t: Topology, data: Data, request: Request, choices: Choices)
    returns (r: Result<map<Name, MachineConfig>, Error>)
    requires UniqueNames(t) && ChoicesFit(t, request, choices)
    ensures r == NetConfigOf(t, data, request, choices)
  {
    if !request.ipv4 && !request.ipv6 {
      return Failure(NoFamily);
    }
    EnvIsValid(t, data, request, choices);
    var ifaces := AssignInterfaces(t);
    var graph := BuildGraph(t, ifaces);
    r := BuildAll(Env(t, ifaces, graph, data, request, choices));
  }
}
