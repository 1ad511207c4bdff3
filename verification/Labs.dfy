/**
 The whole way of an IPv4 lab: networks drawn by the allocator, addresses assigned from the topology,
 configurations computed from both, packets forwarded by them.
 */
module Labs {
  import opened Wrappers
  import opened Dicts
  import opened Topologies
  import opened ShortestPaths
  import opened IpAddresses
  import opened NetConfigs
  import opened NetworkAllocation
  import opened TopologyConfig
  import opened Forwarding
  import opened MachineTables
  import opened Delivery
  import opened MirrorAddressing
  import opened AddressAssignment

  /** A topology that the naming of addresses and interfaces suits: names are unique, no network lists a
      machine twice, no interface number is reused, no two addresses have the same name. */
  ghost predicate Sound(t: Topology) {
    && UniqueNames(t) && SingleMembership(t)
    && (forall m :: m in Machines(t) ==> NoReuse(t, m))
    && var d := MachinesByNet(t); Unambiguous(Places(d, |d.keys|))
  }

  /** The networks of the lab are different ones of those that `_random_networks` returned. */
  ghost predicate Drawn(t: Topology, nets: map<Name, Subnet>, drawn: seq<Subnet>, index: map<Name, nat>) {
    && (forall n :: n in NetNames(t) ==> n in index && index[n] < |drawn| && n in nets && nets[n] == drawn[index[n]])
    && (forall n, n2 :: n in NetNames(t) && n2 in NetNames(t) && n != n2 ==> index[n] != index[n2])
  }

  /** The addresses of the lab are those that `random_ips_from_topology` wrote. */
  ghost predicate Assigned(t: Topology, data: Data, before: map<Name, Interface>, chosen: seq<Interface>) {
    var d := MachinesByNet(t);
    var places := Places(d, |d.keys|);
    |chosen| == |places| && ChosenWell(data.nets, places, chosen) && data.ips == Written(before, places, chosen)
  }

  ghost predicate Only4(request: Request) {
    request.ipv4 && !request.ipv6
  }

  /** A lab made this way has configurations, and they are ready to forward. */
  lemma DrawnLabIsReady(t: Topology, data: Data, request: Request, choices: Choices,
                        masks: seq<int>, from: Subnet, exclude: seq<Subnet>, private: bool, drawn: seq<Subnet>,
                        index: map<Name, nat>, before: map<Name, Interface>, chosen: seq<Interface>)
    returns (configs: map<Name, MachineConfig>)
    requires Sound(t) && Only4(request) && ChoicesFit(t, request, choices) && data.Typed()
    requires Allocated(masks, from, exclude, private, drawn) && Drawn(t, data.nets, drawn, index)
    requires Assigned(t, data, before, chosen)
    ensures NetConfigOf(t, data, request, choices) == Success(configs)
    ensures Ready(EnvOf(t, data, request, choices), configs, V4)
  {
    var env := EnvOf(t, data, request, choices);
    hide Addressed, DisjointNets, ConfigsOf, Env.Valid, Ready, Places, ChosenWell, Written, Unambiguous, Allocated, ChoicesFit;
    assert request.Families() == [V4];
    AssignedIsAddressed(t, data, request, choices, V4, before, chosen);
    AllocatedAreDisjoint(env, V4, masks, from, exclude, private, drawn, index);
    EnvIsValid(t, data, request, choices);
    ConfigsSucceed(env, |env.ifaces.keys|);
    configs := ConfigsOf(env, |env.ifaces.keys|).value;
    assert NetConfigOf(t, data, request, choices) == Success(configs);
    LabIsReady(t, data, request, choices, V4, configs);
  }

  /** In a lab made this way, every address of a network that a machine can reach in `j` steps is delivered
      to, in at most `j` hops. */
  lemma DrawnLabDelivers(t: Topology, data: Data, request: Request, choices: Choices,
                         masks: seq<int>, from: Subnet, exclude: seq<Subnet>, private: bool, drawn: seq<Subnet>,
                         index: map<Name, nat>, before: map<Name, Interface>, chosen: seq<Interface>,
                         m: Name, n: Name, a: Address, j: nat)
    returns (configs: map<Name, MachineConfig>, k: nat)
    requires Sound(t) && Only4(request) && ChoicesFit(t, request, choices) && data.Typed()
    requires Allocated(masks, from, exclude, private, drawn) && Drawn(t, data.nets, drawn, index)
    requires Assigned(t, data, before, chosen)
    requires n in NetNames(t) && n in data.nets && data.nets[n].Contains(a)
    requires var env := EnvOf(t, data, request, choices);
             m in env.ifaces.vals && n in Within(env.graph, env.NetSet(m), j)
    ensures NetConfigOf(t, data, request, choices) == Success(configs)
    ensures k <= j && Delivered(EnvOf(t, data, request, choices).ifaces, configs, m, a, n, k)
  {
    hide Ready, Delivered, Within, NetConfigOf, Sound, Assigned, Drawn, Allocated, ChoicesFit, Assign;
    configs := DrawnLabIsReady(t, data, request, choices, masks, from, exclude, private, drawn, index, before, chosen);
    k := ReachableIsDelivered(EnvOf(t, data, request, choices), configs, V4, m, n, a, j);
  }
}
