/**
 How the machines of a lab forward packets, given the configurations written to them.
 */
module Forwarding {
  import opened Wrappers
  import opened Dicts
  import opened Topologies
  import opened RoutingGraph
  import opened FirstHops
  import opened ShortestPaths
  import opened IpAddresses
  import opened NetConfigs
  import opened TopologyConfig

  // ----- forwarding, defined on the produced configurations only -----

  datatype Action = OnLink | Via(hop: Address)

  /** A line of the kernel's routing table. */
  datatype Entry = Entry(net: Block, eth: nat, action: Action)

  /** The connected networks of the addresses, and the static routes. */
  ghost function KernelTable(nc: MachineConfig): set<Entry> {
    (set e, i | 0 <= e < |nc| && nc[e].Static? && i in nc[e].addresses :: Entry(NetworkOf(i), e, OnLink))
    + (set e, r | 0 <= e < |nc| && nc[e].Static? && r in nc[e].routes :: Entry(r.net, e, Via(r.hop)))
  }

  /** The longest match; a connected network wins over a route of the same length. */
  ghost predicate Chosen(nc: MachineConfig, a: Address, x: Entry) {
    && x in KernelTable(nc)
    && x.net.Contains(a)
    && forall y :: y in KernelTable(nc) && y.net.Contains(a) ==>
         y.net.len < x.net.len || (y.net.len == x.net.len && (y.action.OnLink? ==> x.action.OnLink?))
  }

  /** Machine `m` is configured with address `hop` on network `n`. */
  ghost predicate Holds(ifaces: Interfaces, configs: map<Name, MachineConfig>, m: Name, n: Name, hop: Address) {
    && m in configs && m in ifaces.vals && n in ifaces.vals[m].vals
    && var eth := ifaces.vals[m].vals[n];
       && eth < |configs[m]|
       && configs[m][eth].Static?
       && exists i :: i in configs[m][eth].addresses && i.ip == hop
  }

  /** Machine `m` may hand a packet for `a` to machine `m2`: the next hop of the route it chooses
      answers on the network plugged into the interface of the route. */
  ghost predicate Sends(ifaces: Interfaces, configs: map<Name, MachineConfig>, m: Name, a: Address, m2: Name) {
    && m in configs && m in ifaces.vals
    && exists x, n ::
         && Chosen(configs[m], a, x) && x.action.Via?
         && n in ifaces.vals[m].vals && ifaces.vals[m].vals[n] == x.eth
         && Holds(ifaces, configs, m2, n, x.action.hop)
  }

  /** Machine `m` puts a packet for `a` on network `t` itself, whatever choice its table leaves. */
  ghost predicate PutsOnLink(ifaces: Interfaces, configs: map<Name, MachineConfig>, m: Name, a: Address, t: Name) {
    && m in configs && m in ifaces.vals && t in ifaces.vals[m].vals
    && (exists x :: Chosen(configs[m], a, x))
    && (forall x :: Chosen(configs[m], a, x) ==> x.action.OnLink? && x.eth == ifaces.vals[m].vals[t])
  }

  /** A packet for `a` at `m` is forwarded exactly `k` times, along whatever choices, and is then
      put on network `t`. */
  ghost predicate Delivered(ifaces: Interfaces, configs: map<Name, MachineConfig>, m: Name, a: Address, t: Name, k: nat)
    decreases k
  {
    if k == 0 then PutsOnLink(ifaces, configs, m, a, t)
    else
      && m in configs
      && (forall x :: Chosen(configs[m], a, x) ==> x.action.Via?)
      && (exists m2 :: Sends(ifaces, configs, m, a, m2))
      && (forall m2 :: Sends(ifaces, configs, m, a, m2) ==> Delivered(ifaces, configs, m2, a, t, k - 1))
  }

  /** A packet for `a` at `m` is forwarded exactly `k` times, along whatever choices, and is then at
      machine `g`, where it was not before. */
  ghost predicate Arrives(ifaces: Interfaces, configs: map<Name, MachineConfig>, m: Name, a: Address, g: Name, k: nat)
    decreases k
  {
    if k == 0 then m == g
    else
      && m != g && m in configs
      && (forall x :: Chosen(configs[m], a, x) ==> x.action.Via?)
      && (exists m2 :: Sends(ifaces, configs, m, a, m2))
      && (forall m2 :: Sends(ifaces, configs, m, a, m2) ==> Arrives(ifaces, configs, m2, a, g, k - 1))
  }

  // ----- complete addressing of a family -----

  function Attr(env: Env, m: Name, n: Name): Name
    requires m in env.ifaces.vals
  {
    AttrName(|env.Row(m).keys|, m, n)
  }

  /** Every network has a prefix, every machine an address of that prefix on each of its networks,
      and the names of the containers do not make two machines of a network share one. */
  ghost predicate Addressed(env: Env, f: Family) {
    && env.data.Typed()
    && f in env.request.Families()
    && (forall n :: n in NetNames(env.topology) ==> n in env.data.Nets(f))
    && (forall m, n :: m in env.ifaces.vals && n in env.Row(m).vals ==>
          && n in env.data.Nets(f)
          && Attr(env, m, n) in env.data.Ips(f)
          && env.data.Nets(f)[n].Contains(env.data.Ips(f)[Attr(env, m, n)].ip)
          && env.data.Ips(f)[Attr(env, m, n)].len == env.data.Nets(f)[n].len)
    && (forall m, m2, n :: m in env.ifaces.vals && m2 in env.ifaces.vals && m != m2
                           && n in env.Row(m).vals && n in env.Row(m2).vals ==>
          env.data.Ips(f)[Attr(env, m, n)].ip != env.data.Ips(f)[Attr(env, m2, n)].ip)
  }

  ghost predicate DisjointNets(env: Env, f: Family) {
    forall n, n2 :: n in NetNames(env.topology) && n2 in NetNames(env.topology) && n != n2
                    && n in env.data.Nets(f) && n2 in env.data.Nets(f) ==>
      Disjoint(env.data.Nets(f)[n], env.data.Nets(f)[n2])
  }

  ghost predicate DistinctNumbers(env: Env) {
    forall m :: m in env.ifaces.vals ==> Injective(env.Row(m))
  }

  /** The setting of the theorems: a valid lab, addressed for family `f`, whose configurations were
      computed without an exception. */
  ghost predicate Ready(env: Env, configs: map<Name, MachineConfig>, f: Family) {
    && env.Valid()
    && Addressed(env, f) && DisjointNets(env, f) && DistinctNumbers(env)
    && ConfigsOf(env, |env.ifaces.keys|) == Success(configs)
  }

  // ----- distances seen from a machine -----

  /** The networks of a machine are at most one step away from each of them. */
  lemma RouterReach(env: Env, r: Name, via: Name, from: set<Name>)
    requires env.Valid() && r in env.ifaces.vals && via in env.Row(r).vals && via in from
    ensures env.NetSet(r) <= Within(env.graph, from, 1)
  {
    WithinOne(env.graph, from);
    hide Within, Next;
    forall x | x in env.NetSet(r)
      ensures x in Within(env.graph, from, 1)
    {
      if x != via {
        assert via in env.Row(r).keys && via in NetNames(env.topology);
        GraphEdges(env.topology, env.ifaces, via, Edge(x, r));
        StepInNext(env.graph, from, via, Edge(x, r));
      }
    }
  }

  /** The router that the search names is one step closer. */
  lemma HopIsCloser(env: Env, m: Name, targets: set<Name>, k: nat)
    requires env.Valid() && Closed(env.graph) && m in env.ifaces.vals
    requires Away(env.graph, env.NetSet(m), targets, k + 1)
    ensures var r := FirstHop(env.graph, env.choices.order[m], targets);
            && r.Some? && r.value.via in env.NetSet(m)
            && r.value.router in env.ifaces.vals && r.value.via in env.Row(r.value.router).vals
            && Away(env.graph, env.NetSet(r.value.router), targets, k)
  {
    var g, from := env.graph, env.NetSet(m);
    var r := FirstHop(g, env.choices.order[m], targets);
    HopUsable(env, m, targets);
    FirstHopExact(g, env.choices.order[m], targets);
    var next, n := ExactHopStep(g, from, targets, r, k);
    RouterReach(env, r.value.router, r.value.via, from);
    GraphEdges(env.topology, env.ifaces, r.value.via, Edge(next, r.value.router));
    OneStepCloser(g, from, env.NetSet(r.value.router), targets, k, next, n);
  }
}
