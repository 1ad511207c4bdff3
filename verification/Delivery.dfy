/**
 What the configurations do together: a packet forwarded by the kernels of the lab, each with
 the table computed for its machine alone, reaches its destination without a loop.
 */
module Delivery {
  import opened Wrappers
  import opened Dicts
  import opened Topologies
  import opened RoutingGraph
  import opened FirstHops
  import opened ShortestPaths
  import opened IpAddresses
  import opened NetConfigs
  import opened TopologyConfig
  import opened Forwarding
  import opened MachineTables
  import opened MachineLookup

  lemma {:induction false} ConfigsHave(env: Env, k: nat, configs: map<Name, MachineConfig>)
    requires env.Valid() && k <= |env.ifaces.keys| && ConfigsOf(env, k) == Success(configs)
    ensures forall i :: 0 <= i < k ==>
              env.ifaces.keys[i] in configs && ConfigOf(env, env.ifaces.keys[i]) == Success(configs[env.ifaces.keys[i]])
  {
    hide ConfigOf, Env.Valid;
    if k > 0 {
      ConfigsHave(env, k - 1, ConfigsOf(env, k - 1).value);
    }
  }

  lemma ReadyMachine(env: Env, configs: map<Name, MachineConfig>, f: Family, m: Name) returns (routes: seq<Triple>)
    requires Ready(env, configs, f) && m in env.ifaces.vals
    ensures m in configs && Machine(env, f, m, configs[m], routes)
  {
    assert m in env.ifaces.keys;
    ConfigsHave(env, |env.ifaces.keys|, configs);
    var i :| 0 <= i < |env.ifaces.keys| && env.ifaces.keys[i] == m;
    hide Env.Valid, Addressed, DisjointNets, ConfigsOf, ConfigOf, Injective;
    routes := MachineIs(env, f, m, configs[m]);
  }

  lemma HoldsOwn(env: Env, configs: map<Name, MachineConfig>, f: Family, r: Name, n: Name)
    requires Ready(env, configs, f) && r in env.ifaces.vals && n in env.Row(r).vals
    requires Attr(env, r, n) in env.data.Ips(f)
    ensures Holds(env.ifaces, configs, r, n, IpAt(env, f, r, n).ip)
  {
    hide Env.Valid, Addressed, DisjointNets, ConfigsOf, Injective, Machine;
    var routes := ReadyMachine(env, configs, f, r);
    EntryAddress(env, f, r, configs[r], routes, n);
  }

  lemma HeldAddress(env: Env, configs: map<Name, MachineConfig>, f: Family, m: Name, n: Name, hop: Address)
    requires Ready(env, configs, f) && Holds(env.ifaces, configs, m, n, hop) && hop.family == f
    ensures m in env.ifaces.vals && n in env.Row(m).vals && Attr(env, m, n) in env.data.Ips(f)
    ensures hop == IpAt(env, f, m, n).ip
  {
    hide Env.Valid, Addressed, DisjointNets, ConfigsOf, Injective, Machine;
    var routes := ReadyMachine(env, configs, f, m);
    EntryAddress(env, f, m, configs[m], routes, n);
  }

  /** The only holder, on network `n`, of the address of machine `r` there, is `r`. */
  lemma HolderIs(env: Env, configs: map<Name, MachineConfig>, f: Family, r: Name, n: Name, m2: Name)
    requires Ready(env, configs, f) && r in env.ifaces.vals && n in env.Row(r).vals
    requires Attr(env, r, n) in env.data.Ips(f)
    ensures Holds(env.ifaces, configs, m2, n, IpAt(env, f, r, n).ip) <==> m2 == r
  {
    hide Env.Valid, DisjointNets, ConfigsOf, Injective, Holds;
    HoldsOwn(env, configs, f, r, n);
    if Holds(env.ifaces, configs, m2, n, IpAt(env, f, r, n).ip) {
      HeldAddress(env, configs, f, m2, n, IpAt(env, f, r, n).ip);
    }
  }

  /** A machine that chooses the hop through `h` sends to its router, and to no other machine. */
  lemma SendsToRouter(env: Env, configs: map<Name, MachineConfig>, f: Family, m: Name, h: Hop, a: Address)
    requires Ready(env, configs, f) && m in env.ifaces.vals && m in configs
    requires h.via in env.Row(m).vals && h.router in env.ifaces.vals && h.via in env.Row(h.router).vals
    requires Attr(env, h.router, h.via) in env.data.Ips(f)
    requires ChoosesVia(configs[m], a, env.Row(m).vals[h.via], IpAt(env, f, h.router, h.via).ip)
    ensures forall m2 :: Sends(env.ifaces, configs, m, a, m2) <==> m2 == h.router
  {
    assert Injective(env.Row(m));
    hide Ready, Chosen, Holds;
    var hop := IpAt(env, f, h.router, h.via).ip;
    forall m2
      ensures Sends(env.ifaces, configs, m, a, m2) <==> m2 == h.router
    {
      HolderIs(env, configs, f, h.router, h.via, m2);
      if Sends(env.ifaces, configs, m, a, m2) {
        var x, n :| Chosen(configs[m], a, x) && x.action.Via?
                    && n in env.Row(m).vals && env.Row(m).vals[n] == x.eth
                    && Holds(env.ifaces, configs, m2, n, x.action.hop);
        assert n == h.via;
      }
      var x :| Chosen(configs[m], a, x);
      assert x.eth == env.Row(m).vals[h.via] && x.action == Via(hop);
    }
  }

  // ----- packets for a network of the lab -----

  /** The first hop toward a network `k + 1` steps away, and what it gives. */
  lemma HopToward(env: Env, configs: map<Name, MachineConfig>, f: Family, m: Name, t: Name, a: Address, k: nat)
    returns (h: Hop)
    requires Ready(env, configs, f) && m in env.ifaces.vals && t in NetNames(env.topology)
    requires t in env.data.Nets(f) && NetAt(env, f, t).Contains(a)
    requires Away(env.graph, env.NetSet(m), {t}, k + 1)
    ensures h.router in env.ifaces.vals && Away(env.graph, env.NetSet(h.router), {t}, k)
    ensures m in configs && forall x :: Chosen(configs[m], a, x) ==> x.action.Via?
    ensures forall m2 :: Sends(env.ifaces, configs, m, a, m2) <==> m2 == h.router
  {
    hide Env.Valid, DisjointNets, ConfigsOf, Injective, FirstHop, Within, Next, Chosen, KernelTable;
    GraphClosed(env);
    WithinOne(env.graph, env.NetSet(m));
    WithinGrows(env.graph, env.NetSet(m), 0, k);
    RowOnTopology(env, m, t);
    assert t !in env.choices.order[m];
    HopIsCloser(env, m, {t}, k);
    h := FirstHop(env.graph, env.choices.order[m], {t}).value;
    AddressedIp(env, f, h.router, h.via);
    RowOnTopology(env, m, h.via);
    var r := Triple(NetAt(env, f, t), env.Row(m).vals[h.via], IpAt(env, f, h.router, h.via).ip);
    assert IsRouteTo(env, f, m, t, r);
    var routes := ReadyMachine(env, configs, f, m);
    NetFamily(env, f, t);
    RemoteLookup(env, f, m, configs[m], routes, t, r, a);
    SendsToRouter(env, configs, f, m, h, a);
  }

  lemma DeliveredHere(env: Env, configs: map<Name, MachineConfig>, f: Family, m: Name, t: Name, a: Address)
    requires Ready(env, configs, f) && m in env.ifaces.vals && t in env.NetSet(m)
    requires t in env.data.Nets(f) && NetAt(env, f, t).Contains(a)
    ensures PutsOnLink(env.ifaces, configs, m, a, t)
  {
    hide Env.Valid, Addressed, DisjointNets, ConfigsOf, Injective, Chosen, KernelTable, Machine;
    RowOnTopology(env, m, t);
    NetFamily(env, f, t);
    var routes := ReadyMachine(env, configs, f, m);
    LocalLookup(env, f, m, configs[m], routes, t, a);
  }

  /** Delivery without loops: a packet for an address of a network `k` steps away is forwarded
      exactly `k` times, each time to a machine one step closer, and is then put on that network. */
  lemma {:induction false} DeliveredAt(env: Env, configs: map<Name, MachineConfig>, f: Family,
                                       m: Name, t: Name, a: Address, k: nat)
    requires Ready(env, configs, f) && m in env.ifaces.vals && t in NetNames(env.topology)
    requires t in env.data.Nets(f) && NetAt(env, f, t).Contains(a)
    requires Away(env.graph, env.NetSet(m), {t}, k)
    ensures Delivered(env.ifaces, configs, m, a, t, k)
    decreases k
  {
    hide Ready, Within, Next, Chosen, PutsOnLink, Sends;
    if k == 0 {
      WithinOne(env.graph, env.NetSet(m));
      DeliveredHere(env, configs, f, m, t, a);
    } else {
      var h := HopToward(env, configs, f, m, t, a, k - 1);
      DeliveredAt(env, configs, f, h.router, t, a, k - 1);
      assert Sends(env.ifaces, configs, m, a, h.router);
    }
  }

  lemma {:induction false} NearestExists(g: Graph, from: set<Name>, t: Name, j: nat) returns (k: nat)
    requires t in Within(g, from, j)
    ensures k <= j && Away(g, from, {t}, k)
  {
    if j > 0 && t in Within(g, from, j - 1) {
      k := NearestExists(g, from, t, j - 1);
    } else {
      k := j;
    }
  }

  /** Every address of every reachable network is delivered, in as many hops as the shortest path. */
  lemma ReachableIsDelivered(env: Env, configs: map<Name, MachineConfig>, f: Family,
                             m: Name, t: Name, a: Address, j: nat) returns (k: nat)
    requires Ready(env, configs, f) && m in env.ifaces.vals && t in NetNames(env.topology)
    requires t in env.data.Nets(f) && NetAt(env, f, t).Contains(a)
    requires t in Within(env.graph, env.NetSet(m), j)
    ensures k <= j && Away(env.graph, env.NetSet(m), {t}, k) && Delivered(env.ifaces, configs, m, a, t, k)
  {
    hide Ready, Delivered, Within;
    k := NearestExists(env.graph, env.NetSet(m), t, j);
    DeliveredAt(env, configs, f, m, t, a, k);
  }

  // ----- packets for the outside -----

  /** A machine that shares a network with the gateway sends to it. */
  lemma GatewayNear(env: Env, m: Name, g: Name) returns (h: Hop)
    requires env.Valid() && m in env.ifaces.vals && g in env.ifaces.vals && env.request.gateway == Some(g)
    requires Away(env.graph, env.NetSet(m), env.NetSet(g), 0)
    ensures HopToMachine(env, m, g) == Some(h) && h.router == g
  {
    hide FirstHop, Next, OnTopology;
    var n :| n in env.NetSet(g) && n in Within(env.graph, env.NetSet(m), 0);
    assert n in env.NetSet(m) * env.NetSet(g);
    h := HopToMachine(env, m, g).value;
  }

  lemma NothingShared(g: Graph, from: set<Name>, targets: set<Name>, k: nat)
    requires Away(g, from, targets, k + 1)
    ensures from * targets == {}
  {
    WithinOne(g, from);
    WithinGrows(g, from, 0, k);
  }

  /** A machine farther away sends to a machine that is closer to the gateway, and not the gateway. */
  lemma GatewayFar(env: Env, m: Name, g: Name, k: nat) returns (h: Hop)
    requires env.Valid() && m in env.ifaces.vals && g in env.ifaces.vals && env.request.gateway == Some(g)
    requires Away(env.graph, env.NetSet(m), env.NetSet(g), k + 1)
    ensures HopToMachine(env, m, g) == Some(h)
    ensures h.router in env.ifaces.vals && h.router != g && Away(env.graph, env.NetSet(h.router), env.NetSet(g), k)
  {
    hide Env.Valid, FirstHop, Within, Next, Away;
    GraphClosed(env);
    NothingShared(env.graph, env.NetSet(m), env.NetSet(g), k);
    HopIsCloser(env, m, env.NetSet(g), k);
    h := HopToMachine(env, m, g).value;
    assert h.via !in env.NetSet(m) * env.NetSet(g);
    RowOnTopology(env, h.router, h.via);
  }

  lemma GatewayDefault(env: Env, f: Family, m: Name, g: Name, h: Hop) returns (d: Triple)
    requires env.Valid() && Addressed(env, f) && DisjointNets(env, f) && m in env.ifaces.vals
    requires env.request.gateway == Some(g) && m != g && HopToMachine(env, m, g) == Some(h)
    ensures h.via in env.Row(m).vals && h.router in env.ifaces.vals && h.via in env.Row(h.router).vals
    ensures Attr(env, h.router, h.via) in env.data.Ips(f)
    ensures d == Triple(DefaultNet(f), env.Row(m).vals[h.via], IpAt(env, f, h.router, h.via).ip)
    ensures IsDefaultCandidate(env, f, m, d)
  {
    hide Env.Valid, Addressed, DisjointNets, HopToMachine, RouteToGateway;
    GatewayHop(env, m, g);
    AddressedIp(env, f, h.router, h.via);
    RouteToGatewayIs(env, f, m, g);
    d := Triple(DefaultNet(f), env.Row(m).vals[h.via], IpAt(env, f, h.router, h.via).ip);
    assert IsThrough(env, f, m, h, DefaultNet(f), d);
  }

  lemma OutsideToward(env: Env, configs: map<Name, MachineConfig>, f: Family, m: Name, g: Name, h: Hop, a: Address)
    requires Ready(env, configs, f) && m in env.ifaces.vals && env.request.gateway == Some(g) && m != g
    requires HopToMachine(env, m, g) == Some(h)
    requires Outside(env, f, a)
    ensures m in configs && forall x :: Chosen(configs[m], a, x) ==> x.action.Via?
    ensures forall m2 :: Sends(env.ifaces, configs, m, a, m2) <==> m2 == h.router
  {
    hide Env.Valid, Addressed, DisjointNets, ConfigsOf, Injective, HopToMachine, Chosen, Outside, Machine, Sends,
      IsDefaultCandidate;
    var d := GatewayDefault(env, f, m, g, h);
    var routes := ReadyMachine(env, configs, f, m);
    OutsideLookup(env, f, m, configs[m], routes, a, d);
    SendsToRouter(env, configs, f, m, h, a);
  }

  /** Default routes converge: a packet for an address outside the lab, from a machine whose networks
      are `k` steps away from the gateway's, reaches the gateway after exactly `k + 1` hops; the last
      machine before the gateway shares a network with it. */
  lemma {:induction false} ArrivesAtGateway(env: Env, configs: map<Name, MachineConfig>, f: Family,
                                            m: Name, g: Name, a: Address, k: nat)
    requires Ready(env, configs, f) && m in env.ifaces.vals && g in env.ifaces.vals
    requires env.request.gateway == Some(g) && m != g && Outside(env, f, a)
    requires Away(env.graph, env.NetSet(m), env.NetSet(g), k)
    ensures Arrives(env.ifaces, configs, m, a, g, k + 1)
    decreases k
  {
    hide Env.Valid, Addressed, DisjointNets, DistinctNumbers, ConfigsOf, HopToMachine, Within, Next, Chosen, Sends, Outside;
    if k == 0 {
      var h := GatewayNear(env, m, g);
      OutsideToward(env, configs, f, m, g, h, a);
      assert Sends(env.ifaces, configs, m, a, g);
      assert Arrives(env.ifaces, configs, g, a, g, 0);
    } else {
      var h := GatewayFar(env, m, g, k - 1);
      OutsideToward(env, configs, f, m, g, h, a);
      assert Sends(env.ifaces, configs, m, a, h.router);
      ArrivesAtGateway(env, configs, f, h.router, g, a, k - 1);
    }
  }

  /** The setting of the theorems, from the topology: no network lists a machine twice and no
      declared interface number is reused. */
  lemma LabIsReady(t: Topology, data: Data, request: Request, choices: Choices, f: Family,
                   configs: map<Name, MachineConfig>)
    requires UniqueNames(t) && SingleMembership(t) && ChoicesFit(t, request, choices)
    requires forall m :: m in Machines(t) ==> NoReuse(t, m)
    requires Addressed(EnvOf(t, data, request, choices), f) && DisjointNets(EnvOf(t, data, request, choices), f)
    requires NetConfigOf(t, data, request, choices) == Success(configs)
    ensures Ready(EnvOf(t, data, request, choices), configs, f)
  {
    hide Addressed, DisjointNets, ConfigsOf, Env.Valid;
    EnvIsValid(t, data, request, choices);
    AssignKeys(t);
    var env := EnvOf(t, data, request, choices);
    forall m | m in env.ifaces.vals
      ensures Injective(env.Row(m))
    {
      assert m in env.ifaces.keys;
      NumbersDistinct(t, m);
    }
  }
}
