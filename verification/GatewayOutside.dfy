/**
 Packets for the outside at the gateway itself, and at machines that have no default route.
 */
module GatewayOutside {
  import opened Wrappers
  import opened Dicts
  import opened Topologies
  import opened IpAddresses
  import opened NetConfigs
  import opened TopologyConfig
  import opened RoutePruning
  import opened Forwarding
  import opened ShortestPaths
  import opened FirstHops
  import opened MachineTables
  import opened ConfigMeaning
  import opened ConfigErrors
  import opened MachineLookup
  import opened Delivery

  /** The gateway's own default route: through the given hop, on the network that holds it, else on the
      lowest interface. */
  lemma ExternalRouteIs(env: Env, f: Family, g: Name, h: Address) returns (d: Triple)
    requires env.Valid() && Addressed(env, f) && DisjointNets(env, f) && g in env.ifaces.vals
    requires env.request.gateway == Some(g) && ExternalHop(env, f) == Some(h)
    ensures IsDefaultCandidate(env, f, g, d) && d.hop == h
    ensures forall n :: n in env.Row(g).vals && n in env.data.Nets(f) && NetAt(env, f, n).Contains(h) ==>
              d.eth == env.Row(g).vals[n]
    ensures (forall n :: n in env.Row(g).vals && n in env.data.Nets(f) ==> !NetAt(env, f, n).Contains(h)) ==>
              d.eth in env.Row(g).vals.Values && forall y :: y in env.Row(g).vals.Values ==> d.eth <= y
  {
    hide Addressed, DisjointNets, SortByEth, FirstHolding;
    SortedNets(env, g);
    var sorted := SortByEth(env.Row(g), env.choices.order[g]);
    ExternalHolding(env, f, g, h, sorted);
    FirstHoldingIn(env, f, h, sorted);
    LowestIs(env.Row(g));
    d := ExternalRoute(env, g, f).value[0];
  }

  /** At the gateway, a packet for the outside goes to the given hop, whatever choice the table leaves. */
  lemma LeavesByGateway(env: Env, configs: map<Name, MachineConfig>, f: Family, g: Name, h: Address, a: Address)
    requires Ready(env, configs, f) && g in env.ifaces.vals
    requires env.request.gateway == Some(g) && ExternalHop(env, f) == Some(h) && Outside(env, f, a)
    ensures g in configs && exists x :: Chosen(configs[g], a, x)
    ensures forall x :: Chosen(configs[g], a, x) ==>
              && x.action == Via(h)
              && (forall n :: n in env.Row(g).vals && n in env.data.Nets(f) && NetAt(env, f, n).Contains(h) ==>
                    x.eth == env.Row(g).vals[n])
              && ((forall n :: n in env.Row(g).vals && n in env.data.Nets(f) ==> !NetAt(env, f, n).Contains(h)) ==>
                    x.eth in env.Row(g).vals.Values && forall y :: y in env.Row(g).vals.Values ==> x.eth <= y)
  {
    hide Env.Valid, Addressed, DisjointNets, ConfigsOf, Injective, Chosen, Outside, Machine, IsDefaultCandidate;
    var d := ExternalRouteIs(env, f, g, h);
    var routes := ReadyMachine(env, configs, f, g);
    OutsideLookup(env, f, g, configs[g], routes, a, d);
  }

  // ----- machines without a default route -----

  /** A machine has a default route exactly when it is the gateway and a hop is given, or it is another one
      from which a network of the gateway is reachable. */
  ghost predicate HasDefault(env: Env, f: Family, m: Name)
    requires env.Valid() && m in env.ifaces.vals
  {
    match env.request.gateway
    case None => false
    case Some(g) => if m == g then ExternalHop(env, f).Some? else exists n :: n in env.NetSet(g) && Reachable(env, m, n)
  }

  lemma GatewayIsFound(env: Env, m: Name, g: Name)
    requires env.Valid() && m in env.ifaces.vals && env.request.gateway == Some(g)
    ensures HopToMachine(env, m, g).Some? <==> exists n :: n in env.NetSet(g) && Reachable(env, m, n)
  {
    hide Env.Valid, FirstHop, Within, Closed;
    var from, targets := env.NetSet(m), env.NetSet(g);
    WithinOne(env.graph, from);
    if n :| n in from * targets {
      assert n in Within(env.graph, from, 0);
      assert Reachable(env, m, n);
    } else {
      GraphClosed(env);
      OrderIsNets(env, m);
      var r := FirstHop(env.graph, env.choices.order[m], targets);
      FirstHopExact(env.graph, env.choices.order[m], targets);
      if r.Some? {
        var n, d :| n in targets && n !in from && StartsPath(env.graph, from, r.value, n, d);
        PathReaches(env.graph, from, r.value, n, d);
      }
      if n, k: nat :| n in targets && n in Within(env.graph, from, k) {
        assert n !in from * targets;
        ExactFinds(env.graph, from, targets, r, n, k);
      }
    }
  }

  lemma OrderIsNets(env: Env, m: Name)
    requires env.Valid() && m in env.ifaces.vals
    ensures m in env.choices.order && SetOf(env.choices.order[m]) == env.NetSet(m)
  {
  }

  lemma NoDefault(env: Env, f: Family, m: Name)
    requires env.Valid() && Addressed(env, f) && DisjointNets(env, f) && m in env.ifaces.vals && !HasDefault(env, f, m)
    ensures forall d :: !IsDefaultCandidate(env, f, m, d)
  {
    hide Addressed, DisjointNets, Env.Valid, HopToMachine;
    if env.request.gateway.Some? && env.request.gateway != Some(m) {
      GatewayIsFound(env, m, env.request.gateway.value);
      RouteToGatewayIs(env, f, m, env.request.gateway.value);
    }
  }

  /** Such a machine has no route at all for a packet for the outside. */
  lemma OutsideIsUnreachable(env: Env, configs: map<Name, MachineConfig>, f: Family, m: Name, a: Address)
    requires Ready(env, configs, f) && m in env.ifaces.vals && Outside(env, f, a) && !HasDefault(env, f, m)
    ensures m in configs && forall x :: x in KernelTable(configs[m]) ==> !x.net.Contains(a)
  {
    hide Env.Valid, Addressed, DisjointNets, ConfigsOf, Injective, KernelTable, HasDefault, IsDefaultCandidate, Kept, EntriesOf,
      IsCandidate;
    var routes := ReadyMachine(env, configs, f, m);
    NoDefault(env, f, m);
    OutsideMatches(env, f, m, configs[m], routes, a);
    KernelRoutes(env, m, routes, configs[m]);
    forall x | x in KernelTable(configs[m])
      ensures !x.net.Contains(a)
    {
      if x.net.Contains(a) {
        var r :| r in Kept(routes) && x == Entry(r.net, r.eth, Via(r.hop));
        OutsideFamily(env, f, a);
        KeptIsCandidate(env, f, m, configs[m], routes, r, a);
        OutsideCandidate(env, f, m, a, r);
      }
    }
  }

  lemma OutsideFamily(env: Env, f: Family, a: Address)
    requires Outside(env, f, a)
    ensures a.family == f
  {
  }
}
