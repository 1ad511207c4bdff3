/**
 The routing table that the configuration of one machine amounts to.
 */
module MachineTables {
  import opened Wrappers
  import opened Dicts
  import opened Topologies
  import opened FirstHops
  import opened ShortestPaths
  import opened IpAddresses
  import opened NetConfigs
  import opened TopologyConfig
  import opened RoutePruning
  import opened Forwarding

  // ----- the tables of one machine -----

  function NetAt(env: Env, f: Family, n: Name): Subnet
    requires n in env.data.Nets(f)
  {
    env.data.Nets(f)[n]
  }

  function IpAt(env: Env, f: Family, m: Name, n: Name): Interface
    requires m in env.ifaces.vals && Attr(env, m, n) in env.data.Ips(f)
  {
    env.data.Ips(f)[Attr(env, m, n)]
  }

  lemma {:induction false} FilledEntries(env: Env, m: Name, routes: seq<Triple>, nc: MachineConfig, k: nat)
    requires m in env.ifaces.vals && env.Row(m).Valid() && k <= |env.Row(m).keys|
    requires forall n :: n in env.Row(m).vals ==> env.Row(m).vals[n] < |nc|
    requires Injective(env.Row(m))
    requires Filled(env, m, routes, nc, k).Success?
    ensures var r := Filled(env, m, routes, nc, k).value;
      && (forall i :: 0 <= i < k ==>
            var n := env.Row(m).keys[i];
            var addresses := AddressesOn(env, m, n, env.request.Families());
            && addresses.Success?
            && r[env.Row(m).vals[n]] == Static(addresses.value, KeptOn(routes, |routes|, env.Row(m).vals[n])))
      && (forall e :: 0 <= e < |nc| && (forall i :: 0 <= i < k ==> env.Row(m).vals[env.Row(m).keys[i]] != e) ==>
            r[e] == nc[e])
  {
    hide AddressesOn, KeptOn;
    if k > 0 {
      FilledEntries(env, m, routes, nc, k - 1);
      var row := env.Row(m);
      forall i | 0 <= i < k - 1
        ensures row.vals[row.keys[i]] != row.vals[row.keys[k - 1]]
      {
        assert row.keys[i] != row.keys[k - 1];
        assert row.keys[i] in row.vals && row.keys[k - 1] in row.vals;
      }
    }
  }

  /** The entry of network `n` is at its number, with its addresses and the kept routes. */
  ghost predicate FilledAt(env: Env, m: Name, routes: seq<Triple>, nc: MachineConfig, n: Name)
    requires m in env.ifaces.vals && n in env.Row(m).vals
  {
    var addresses := AddressesOn(env, m, n, env.request.Families());
    && env.Row(m).vals[n] < |nc|
    && addresses.Success?
    && nc[env.Row(m).vals[n]] == Static(addresses.value, KeptOn(routes, |routes|, env.Row(m).vals[n]))
  }

  /** The entries of a configuration: one for each network of the machine, at its number. */
  ghost predicate EntriesOf(env: Env, m: Name, routes: seq<Triple>, nc: MachineConfig)
    requires m in env.ifaces.vals
  {
    && (forall n :: n in env.Row(m).vals ==> FilledAt(env, m, routes, nc, n))
    && (forall e :: 0 <= e < |nc| && nc[e] != Unconfigured ==>
          exists n :: n in env.Row(m).vals && env.Row(m).vals[n] == e)
  }

  lemma EntriesFilled(env: Env, m: Name, routes: seq<Triple>, empty: MachineConfig, nc: MachineConfig)
    requires m in env.ifaces.vals && env.Row(m).Valid() && Injective(env.Row(m))
    requires forall n :: n in env.Row(m).vals ==> env.Row(m).vals[n] < |empty|
    requires forall e :: 0 <= e < |empty| ==> empty[e] == Unconfigured
    requires Filled(env, m, routes, empty, |env.Row(m).keys|) == Success(nc)
    ensures EntriesOf(env, m, routes, nc)
  {
    hide AddressesOn, KeptOn, Filled;
    var row := env.Row(m);
    FilledEntries(env, m, routes, empty, |row.keys|);
    forall n | n in row.vals
      ensures FilledAt(env, m, routes, nc, n)
    {
      assert n in row.keys;
      var i :| 0 <= i < |row.keys| && row.keys[i] == n;
    }
    forall e | 0 <= e < |nc| && nc[e] != Unconfigured
      ensures exists n :: n in row.vals && row.vals[n] == e
    {
      assert empty[e] == Unconfigured;
      var i :| 0 <= i < |row.keys| && row.vals[row.keys[i]] == e;
      assert row.keys[i] in row.vals;
    }
  }

  lemma MachineEntries(env: Env, m: Name, nc: MachineConfig) returns (routes: seq<Triple>)
    requires env.Valid() && m in env.ifaces.vals && Injective(env.Row(m))
    requires ConfigOf(env, m) == Success(nc)
    ensures Candidates(env, m, env.request.Families()) == Success(routes)
    ensures EntriesOf(env, m, routes, nc)
  {
    hide AddressesOn, KeptOn, Filled, Candidates, MaxOf, Numbers;
    var row := env.Row(m);
    routes := Candidates(env, m, env.request.Families()).value;
    var empty := EmptyConfig(MaxOf(Numbers(row)) + 1);
    forall n | n in row.vals
      ensures row.vals[n] < |empty|
    {
      NumberBound(row, n);
    }
    hide EntriesOf, EmptyConfig;
    EntriesFilled(env, m, routes, empty, nc);
  }

  lemma {:induction false} KeptOnMembers(routes: seq<Triple>, k: nat, eth: nat, r: Route)
    requires k <= |routes|
    ensures r in KeptOn(routes, k, eth)
       <==> (exists i :: 0 <= i < k && routes[i] == Triple(r.net, eth, r.hop)) && !IsRedundant(routes, r.net, r.hop)
  {
    hide IsRedundant;
    if k > 0 {
      KeptOnMembers(routes, k - 1, eth, r);
    }
  }

  /** The static routes in the kernel's table are the candidates that pruning keeps. */
  lemma KernelRoutes(env: Env, m: Name, routes: seq<Triple>, nc: MachineConfig)
    requires m in env.ifaces.vals && EntriesOf(env, m, routes, nc)
    requires forall x :: x in routes ==> x.eth in env.Row(m).vals.Values
    ensures forall r: Triple :: r in Kept(routes) ==> Entry(r.net, r.eth, Via(r.hop)) in KernelTable(nc)
    ensures forall x :: x in KernelTable(nc) && x.action.Via? ==>
              exists r :: r in Kept(routes) && x == Entry(r.net, r.eth, Via(r.hop))
  {
    hide IsRedundant, KeptOn, AddressesOn;
    forall r: Triple | r in Kept(routes)
      ensures Entry(r.net, r.eth, Via(r.hop)) in KernelTable(nc)
    {
      KeptOnMembers(routes, |routes|, r.eth, Route(r.net, r.hop));
      assert Route(r.net, r.hop) in nc[r.eth].routes;
    }
    forall x | x in KernelTable(nc) && x.action.Via?
      ensures exists r :: r in Kept(routes) && x == Entry(r.net, r.eth, Via(r.hop))
    {
      var e, r :| 0 <= e < |nc| && nc[e].Static? && r in nc[e].routes && x == Entry(r.net, e, Via(r.hop));
      KeptOnMembers(routes, |routes|, e, r);
      assert Triple(r.net, e, r.hop) in Kept(routes);
    }
  }

  /** The address of family `f` that `AddressesOn` finds, and no other of that family. */
  lemma {:induction false} AddressOfFamily(env: Env, m: Name, n: Name, f: Family, families: seq<Family>)
    requires m in env.ifaces.vals
    requires forall g :: Attr(env, m, n) in env.data.Ips(g) ==> env.data.Ips(g)[Attr(env, m, n)].ip.family == g
    requires NetHas(env, n, f) && Attr(env, m, n) in env.data.Ips(f)
    requires AddressesOn(env, m, n, families).Success?
    ensures forall i :: i in AddressesOn(env, m, n, families).value && i.ip.family == f ==> i == IpAt(env, f, m, n)
    ensures f in families ==> IpAt(env, f, m, n) in AddressesOn(env, m, n, families).value
  {
    if families != [] {
      AddressOfFamily(env, m, n, f, families[..|families| - 1]);
      assert families == families[..|families| - 1] + [families[|families| - 1]];
    }
  }

  // ----- complete addressing makes every lookup succeed -----

  lemma AddressedHas(env: Env, f: Family, n: Name)
    requires Addressed(env, f) && n in NetNames(env.topology)
    ensures NetHas(env, n, f) && n in env.data.Nets(f) && GetNet(env, n, f) == Success(NetAt(env, f, n))
  {
  }

  lemma NetFamily(env: Env, f: Family, n: Name)
    requires Addressed(env, f) && n in env.data.Nets(f)
    ensures NetAt(env, f, n).family == f
  {
  }

  lemma AddressedIp(env: Env, f: Family, m: Name, n: Name)
    requires Addressed(env, f) && m in env.ifaces.vals && n in env.Row(m).vals
    ensures Attr(env, m, n) in env.data.Ips(f)
    ensures GetIp(env, m, n, f) == Success(Some(IpAt(env, f, m, n)))
  {
  }

  lemma RowOnTopology(env: Env, m: Name, n: Name)
    requires env.Valid() && m in env.ifaces.vals
    ensures n in env.Row(m).vals <==> n in env.NetSet(m)
    ensures n in env.NetSet(m) ==> n in NetNames(env.topology)
    ensures m in env.choices.order
    ensures n in env.choices.order[m] <==> n in env.NetSet(m)
  {
    assert n in SetOf(env.choices.order[m]) <==> n in env.choices.order[m];
  }

  /** The route through hop `h`, under complete addressing. */
  ghost predicate IsThrough(env: Env, f: Family, m: Name, h: Hop, dest: Subnet, r: Triple)
    requires m in env.ifaces.vals
  {
    && h.via in env.Row(m).vals && h.router in env.ifaces.vals && h.via in env.Row(h.router).vals
    && Attr(env, h.router, h.via) in env.data.Ips(f)
    && r == Triple(dest, env.Row(m).vals[h.via], IpAt(env, f, h.router, h.via).ip)
  }

  ghost predicate IsRouteTo(env: Env, f: Family, m: Name, t: Name, r: Triple)
    requires env.Valid() && m in env.ifaces.vals
  {
    && t in env.data.Nets(f)
    && HopToNet(env, m, t).Some?
    && IsThrough(env, f, m, HopToNet(env, m, t).value, NetAt(env, f, t), r)
  }

  /** Under complete addressing the route toward `t` is the one through the first hop, if any. */
  lemma RouteToIs(env: Env, f: Family, m: Name, t: Name)
    requires env.Valid() && Addressed(env, f) && m in env.ifaces.vals && t in NetNames(env.topology)
    ensures RouteTo(env, m, f, t).Success?
    ensures forall r :: r in RouteTo(env, m, f, t).value <==> IsRouteTo(env, f, m, t, r)
  {
    hide FirstHop, Env.Valid, Addressed, NetHas, GetIp;
    GraphClosed(env);
    HopUsable(env, m, {t});
    AddressedHas(env, f, t);
    var h := HopToNet(env, m, t);
    if h.Some? {
      AddressedIp(env, f, h.value.router, h.value.via);
      RowNet(env, f, m, h.value.via);
    }
  }

  lemma RowNet(env: Env, f: Family, m: Name, n: Name)
    requires env.Valid() && Addressed(env, f) && m in env.ifaces.vals && n in env.Row(m).vals
    ensures NetHas(env, n, f) && n in env.data.Nets(f)
  {
    RowOnTopology(env, m, n);
    AddressedHas(env, f, n);
  }

  lemma {:induction false} RoutesToAre(env: Env, f: Family, m: Name, targets: seq<Name>)
    requires env.Valid() && Addressed(env, f) && m in env.ifaces.vals
    requires forall t :: t in targets ==> t in NetNames(env.topology)
    ensures RoutesTo(env, m, f, targets).Success?
    ensures forall r :: r in RoutesTo(env, m, f, targets).value <==>
              exists t :: t in targets && IsRouteTo(env, f, m, t, r)
  {
    hide Env.Valid, Addressed, RouteTo, IsRouteTo;
    if targets != [] {
      var front := targets[..|targets| - 1];
      var t := targets[|targets| - 1];
      RoutesToAre(env, f, m, front);
      RouteToIs(env, f, m, t);
      assert targets == front + [t];
      forall r
        ensures r in RoutesTo(env, m, f, targets).value <==> exists t :: t in targets && IsRouteTo(env, f, m, t, r)
      {
        if IsRouteTo(env, f, m, t, r) {
          assert t in targets;
        }
      }
    }
  }

  // ----- the default route -----

  /** A default route of family `f` leaves by the machine's network that holds its next hop, if one does. */
  ghost predicate IsDefault(env: Env, f: Family, m: Name, d: Triple)
    requires m in env.ifaces.vals
  {
    && d.net == DefaultNet(f)
    && forall n :: n in env.Row(m).vals && n in env.data.Nets(f) && NetAt(env, f, n).Contains(d.hop) ==>
         d.eth == env.Row(m).vals[n]
  }

  lemma {:induction false} FirstHoldingFinds(env: Env, f: Family, hop: Address, nets: seq<Name>, n: Name)
    requires n in nets && NetHas(env, n, f) && n in env.data.Nets(f) && NetAt(env, f, n).Contains(hop)
    requires FirstHolding(env, f, hop, nets).Success?
    ensures FirstHolding(env, f, hop, nets).value.Some?
  {
    if nets[0] != n {
      assert nets == [nets[0]] + nets[1..];
      if !(NetHas(env, nets[0], f) && GetNet(env, nets[0], f).Success? && GetNet(env, nets[0], f).value.Contains(hop)) {
        FirstHoldingFinds(env, f, hop, nets[1..], n);
      }
    }
  }

  lemma {:induction false} FirstHoldingSucceeds(env: Env, f: Family, hop: Address, nets: seq<Name>)
    requires forall n :: n in nets ==> n in env.data.Nets(f)
    ensures FirstHolding(env, f, hop, nets).Success?
  {
    if nets != [] {
      FirstHoldingSucceeds(env, f, hop, nets[1..]);
    }
  }

  lemma OneHolds(env: Env, f: Family, m: Name, hop: Address, n: Name, n2: Name)
    requires env.Valid() && DisjointNets(env, f) && m in env.ifaces.vals
    requires n in env.Row(m).vals && n2 in env.Row(m).vals
    requires n in env.data.Nets(f) && n2 in env.data.Nets(f)
    requires NetAt(env, f, n).Contains(hop) && NetAt(env, f, n2).Contains(hop)
    ensures n == n2
  {
    RowOnTopology(env, m, n);
    RowOnTopology(env, m, n2);
  }

  /** Sorting the networks by number keeps them all. */
  lemma SortedNets(env: Env, m: Name)
    requires env.Valid() && m in env.ifaces.vals
    ensures forall x :: x in env.choices.order[m] ==> x in env.Row(m).vals
    ensures forall x :: x in SortByEth(env.Row(m), env.choices.order[m]) <==> x in env.Row(m).vals
  {
    var order := env.choices.order[m];
    forall x
      ensures x in order <==> x in env.Row(m).vals
    {
      RowOnTopology(env, m, x);
    }
    var sorted := SortByEth(env.Row(m), order);
    assert forall x :: x in sorted <==> x in multiset(sorted);
    assert forall x :: x in order <==> x in multiset(order);
  }

  /** The network that the gateway's external hop is found on, if one of the gateway's holds it. */
  lemma ExternalHolding(env: Env, f: Family, m: Name, hop: Address, sorted: seq<Name>)
    requires env.Valid() && Addressed(env, f) && DisjointNets(env, f) && m in env.ifaces.vals
    requires forall x :: x in sorted <==> x in env.Row(m).vals
    ensures FirstHolding(env, f, hop, sorted).Success?
    ensures forall n :: n in env.Row(m).vals && n in env.data.Nets(f) && NetAt(env, f, n).Contains(hop) ==>
              FirstHolding(env, f, hop, sorted).value == Some(n)
  {
    hide Env.Valid, Addressed, DisjointNets, FirstHolding;
    forall x | x in sorted
      ensures NetHas(env, x, f) && x in env.data.Nets(f)
    {
      RowNet(env, f, m, x);
    }
    FirstHoldingSucceeds(env, f, hop, sorted);
    FirstHoldingIn(env, f, hop, sorted);
    forall n | n in env.Row(m).vals && n in env.data.Nets(f) && NetAt(env, f, n).Contains(hop)
      ensures FirstHolding(env, f, hop, sorted).value == Some(n)
    {
      RowNet(env, f, m, n);
      FirstHoldingFinds(env, f, hop, sorted, n);
      OneHolds(env, f, m, hop, n, FirstHolding(env, f, hop, sorted).value.value);
    }
  }

  lemma ExternalIs(env: Env, f: Family, m: Name)
    requires env.Valid() && Addressed(env, f) && DisjointNets(env, f) && m in env.ifaces.vals
    ensures ExternalRoute(env, m, f).Success? && |ExternalRoute(env, m, f).value| <= 1
    ensures forall d :: d in ExternalRoute(env, m, f).value ==> IsDefault(env, f, m, d)
  {
    hide Addressed, DisjointNets, SortByEth, FirstHolding, MinOf, Numbers, SetOf;
    if env.request.External(f).Some? {
      SortedNets(env, m);
      ExternalHolding(env, f, m, env.request.External(f).value, SortByEth(env.Row(m), env.choices.order[m]));
    }
  }

  /** The hop toward the gateway leaves by a network of the machine and reaches a machine on it. */
  lemma GatewayHop(env: Env, m: Name, gateway: Name)
    requires env.Valid() && m in env.ifaces.vals && env.request.gateway == Some(gateway)
    ensures var h := HopToMachine(env, m, gateway);
      h.Some? ==> h.value.via in env.Row(m).vals && h.value.router in env.ifaces.vals
                  && h.value.via in env.Row(h.value.router).vals
  {
    GraphClosed(env);
    HopUsable(env, m, env.NetSet(gateway));
    hide FirstHop;
    if env.NetSet(m) * env.NetSet(gateway) != {} {
      assert env.choices.shared[m] in env.NetSet(m) && env.choices.shared[m] in env.NetSet(gateway);
    }
  }

  /** The default route toward the gateway is the one through the first hop, if any. */
  lemma RouteToGatewayIs(env: Env, f: Family, m: Name, gateway: Name)
    requires env.Valid() && Addressed(env, f) && DisjointNets(env, f) && m in env.ifaces.vals
    requires env.request.gateway == Some(gateway)
    ensures RouteToGateway(env, m, f, gateway).Success? && |RouteToGateway(env, m, f, gateway).value| <= 1
    ensures forall d :: d in RouteToGateway(env, m, f, gateway).value <==>
              HopToMachine(env, m, gateway).Some?
              && IsThrough(env, f, m, HopToMachine(env, m, gateway).value, DefaultNet(f), d)
  {
    hide Env.Valid, Addressed, DisjointNets, HopToMachine;
    GatewayHop(env, m, gateway);
    var h := HopToMachine(env, m, gateway);
    if h.Some? {
      AddressedIp(env, f, h.value.router, h.value.via);
      RowNet(env, f, m, h.value.via);
    }
  }

  lemma ThroughIsDefault(env: Env, f: Family, m: Name, h: Hop, d: Triple)
    requires env.Valid() && Addressed(env, f) && DisjointNets(env, f) && m in env.ifaces.vals
    requires IsThrough(env, f, m, h, DefaultNet(f), d)
    ensures IsDefault(env, f, m, d)
  {
    hide Env.Valid;
    forall n | n in env.Row(m).vals && n in env.data.Nets(f) && NetAt(env, f, n).Contains(d.hop)
      ensures n == h.via
    {
      RowNet(env, f, m, h.via);
      OneHolds(env, f, m, d.hop, n, h.via);
    }
  }

  lemma DefaultIs(env: Env, f: Family, m: Name)
    requires env.Valid() && Addressed(env, f) && DisjointNets(env, f) && m in env.ifaces.vals
    ensures DefaultRoute(env, m, f).Success? && |DefaultRoute(env, m, f).value| <= 1
    ensures forall d :: d in DefaultRoute(env, m, f).value ==> IsDefault(env, f, m, d)
  {
    hide Env.Valid, Addressed, DisjointNets, ExternalRoute, RouteToGateway, HopToMachine, IsDefault;
    ExternalIs(env, f, m);
    if env.request.gateway.Some? {
      var gateway := env.request.gateway.value;
      RouteToGatewayIs(env, f, m, gateway);
      forall d | d in RouteToGateway(env, m, f, gateway).value
        ensures IsDefault(env, f, m, d)
      {
        ThroughIsDefault(env, f, m, HopToMachine(env, m, gateway).value, d);
      }
    }
  }

  // ----- all the candidates of a family -----

  lemma HasAddressTrue(env: Env, f: Family, m: Name)
    requires env.Valid() && Addressed(env, f) && m in env.ifaces.vals
    ensures HasAddress(env, m, f, env.choices.order[m]) == Success(true)
  {
    var order := env.choices.order[m];
    RowOnTopology(env, m, env.Row(m).keys[0]);
    assert order != [];
    var n := order[0];
    assert n in order;
    RowOnTopology(env, m, n);
    RowNet(env, f, m, n);
    AddressedIp(env, f, m, n);
  }

  /** The candidates of family `f`: the routes to the other networks, and the default route. */
  ghost predicate IsCandidate(env: Env, f: Family, m: Name, r: Triple)
    requires env.Valid() && m in env.ifaces.vals
  {
    || (exists t :: t in NetNames(env.topology) && IsRouteTo(env, f, m, t, r))
    || IsDefaultCandidate(env, f, m, r)
  }

  ghost predicate IsDefaultCandidate(env: Env, f: Family, m: Name, r: Triple)
    requires env.Valid() && m in env.ifaces.vals
  {
    DefaultRoute(env, m, f).Success? && r in DefaultRoute(env, m, f).value
  }

  lemma FamilyRoutesAre(env: Env, f: Family, m: Name)
    requires env.Valid() && Addressed(env, f) && DisjointNets(env, f) && m in env.ifaces.vals
    ensures FamilyRoutes(env, m, f).Success?
    ensures forall r :: r in FamilyRoutes(env, m, f).value <==> IsCandidate(env, f, m, r)
  {
    HasAddressTrue(env, f, m);
    RoutesToAre(env, f, m, NetNames(env.topology));
    DefaultIs(env, f, m);
    hide Env.Valid, Addressed, DisjointNets, HasAddress, RoutesTo, DefaultRoute, IsRouteTo, IsDefault, NetNames;
  }

  lemma {:induction false} RoutesToFamily(env: Env, f: Family, m: Name, targets: seq<Name>)
    requires env.Valid() && env.data.Typed() && m in env.ifaces.vals
    requires RoutesTo(env, m, f, targets).Success?
    ensures forall r :: r in RoutesTo(env, m, f, targets).value ==> r.net.family == f
  {
    hide Env.Valid, HopToNet;
    if targets != [] {
      RoutesToFamily(env, f, m, targets[..|targets| - 1]);
    }
  }

  lemma DefaultFamily(env: Env, f: Family, m: Name)
    requires env.Valid() && m in env.ifaces.vals && DefaultRoute(env, m, f).Success?
    ensures forall r :: r in DefaultRoute(env, m, f).value ==> r.net.family == f
  {
    hide Env.Valid, HopToMachine, FirstHolding, SortByEth, MinOf, Numbers;
  }

  lemma {:induction false} CandidatesOfFamily(env: Env, f: Family, m: Name, families: seq<Family>)
    requires env.Valid() && env.data.Typed() && m in env.ifaces.vals
    requires Candidates(env, m, families).Success?
    ensures forall r :: r in Candidates(env, m, families).value && r.net.family == f <==>
              f in families && FamilyRoutes(env, m, f).Success? && r in FamilyRoutes(env, m, f).value
  {
    hide Env.Valid, RoutesTo, DefaultRoute, HasAddress, NetNames, FamilyRoutes;
    if families != [] {
      CandidatesOfFamily(env, f, m, families[..|families| - 1]);
      FamilyOfRoutes(env, families[|families| - 1], m);
      if f in families {
        CandidateMembers(env, f, m, families);
      }
      assert families == families[..|families| - 1] + [families[|families| - 1]];
    }
  }

  lemma FamilyOfRoutes(env: Env, f: Family, m: Name)
    requires env.Valid() && env.data.Typed() && m in env.ifaces.vals
    requires FamilyRoutes(env, m, f).Success?
    ensures forall r :: r in FamilyRoutes(env, m, f).value ==> r.net.family == f
  {
    assert m in env.choices.order;
    hide Env.Valid, RoutesTo, DefaultRoute, HasAddress, NetNames;
    if HasAddress(env, m, f, env.choices.order[m]) == Success(true) {
      RoutesToFamily(env, f, m, NetNames(env.topology));
      DefaultFamily(env, f, m);
    }
  }

  lemma {:induction false} CandidateMembers(env: Env, f: Family, m: Name, families: seq<Family>)
    requires env.Valid() && env.data.Typed() && m in env.ifaces.vals && f in families
    requires Candidates(env, m, families).Success?
    ensures FamilyRoutes(env, m, f).Success?
    ensures forall r :: r in FamilyRoutes(env, m, f).value ==> r in Candidates(env, m, families).value && r.net.family == f
  {
    hide Env.Valid, FamilyRoutes;
    assert families == families[..|families| - 1] + [families[|families| - 1]];
    if f == families[|families| - 1] {
      FamilyOfRoutes(env, f, m);
    } else {
      CandidateMembers(env, f, m, families[..|families| - 1]);
    }
  }

  // ----- when no exception is raised -----

  /** The lookups of family `f` raise nothing: a network taken to have a prefix has one, and every
      address asked for is found or known to be optional. */
  ghost predicate LooksUp(env: Env, f: Family) {
    && (forall n :: n in NetNames(env.topology) && NetHas(env, n, f) ==> n in env.data.Nets(f))
    && (forall m, n :: m in env.ifaces.vals && n in env.Row(m).vals ==> GetIp(env, m, n, f).Success?)
  }

  /** Complete addressing raises nothing; IPv6 next to IPv4 never does. */
  lemma LooksUpWhen(env: Env, f: Family)
    requires env.Valid()
    requires Addressed(env, f) || (f == V6 && env.request.ipv4)
    ensures LooksUp(env, f)
  {
    hide Env.Valid;
    forall m, n | m in env.ifaces.vals && n in env.Row(m).vals
      ensures GetIp(env, m, n, f).Success?
    {
      if Addressed(env, f) {
        AddressedIp(env, f, m, n);
      }
    }
  }

  lemma {:induction false} RoutesToSucceed(env: Env, f: Family, m: Name, targets: seq<Name>)
    requires env.Valid() && LooksUp(env, f) && m in env.ifaces.vals
    requires forall t :: t in targets ==> t in NetNames(env.topology)
    ensures RoutesTo(env, m, f, targets).Success?
  {
    if targets != [] {
      var t := targets[|targets| - 1];
      RoutesToSucceed(env, f, m, targets[..|targets| - 1]);
      GraphClosed(env);
      HopUsable(env, m, {t});
      assert t in targets;
      hide Env.Valid, FirstHop;
      assert RouteTo(env, m, f, t).Success?;
    }
  }

  lemma {:induction false} FirstHoldingLooksUp(env: Env, f: Family, hop: Address, nets: seq<Name>)
    requires LooksUp(env, f) && forall n :: n in nets ==> n in NetNames(env.topology)
    ensures FirstHolding(env, f, hop, nets).Success?
  {
    if nets != [] {
      FirstHoldingLooksUp(env, f, hop, nets[1..]);
    }
  }

  lemma DefaultSucceeds(env: Env, f: Family, m: Name)
    requires env.Valid() && LooksUp(env, f) && m in env.ifaces.vals
    ensures DefaultRoute(env, m, f).Success?
  {
    if env.request.gateway.Some? {
      var gateway := env.request.gateway.value;
      hide FirstHop, FirstHolding, SortByEth, MinOf, Numbers, SetOf, HopToMachine;
      if m == gateway {
        if env.request.External(f).Some? {
          SortedNets(env, m);
          forall n | n in env.Row(m).vals
            ensures n in NetNames(env.topology)
          {
            RowOnTopology(env, m, n);
          }
          FirstHoldingLooksUp(env, f, env.request.External(f).value, SortByEth(env.Row(m), env.choices.order[m]));
        }
      } else {
        GatewayHop(env, m, gateway);
      }
    }
  }

  lemma {:induction false} HasAddressSucceeds(env: Env, f: Family, m: Name, nets: seq<Name>)
    requires LooksUp(env, f) && m in env.ifaces.vals && forall n :: n in nets ==> n in env.Row(m).vals
    ensures HasAddress(env, m, f, nets).Success?
  {
    if nets != [] {
      HasAddressSucceeds(env, f, m, nets[1..]);
    }
  }

  lemma FamilySucceeds(env: Env, f: Family, m: Name)
    requires env.Valid() && LooksUp(env, f) && m in env.ifaces.vals
    ensures FamilyRoutes(env, m, f).Success?
  {
    hide LooksUp, HasAddress, RoutesTo, DefaultRoute;
    forall n | n in env.choices.order[m]
      ensures n in env.Row(m).vals
    {
      RowOnTopology(env, m, n);
    }
    HasAddressSucceeds(env, f, m, env.choices.order[m]);
    RoutesToSucceed(env, f, m, NetNames(env.topology));
    DefaultSucceeds(env, f, m);
  }

  lemma {:induction false} CandidatesSucceed(env: Env, m: Name, families: seq<Family>)
    requires env.Valid() && m in env.ifaces.vals
    requires forall f :: f in families ==> LooksUp(env, f)
    ensures Candidates(env, m, families).Success?
  {
    hide Env.Valid, LooksUp, FamilyRoutes;
    if families != [] {
      CandidatesSucceed(env, m, families[..|families| - 1]);
      FamilySucceeds(env, families[|families| - 1], m);
    }
  }

  lemma {:induction false} AddressesSucceed(env: Env, m: Name, n: Name, families: seq<Family>)
    requires m in env.ifaces.vals && n in env.Row(m).vals
    requires forall f :: f in families ==> LooksUp(env, f)
    ensures AddressesOn(env, m, n, families).Success?
  {
    if families != [] {
      AddressesSucceed(env, m, n, families[..|families| - 1]);
      assert families[|families| - 1] in families;
    }
  }

  lemma {:induction false} FilledSucceeds(env: Env, m: Name, routes: seq<Triple>, nc: MachineConfig, k: nat)
    requires m in env.ifaces.vals && env.Row(m).Valid() && k <= |env.Row(m).keys|
    requires forall n :: n in env.Row(m).vals ==> env.Row(m).vals[n] < |nc|
    requires forall f :: f in env.request.Families() ==> LooksUp(env, f)
    ensures Filled(env, m, routes, nc, k).Success?
  {
    hide LooksUp, AddressesOn, KeptOn;
    if k > 0 {
      FilledSucceeds(env, m, routes, nc, k - 1);
      assert env.Row(m).keys[k - 1] in env.Row(m).keys;
      AddressesSucceed(env, m, env.Row(m).keys[k - 1], env.request.Families());
    }
  }

  lemma ConfigSucceeds(env: Env, m: Name)
    requires env.Valid() && m in env.ifaces.vals
    requires forall f :: f in env.request.Families() ==> LooksUp(env, f)
    ensures ConfigOf(env, m).Success?
  {
    hide LooksUp, Filled, Candidates, Numbers, MaxOf;
    var row := env.Row(m);
    CandidatesSucceed(env, m, env.request.Families());
    var empty := EmptyConfig(MaxOf(Numbers(row)) + 1);
    forall n | n in row.vals
      ensures row.vals[n] < |empty|
    {
      NumberBound(row, n);
    }
    FilledSucceeds(env, m, Candidates(env, m, env.request.Families()).value, empty, |row.keys|);
  }

  /** With every mandatory family completely addressed, no exception is raised; IPv6 next to IPv4
      may be as partial as it likes. */
  lemma {:induction false} ConfigsSucceed(env: Env, k: nat)
    requires env.Valid() && k <= |env.ifaces.keys|
    requires env.request.ipv4 ==> Addressed(env, V4)
    requires env.request.ipv6 && !env.request.ipv4 ==> Addressed(env, V6)
    ensures ConfigsOf(env, k).Success?
  {
    hide ConfigOf, Addressed, LooksUp;
    if k > 0 {
      ConfigsSucceed(env, k - 1);
      forall f | f in env.request.Families()
        ensures LooksUp(env, f)
      {
        LooksUpWhen(env, f);
      }
      assert env.ifaces.keys[k - 1] in env.ifaces.keys;
      ConfigSucceeds(env, env.ifaces.keys[k - 1]);
    }
  }
}
