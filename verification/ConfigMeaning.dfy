/**
 What `get_net_config_from_topology` computes for one machine, entry by entry, in terms of the lab alone:
 for any data, complete or not, of either family or both.
 */
module ConfigMeaning {
  import opened Wrappers
  import opened Dicts
  import opened Topologies
  import opened FirstHops
  import opened IpAddresses
  import opened NetConfigs
  import opened TopologyConfig
  import opened Forwarding
  import opened MachineTables

  // ----- the data -----

  function Prefixes(env: Env, f: Family): map<Name, Subnet> {
    match f
    case V4 => env.data.nets
    case V6 => env.data.nets6
  }

  function Addresses(env: Env, f: Family): map<Name, Interface> {
    match f
    case V4 => env.data.ips
    case V6 => env.data.ips6
  }

  function ExternalHop(env: Env, f: Family): Option<Address> {
    match f
    case V4 => env.request.external4
    case V6 => env.request.external6
  }

  predicate Requested(env: Env, f: Family) {
    match f
    case V4 => env.request.ipv4
    case V6 => env.request.ipv6
  }

  /** IPv6 next to IPv4: what is missing is left out. Anything else missing is an error. */
  predicate Optional(env: Env, f: Family) {
    f == V6 && env.request.ipv4
  }

  /** A machine on one network has an address of its own name. */
  function IpName(env: Env, m: Name, n: Name): Name
    requires m in env.ifaces.vals
  {
    if |env.Row(m).keys| == 1 then m else m + "_" + n
  }

  predicate Usable(env: Env, f: Family, n: Name) {
    Optional(env, f) ==> n in Prefixes(env, f)
  }

  /** An address of family `f` on an own network */
  predicate AddressOn(env: Env, f: Family, m: Name, n: Name)
    requires m in env.ifaces.vals
  {
    Usable(env, f, n) && IpName(env, m, n) in Addresses(env, f)
  }

  // ----- the routes -----

  /** The route to `net` through a hop: by the interface on its network, to the address of its router there */
  ghost predicate Through(env: Env, f: Family, m: Name, h: Hop, net: Subnet, r: Triple)
    requires m in env.ifaces.vals
  {
    && h.via in env.Row(m).vals && h.router in env.ifaces.vals && AddressOn(env, f, h.router, h.via)
    && r.net == net && r.eth == env.Row(m).vals[h.via] && r.hop == Addresses(env, f)[IpName(env, h.router, h.via)].ip
  }

  /** A route to a network elsewhere: through the first hop toward it */
  ghost predicate RouteElsewhere(env: Env, f: Family, m: Name, t: Name, r: Triple)
    requires env.Valid() && m in env.ifaces.vals
  {
    GraphClosed(env);
    var h := FirstHop(env.graph, env.choices.order[m], {t});
    && t in NetNames(env.topology) && t !in env.NetSet(m) && t in Prefixes(env, f)
    && h.Some? && Through(env, f, m, h.value, Prefixes(env, f)[t], r)
  }

  /** The external hop is on network `n`. */
  predicate HoldsHop(env: Env, f: Family, m: Name, n: Name, hop: Address)
    requires m in env.ifaces.vals
  {
    n in env.Row(m).vals && n in Prefixes(env, f) && Prefixes(env, f)[n].Contains(hop)
  }

  /** The lowest interface on a network that holds the hop, else the lowest one */
  ghost predicate TowardOutside(env: Env, f: Family, m: Name, hop: Address, eth: nat)
    requires m in env.ifaces.vals
  {
    if exists n :: HoldsHop(env, f, m, n, hop) then
      && (exists n :: HoldsHop(env, f, m, n, hop) && eth == env.Row(m).vals[n])
      && (forall n :: HoldsHop(env, f, m, n, hop) ==> eth <= env.Row(m).vals[n])
    else
      eth in env.Row(m).vals.Values && forall y :: y in env.Row(m).vals.Values ==> eth <= y
  }

  /** The hop toward the gateway: the gateway itself on a shared network, else the first hop toward one of its networks */
  function TowardGateway(env: Env, m: Name, g: Name): Option<Hop>
    requires env.Valid() && m in env.ifaces.vals && env.request.gateway == Some(g)
  {
    GraphClosed(env);
    assert (exists n :: n in env.NetSet(m) && n in env.NetSet(g)) ==> env.NetSet(m) * env.NetSet(g) != {} by {
      if n :| n in env.NetSet(m) && n in env.NetSet(g) {
        assert n in env.NetSet(m) * env.NetSet(g);
      }
    }
    if exists n :: n in env.NetSet(m) && n in env.NetSet(g) then Some(Hop(env.choices.shared[m], g))
    else FirstHop(env.graph, env.choices.order[m], env.NetSet(g))
  }

  ghost predicate DefaultMeant(env: Env, f: Family, m: Name, r: Triple)
    requires env.Valid() && m in env.ifaces.vals
  {
    match env.request.gateway
    case None => false
    case Some(g) =>
      if m == g then
        && ExternalHop(env, f).Some? && r.hop == ExternalHop(env, f).value
        && r.net == Block(f, 0, 0) && TowardOutside(env, f, m, r.hop, r.eth)
      else
        var h := TowardGateway(env, m, g);
        h.Some? && Through(env, f, m, h.value, DefaultNet(f), r)
  }

  /** A candidate route: of a requested family of which the machine has an address */
  ghost predicate Meant(env: Env, m: Name, r: Triple)
    requires env.Valid() && m in env.ifaces.vals
  {
    exists f :: Requested(env, f) && MeantIn(env, f, m, r)
  }

  ghost predicate MeantIn(env: Env, f: Family, m: Name, r: Triple)
    requires env.Valid() && m in env.ifaces.vals
  {
    && (exists n :: n in env.Row(m).vals && AddressOn(env, f, m, n))
    && ((exists t :: RouteElsewhere(env, f, m, t, r)) || DefaultMeant(env, f, m, r))
  }

  /** A candidate that no wider candidate with its hop covers */
  ghost predicate Configured(env: Env, m: Name, r: Triple)
    requires env.Valid() && m in env.ifaces.vals
  {
    && Meant(env, m, r)
    && forall x :: Meant(env, m, x) && x.hop == r.hop && x.net.family == r.net.family && x.net != r.net ==>
         !(x.net.base <= r.net.base && r.net.Last() <= x.net.Last())
  }

  /** The addresses of an interface: the IPv4 one, then the IPv6 one */
  function AddressesMeant(env: Env, m: Name, n: Name): seq<Interface>
    requires m in env.ifaces.vals
  {
    (if Requested(env, V4) && AddressOn(env, V4, m, n) then [Addresses(env, V4)[IpName(env, m, n)]] else [])
    + (if Requested(env, V6) && AddressOn(env, V6, m, n) then [Addresses(env, V6)[IpName(env, m, n)]] else [])
  }

  // ----- the lookups -----

  lemma LookupsAre(env: Env, f: Family, n: Name)
    ensures NetHas(env, n, f) <==> Usable(env, f, n)
    ensures GetNet(env, n, f) == if n in Prefixes(env, f) then Success(Prefixes(env, f)[n]) else Failure(MissingNetwork(n))
    ensures env.request.External(f) == ExternalHop(env, f) && (f in env.request.Families() <==> Requested(env, f))
  {
  }

  lemma UsableIs(env: Env, f: Family, n: Name)
    ensures n in Prefixes(env, f) ==> Usable(env, f, n)
  {
  }

  lemma GetIpIs(env: Env, f: Family, m: Name, n: Name)
    requires m in env.ifaces.vals
    ensures var name := IpName(env, m, n);
      GetIp(env, m, n, f) ==
        if name in Addresses(env, f) then Success(Some(Addresses(env, f)[name]))
        else if Optional(env, f) then Success(None) else Failure(MissingAddress(name))
  {
  }

  lemma {:induction false} HasAddressIs(env: Env, f: Family, m: Name, nets: seq<Name>)
    requires m in env.ifaces.vals && HasAddress(env, m, f, nets).Success?
    ensures HasAddress(env, m, f, nets).value <==> exists n :: n in nets && AddressOn(env, f, m, n)
  {
    if nets != [] {
      LookupsAre(env, f, nets[0]);
      GetIpIs(env, f, m, nets[0]);
      hide NetHas, GetIp, Usable, Addresses;
      assert nets == [nets[0]] + nets[1..];
      if !AddressOn(env, f, m, nets[0]) {
        HasAddressIs(env, f, m, nets[1..]);
      }
    }
  }

  lemma RouteToMeant(env: Env, f: Family, m: Name, t: Name)
    requires env.Valid() && m in env.ifaces.vals && t in NetNames(env.topology) && RouteTo(env, m, f, t).Success?
    ensures forall r :: r in RouteTo(env, m, f, t).value <==> RouteElsewhere(env, f, m, t, r)
  {
    hide Env.Valid, FirstHop, NetHas, GetNet, GetIp, Usable, Prefixes, Addresses, IpName, Optional;
    LookupsAre(env, f, t);
    RowOnTopology(env, m, t);
    GraphClosed(env);
    HopUsable(env, m, {t});
    UsableIs(env, f, t);
    var h := FirstHop(env.graph, env.choices.order[m], {t});
    if h.Some? {
      LookupsAre(env, f, h.value.via);
      GetIpIs(env, f, h.value.router, h.value.via);
    }
  }

  lemma {:induction false} RoutesToMeant(env: Env, f: Family, m: Name, targets: seq<Name>)
    requires env.Valid() && m in env.ifaces.vals && RoutesTo(env, m, f, targets).Success?
    requires forall t :: t in targets ==> t in NetNames(env.topology)
    ensures forall r :: r in RoutesTo(env, m, f, targets).value <==> exists t :: t in targets && RouteElsewhere(env, f, m, t, r)
  {
    hide Env.Valid, RouteTo, RouteElsewhere, NetNames;
    if targets != [] {
      var front, t := targets[..|targets| - 1], targets[|targets| - 1];
      assert targets == front + [t];
      RoutesToMeant(env, f, m, front);
      RouteToMeant(env, f, m, t);
      forall r
        ensures r in RoutesTo(env, m, f, targets).value <==> exists t :: t in targets && RouteElsewhere(env, f, m, t, r)
      {
        if RouteElsewhere(env, f, m, t, r) {
          assert t in targets;
        }
      }
    }
  }

  // ----- the default route -----

  ghost predicate SortedByEth(row: Dict<Name, nat>, nets: seq<Name>) {
    && (forall x :: x in nets ==> x in row.vals)
    && forall i, j :: 0 <= i < j < |nets| ==> row.vals[nets[i]] <= row.vals[nets[j]]
  }

  lemma SortedTail(row: Dict<Name, nat>, nets: seq<Name>)
    requires nets != [] && SortedByEth(row, nets)
    ensures SortedByEth(row, nets[1..]) && forall x :: x in nets[1..] ==> row.vals[nets[0]] <= row.vals[x]
  {
    assert nets == [nets[0]] + nets[1..];
  }

  lemma SortedCons(row: Dict<Name, nat>, n: Name, nets: seq<Name>)
    requires SortedByEth(row, nets) && n in row.vals && forall x :: x in nets ==> row.vals[n] <= row.vals[x]
    ensures SortedByEth(row, [n] + nets)
  {
  }

  lemma {:induction false} InsertedIsSorted(row: Dict<Name, nat>, sorted: seq<Name>, n: Name)
    requires SortedByEth(row, sorted) && n in row.vals
    ensures SortedByEth(row, InsertByEth(row, sorted, n))
  {
    if sorted == [] {
    } else if row.vals[n] < row.vals[sorted[0]] {
      SortedTail(row, sorted);
      assert sorted == [sorted[0]] + sorted[1..];
      SortedCons(row, n, sorted);
    } else {
      SortedTail(row, sorted);
      InsertedIsSorted(row, sorted[1..], n);
      var rest := InsertByEth(row, sorted[1..], n);
      forall x | x in rest
        ensures row.vals[sorted[0]] <= row.vals[x]
      {
        assert x in multiset(rest);
        assert x == n || x in sorted[1..];
      }
      SortedCons(row, sorted[0], rest);
    }
  }

  lemma {:induction false} SortIsSorted(row: Dict<Name, nat>, nets: seq<Name>)
    requires forall x :: x in nets ==> x in row.vals
    ensures SortedByEth(row, SortByEth(row, nets))
  {
    if nets != [] {
      SortIsSorted(row, nets[..|nets| - 1]);
      InsertedIsSorted(row, SortByEth(row, nets[..|nets| - 1]), nets[|nets| - 1]);
    }
  }

  /** The first network found to hold the hop has the lowest number of those that do. */
  lemma {:induction false} FirstHoldingIs(env: Env, f: Family, m: Name, hop: Address, nets: seq<Name>)
    requires m in env.ifaces.vals && SortedByEth(env.Row(m), nets) && FirstHolding(env, f, hop, nets).Success?
    ensures var r := FirstHolding(env, f, hop, nets).value;
      && (r.None? <==> forall n :: n in nets ==> !HoldsHop(env, f, m, n, hop))
      && (r.Some? ==> && r.value in nets && HoldsHop(env, f, m, r.value, hop)
                      && forall n :: n in nets && HoldsHop(env, f, m, n, hop) ==> env.Row(m).vals[r.value] <= env.Row(m).vals[n])
  {
    if nets != [] {
      LookupsAre(env, f, nets[0]);
      SortedTail(env.Row(m), nets);
      assert nets == [nets[0]] + nets[1..];
      hide NetHas, GetNet;
      if !HoldsHop(env, f, m, nets[0], hop) {
        FirstHoldingIs(env, f, m, hop, nets[1..]);
      }
    }
  }

  lemma ExternalMeant(env: Env, f: Family, m: Name)
    requires env.Valid() && m in env.ifaces.vals && ExternalRoute(env, m, f).Success?
    ensures forall r :: r in ExternalRoute(env, m, f).value <==>
              && ExternalHop(env, f).Some? && r.hop == ExternalHop(env, f).value
              && r.net == Block(f, 0, 0) && TowardOutside(env, f, m, r.hop, r.eth)
  {
    hide ExternalEth, TowardOutside, Env.Valid, Addresses, ExternalHop;
    LookupsAre(env, f, m);
    if ExternalHop(env, f).Some? {
      ExternalEthIs(env, f, m, ExternalHop(env, f).value);
      OneInterface(env, f, m, ExternalHop(env, f).value);
    }
  }

  lemma ExternalEthIs(env: Env, f: Family, m: Name, hop: Address)
    requires env.Valid() && m in env.ifaces.vals && ExternalEth(env, m, f, hop).Success?
    ensures TowardOutside(env, f, m, hop, ExternalEth(env, m, f, hop).value)
  {
    var row, order := env.Row(m), env.choices.order[m];
    SortedNets(env, m);
    SortIsSorted(row, order);
    hide FirstHolding, SortByEth, Env.Valid, SortedByEth;
    FirstHoldingIs(env, f, m, hop, SortByEth(row, order));
    assert row.Valid() && row.keys != [] by {
      RowIsThere(env, m);
    }
    LowestIs(row);
    hide MinOf, Numbers;
  }

  lemma RowIsThere(env: Env, m: Name)
    requires env.Valid() && m in env.ifaces.vals
    ensures env.Row(m).Valid() && env.Row(m).keys != []
  {
  }

  lemma LowestIs(row: Dict<Name, nat>)
    requires row.Valid() && row.keys != []
    ensures MinOf(Numbers(row)) in row.vals.Values && forall y :: y in row.vals.Values ==> MinOf(Numbers(row)) <= y
  {
    MinOfNumbers(row);
    forall y | y in row.vals.Values
      ensures MinOf(Numbers(row)) <= y
    {
      var n :| n in row.vals && row.vals[n] == y;
      NumberBound(row, n);
    }
  }

  lemma OneInterface(env: Env, f: Family, m: Name, hop: Address)
    requires m in env.ifaces.vals
    ensures forall x, y :: TowardOutside(env, f, m, hop, x) && TowardOutside(env, f, m, hop, y) ==> x == y
  {
  }

  lemma TowardGatewayIs(env: Env, m: Name, g: Name)
    requires env.Valid() && m in env.ifaces.vals && env.request.gateway == Some(g)
    ensures TowardGateway(env, m, g) == HopToMachine(env, m, g)
  {
    if n :| n in env.NetSet(m) && n in env.NetSet(g) {
      assert n in env.NetSet(m) * env.NetSet(g);
    }
    hide FirstHop;
  }

  lemma ToGatewayMeant(env: Env, f: Family, m: Name, g: Name)
    requires env.Valid() && m in env.ifaces.vals && env.request.gateway == Some(g) && RouteToGateway(env, m, f, g).Success?
    ensures forall r :: r in RouteToGateway(env, m, f, g).value <==>
              TowardGateway(env, m, g).Some? && Through(env, f, m, TowardGateway(env, m, g).value, DefaultNet(f), r)
  {
    hide Env.Valid, NetHas, GetIp, HopToMachine, TowardGateway;
    TowardGatewayIs(env, m, g);
    GatewayHop(env, m, g);
    var h := HopToMachine(env, m, g);
    if h.Some? {
      LookupsAre(env, f, h.value.via);
      GetIpIs(env, f, h.value.router, h.value.via);
    }
  }

  lemma DefaultIsMeant(env: Env, f: Family, m: Name)
    requires env.Valid() && m in env.ifaces.vals && DefaultRoute(env, m, f).Success?
    ensures forall r :: r in DefaultRoute(env, m, f).value <==> DefaultMeant(env, f, m, r)
  {
    hide Env.Valid, ExternalRoute, RouteToGateway, TowardGateway, Through, TowardOutside;
    if env.request.gateway.Some? {
      var g := env.request.gateway.value;
      if m == g {
        ExternalMeant(env, f, m);
      } else {
        ToGatewayMeant(env, f, m, g);
      }
    }
  }

  // ----- all candidates -----

  lemma FamilyMeant(env: Env, f: Family, m: Name)
    requires env.Valid() && m in env.ifaces.vals && FamilyRoutes(env, m, f).Success?
    ensures Requested(env, f) ==> forall r :: r in FamilyRoutes(env, m, f).value <==> MeantIn(env, f, m, r)
  {
    forall n
      ensures m in env.choices.order && (n in env.choices.order[m] <==> n in env.Row(m).vals)
    {
      RowOnTopology(env, m, n);
    }
    hide Env.Valid, HasAddress, RoutesTo, DefaultRoute, RouteElsewhere, DefaultMeant, AddressOn;
    HasAddressIs(env, f, m, env.choices.order[m]);
    if HasAddress(env, m, f, env.choices.order[m]).value {
      RoutesToMeant(env, f, m, NetNames(env.topology));
      DefaultIsMeant(env, f, m);
      ElsewhereIsNamed(env, f, m);
    }
  }

  lemma ElsewhereIsNamed(env: Env, f: Family, m: Name)
    requires env.Valid() && m in env.ifaces.vals
    ensures forall t, r :: RouteElsewhere(env, f, m, t, r) ==> t in NetNames(env.topology)
  {
    hide FirstHop;
  }

  lemma {:induction false} CandidatesMeant(env: Env, m: Name, families: seq<Family>)
    requires env.Valid() && m in env.ifaces.vals && Candidates(env, m, families).Success?
    requires forall f :: f in families ==> Requested(env, f)
    ensures forall r :: r in Candidates(env, m, families).value <==> exists f :: f in families && MeantIn(env, f, m, r)
  {
    hide Env.Valid, FamilyRoutes, MeantIn;
    if families != [] {
      var front, f := families[..|families| - 1], families[|families| - 1];
      assert families == front + [f];
      CandidatesMeant(env, m, front);
      FamilyMeant(env, f, m);
      forall r
        ensures r in Candidates(env, m, families).value <==> exists f2 :: f2 in families && MeantIn(env, f2, m, r)
      {
        if MeantIn(env, f, m, r) {
          assert f in families;
        }
      }
    }
  }

  /** The candidates of a machine whose lookups raise nothing */
  lemma CandidatesAreMeant(env: Env, m: Name)
    requires env.Valid() && m in env.ifaces.vals && Candidates(env, m, env.request.Families()).Success?
    ensures forall r :: r in Candidates(env, m, env.request.Families()).value <==> Meant(env, m, r)
  {
    forall f
      ensures f in env.request.Families() <==> Requested(env, f)
    {
      LookupsAre(env, f, m);
    }
    hide Env.Valid, MeantIn, Candidates, Requested, Request.Families;
    CandidatesMeant(env, m, env.request.Families());
  }

  // ----- one configuration -----

  /** The address of one family, if there is one */
  function AddressOf(env: Env, f: Family, m: Name, n: Name): seq<Interface>
    requires m in env.ifaces.vals
  {
    if AddressOn(env, f, m, n) then [Addresses(env, f)[IpName(env, m, n)]] else []
  }

  lemma AddressAdded(env: Env, m: Name, n: Name, families: seq<Family>, f: Family)
    requires m in env.ifaces.vals && AddressesOn(env, m, n, families + [f]).Success?
    ensures AddressesOn(env, m, n, families).Success?
    ensures AddressesOn(env, m, n, families + [f]).value == AddressesOn(env, m, n, families).value + AddressOf(env, f, m, n)
  {
    LookupsAre(env, f, n);
    GetIpIs(env, f, m, n);
    hide NetHas, GetIp, IpName, Addresses, Usable;
    assert (families + [f])[..|families|] == families;
    if AddressesOn(env, m, n, families).Success? {
      var before := AddressesOn(env, m, n, families).value;
      assert before + [] == before;
    }
  }

  lemma AddressesAre(env: Env, m: Name, n: Name)
    requires m in env.ifaces.vals && AddressesOn(env, m, n, env.request.Families()).Success?
    ensures AddressesOn(env, m, n, env.request.Families()).value == AddressesMeant(env, m, n)
  {
    assert AddressesOn(env, m, n, []) == Success([]);
    hide AddressesOn, AddressOn, IpName, Addresses;
    assert [] + [V4] == [V4] && [] + [V6] == [V6];
    if env.request.ipv4 && env.request.ipv6 {
      AddressAdded(env, m, n, [V4], V6);
      AddressAdded(env, m, n, [], V4);
    } else if env.request.ipv4 {
      AddressAdded(env, m, n, [], V4);
    } else if env.request.ipv6 {
      AddressAdded(env, m, n, [], V6);
    }
  }

  /** Every network of the machine is configured at its number, with the addresses and the routes that are meant;
      nothing else is. */
  ghost predicate ConfigMeant(env: Env, m: Name, nc: MachineConfig)
    requires env.Valid() && m in env.ifaces.vals
  {
    && |nc| > 0 && |nc| - 1 in env.Row(m).vals.Values
    && (forall e :: 0 <= e < |nc| ==> if e in env.Row(m).vals.Values then nc[e].Static? else nc[e].Unconfigured?)
    && (forall n :: n in env.Row(m).vals ==> EntryMeant(env, m, nc, n))
  }

  ghost predicate EntryMeant(env: Env, m: Name, nc: MachineConfig, n: Name)
    requires env.Valid() && m in env.ifaces.vals && n in env.Row(m).vals
  {
    var eth := env.Row(m).vals[n];
    && eth < |nc| && nc[eth].Static? && nc[eth].addresses == AddressesMeant(env, m, n)
    && forall r: Route :: r in nc[eth].routes <==> Configured(env, m, Triple(r.net, eth, r.hop))
  }

  /** The configuration of a machine is what is meant. */
  lemma ConfigMeans(env: Env, m: Name, nc: MachineConfig)
    requires env.Valid() && m in env.ifaces.vals && Injective(env.Row(m)) && ConfigOf(env, m) == Success(nc)
    ensures ConfigMeant(env, m, nc)
  {
    hide Env.Valid, ConfigOf, Candidates, Meant, FilledAt, EntryMeant, Injective;
    var routes := MachineEntries(env, m, nc);
    ConfigSize(env, m, nc);
    CandidatesAreMeant(env, m);
    forall n | n in env.Row(m).vals
      ensures EntryMeant(env, m, nc, n)
    {
      EntryIsMeant(env, m, routes, nc, n);
    }
  }

  lemma EntryIsMeant(env: Env, m: Name, routes: seq<Triple>, nc: MachineConfig, n: Name)
    requires env.Valid() && m in env.ifaces.vals && n in env.Row(m).vals && FilledAt(env, m, routes, nc, n)
    requires forall r :: r in routes <==> Meant(env, m, r)
    ensures EntryMeant(env, m, nc, n)
  {
    hide Env.Valid, Meant, AddressesOn, AddressesMeant, KeptOn, Configured, Request.Families;
    AddressesAre(env, m, n);
    RoutesAre(env, m, routes, env.Row(m).vals[n]);
  }

  /** There is one such configuration for each machine, and no other. */
  lemma ConfigsMean(env: Env, configs: map<Name, MachineConfig>)
    requires env.Valid() && DistinctNumbers(env) && ConfigsOf(env, |env.ifaces.keys|) == Success(configs)
    ensures configs.Keys == env.ifaces.vals.Keys && forall m :: m in configs ==> ConfigMeant(env, m, configs[m])
  {
    hide Env.Valid, ConfigsOf, ConfigOf, ConfigMeant, Injective;
    ConfigsAre(env, |env.ifaces.keys|, configs);
    MachinesAreKeys(env);
    forall m | m in configs
      ensures ConfigMeant(env, m, configs[m])
    {
      ConfigMeans(env, m, configs[m]);
    }
  }

  lemma MachinesAreKeys(env: Env)
    requires env.Valid()
    ensures forall m :: m in env.ifaces.vals <==> exists i :: 0 <= i < |env.ifaces.keys| && env.ifaces.keys[i] == m
  {
    forall m
      ensures m in env.ifaces.vals <==> exists i :: 0 <= i < |env.ifaces.keys| && env.ifaces.keys[i] == m
    {
      assert m in env.ifaces.vals <==> m in env.ifaces.keys;
    }
  }

  lemma {:induction false} ConfigsAre(env: Env, k: nat, configs: map<Name, MachineConfig>)
    requires env.Valid() && k <= |env.ifaces.keys| && ConfigsOf(env, k) == Success(configs)
    ensures forall m :: m in configs <==> exists i :: 0 <= i < k && env.ifaces.keys[i] == m
    ensures forall m :: m in configs ==> m in env.ifaces.vals && ConfigOf(env, m) == Success(configs[m])
  {
    hide ConfigOf, Env.Valid;
    if k > 0 {
      MachinesAreKeys(env);
      ConfigsAre(env, k - 1, ConfigsOf(env, k - 1).value);
    }
  }

  lemma RoutesAre(env: Env, m: Name, routes: seq<Triple>, eth: nat)
    requires env.Valid() && m in env.ifaces.vals && forall r :: r in routes <==> Meant(env, m, r)
    ensures forall r: Route :: r in KeptOn(routes, |routes|, eth) <==> Configured(env, m, Triple(r.net, eth, r.hop))
  {
    hide Env.Valid, Meant, KeptOn;
    forall r: Route
      ensures r in KeptOn(routes, |routes|, eth) <==> Configured(env, m, Triple(r.net, eth, r.hop))
    {
      KeptOnMembers(routes, |routes|, eth, r);
      RedundantIs(env, m, routes, Triple(r.net, eth, r.hop));
      assert Triple(r.net, eth, r.hop) in routes <==> exists i :: 0 <= i < |routes| && routes[i] == Triple(r.net, eth, r.hop);
    }
  }

  lemma RedundantIs(env: Env, m: Name, routes: seq<Triple>, r: Triple)
    requires env.Valid() && m in env.ifaces.vals && forall x :: x in routes <==> Meant(env, m, x)
    ensures IsRedundant(routes, r.net, r.hop) <==>
            exists x :: Meant(env, m, x) && x.hop == r.hop && x.net.family == r.net.family && x.net != r.net
                        && x.net.base <= r.net.base && r.net.Last() <= x.net.Last()
  {
    hide Env.Valid, Meant, Block.Last;
    if IsRedundant(routes, r.net, r.hop) {
      var i :| 0 <= i < |routes| && routes[i].net != r.net && routes[i].net.family == r.net.family
               && r.net.SubnetOf(routes[i].net) && r.hop == routes[i].hop;
      assert routes[i] in routes;
    }
    if x :| Meant(env, m, x) && x.hop == r.hop && x.net.family == r.net.family && x.net != r.net
            && x.net.base <= r.net.base && r.net.Last() <= x.net.Last() {
      assert x in routes;
      var i :| 0 <= i < |routes| && routes[i] == x;
    }
  }

  lemma ConfigSize(env: Env, m: Name, nc: MachineConfig)
    requires env.Valid() && m in env.ifaces.vals && Injective(env.Row(m)) && ConfigOf(env, m) == Success(nc)
    ensures |nc| > 0 && |nc| - 1 in env.Row(m).vals.Values
    ensures forall e :: 0 <= e < |nc| ==> if e in env.Row(m).vals.Values then nc[e].Static? else nc[e].Unconfigured?
  {
    var row := env.Row(m);
    RowIsThere(env, m);
    var routes := MachineEntries(env, m, nc);
    SizeIs(env, m, nc);
    MaxIsNumber(row);
    hide Env.Valid, ConfigOf, AddressesOn, KeptOn, MaxOf, Numbers, Injective;
    forall e | 0 <= e < |nc|
      ensures if e in row.vals.Values then nc[e].Static? else nc[e].Unconfigured?
    {
      if n :| n in row.vals && row.vals[n] == e {
        assert FilledAt(env, m, routes, nc, n);
      }
    }
  }

  lemma SizeIs(env: Env, m: Name, nc: MachineConfig)
    requires env.Valid() && m in env.ifaces.vals && ConfigOf(env, m) == Success(nc)
    ensures env.Row(m).Valid() && env.Row(m).keys != [] && |nc| == MaxOf(Numbers(env.Row(m))) + 1
  {
    hide Filled, Candidates, MaxOf, Numbers;
    var row := env.Row(m);
    forall n | n in row.vals
      ensures row.vals[n] < MaxOf(Numbers(row)) + 1
    {
      NumberBound(row, n);
    }
  }

  lemma MaxIsNumber(row: Dict<Name, nat>)
    requires row.Valid() && row.keys != []
    ensures MaxOf(Numbers(row)) in row.vals.Values
  {
    var numbers := Numbers(row);
    var i :| 0 <= i < |numbers| && numbers[i] == MaxOf(numbers);
    assert row.keys[i] in row.keys;
  }
}
