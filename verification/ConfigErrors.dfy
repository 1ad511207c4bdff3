/**
 When `get_net_config_from_topology` raises: exactly when an entry of a mandatory family is missing that some
 machine needs. IPv6 next to IPv4 never raises.
 */
module ConfigErrors {
  import opened Wrappers
  import opened Dicts
  import opened Topologies
  import opened FirstHops
  import opened ShortestPaths
  import opened IpAddresses
  import opened NetConfigs
  import opened TopologyConfig
  import opened Forwarding
  import opened MachineTables
  import opened ConfigMeaning

  ghost predicate Reachable(env: Env, m: Name, t: Name) {
    exists k: nat :: t in Within(env.graph, env.NetSet(m), k)
  }

  /** Every machine has its addresses, every network that a machine reaches elsewhere has a prefix, and so has
      every network of the gateway, up to the one that holds the external hop. */
  ghost predicate Complete(env: Env, f: Family) {
    && (forall m, n :: m in env.ifaces.vals && n in env.Row(m).vals ==> IpName(env, m, n) in Addresses(env, f))
    && (forall m, t :: m in env.ifaces.vals && t in NetNames(env.topology) && t !in env.NetSet(m) && Reachable(env, m, t) ==>
          t in Prefixes(env, f))
    && (env.request.gateway.Some? && env.request.gateway.value in env.ifaces.vals && ExternalHop(env, f).Some? ==>
          var g := env.request.gateway.value;
          forall n :: n in env.Row(g).vals && n !in Prefixes(env, f) ==> HeldBefore(env, f, g, n, ExternalHop(env, f).value))
  }

  /** The hop is on a network with a lower number. */
  ghost predicate HeldBefore(env: Env, f: Family, g: Name, n: Name, hop: Address)
    requires g in env.ifaces.vals && n in env.Row(g).vals
  {
    exists n2 :: HoldsHop(env, f, g, n2, hop) && env.Row(g).vals[n2] < env.Row(g).vals[n]
  }

  predicate Mandatory(env: Env, f: Family) {
    Requested(env, f) && !Optional(env, f)
  }

  // ----- one machine and one mandatory family -----

  lemma HopIsFound(env: Env, m: Name, t: Name)
    requires env.Valid() && m in env.ifaces.vals && t !in env.NetSet(m)
    ensures Closed(env.graph) && m in env.choices.order
    ensures FirstHop(env.graph, env.choices.order[m], {t}).Some? <==> Reachable(env, m, t)
  {
    GraphClosed(env);
    RowOnTopology(env, m, t);
    assert SetOf(env.choices.order[m]) == env.NetSet(m);
    hide Env.Valid, FirstHop, Within, Closed;
    var r := FirstHop(env.graph, env.choices.order[m], {t});
    FirstHopExact(env.graph, env.choices.order[m], {t});
    if r.Some? {
      var n, d :| n in {t} && n !in env.NetSet(m) && StartsPath(env.graph, env.NetSet(m), r.value, n, d);
      PathReaches(env.graph, env.NetSet(m), r.value, n, d);
    }
    if k: nat :| t in Within(env.graph, env.NetSet(m), k) {
      ExactFinds(env.graph, env.NetSet(m), {t}, r, t, k);
    }
  }

  /** The addresses of `m` are there. */
  ghost predicate OwnAddresses(env: Env, f: Family, m: Name)
    requires m in env.ifaces.vals
  {
    forall n :: n in env.Row(m).vals ==> IpName(env, m, n) in Addresses(env, f)
  }

  lemma RouteToRaises(env: Env, f: Family, m: Name, t: Name)
    requires env.Valid() && m in env.ifaces.vals && Mandatory(env, f)
    requires forall r :: r in env.ifaces.vals ==> OwnAddresses(env, f, r)
    ensures RouteTo(env, m, f, t).Success? <==> (t !in env.NetSet(m) && Reachable(env, m, t) ==> t in Prefixes(env, f))
  {
    hide Env.Valid, FirstHop, NetHas, GetNet, GetIp, Reachable, Prefixes, Addresses, IpName;
    LookupsAre(env, f, t);
    RowOnTopology(env, m, t);
    if t !in env.NetSet(m) {
      HopIsFound(env, m, t);
    }
    GraphClosed(env);
    HopUsable(env, m, {t});
    var h := FirstHop(env.graph, env.choices.order[m], {t});
    if h.Some? {
      LookupsAre(env, f, h.value.via);
      GetIpIs(env, f, h.value.router, h.value.via);
    }
  }

  lemma {:induction false} RoutesToRaise(env: Env, f: Family, m: Name, targets: seq<Name>)
    requires env.Valid() && m in env.ifaces.vals
    ensures RoutesTo(env, m, f, targets).Success? <==> forall t :: t in targets ==> RouteTo(env, m, f, t).Success?
  {
    hide Env.Valid, RouteTo;
    if targets != [] {
      var front, t := targets[..|targets| - 1], targets[|targets| - 1];
      assert targets == front + [t];
      RoutesToRaise(env, f, m, front);
    }
  }

  /** One of the networks holds the hop and has a lower number than `n`. */
  ghost predicate HeldAmong(env: Env, f: Family, m: Name, hop: Address, nets: seq<Name>, n: Name)
    requires m in env.ifaces.vals && n in env.Row(m).vals
  {
    exists n2 :: n2 in nets && HoldsHop(env, f, m, n2, hop) && env.Row(m).vals[n2] < env.Row(m).vals[n]
  }

  /** The networks up to the one that holds the hop are looked up. */
  lemma {:induction false} FirstHoldingRaises(env: Env, f: Family, m: Name, hop: Address, nets: seq<Name>)
    requires m in env.ifaces.vals && Injective(env.Row(m)) && SortedByEth(env.Row(m), nets) && !Optional(env, f)
    ensures FirstHolding(env, f, hop, nets).Success? <==>
            forall n :: n in nets && n !in Prefixes(env, f) ==> HeldAmong(env, f, m, hop, nets, n)
  {
    if nets != [] {
      var x := nets[0];
      LookupsAre(env, f, x);
      SortedTail(env.Row(m), nets);
      assert nets == [x] + nets[1..];
      hide NetHas, GetNet, SortedByEth, Prefixes, Optional;
      if x !in Prefixes(env, f) {
        assert !HeldAmong(env, f, m, hop, nets, x);
      } else if HoldsHop(env, f, m, x, hop) {
        forall n | n in nets && n !in Prefixes(env, f)
          ensures HeldAmong(env, f, m, hop, nets, n)
        {
          assert n in nets[1..];
        }
      } else {
        FirstHoldingRaises(env, f, m, hop, nets[1..]);
        forall n | n in nets[1..]
          ensures HeldAmong(env, f, m, hop, nets, n) <==> HeldAmong(env, f, m, hop, nets[1..], n)
        {
        }
        hide HeldAmong;
      }
    }
  }

  lemma ExternalRaises(env: Env, f: Family, g: Name)
    requires env.Valid() && g in env.ifaces.vals && Injective(env.Row(g)) && !Optional(env, f)
    ensures ExternalRoute(env, g, f).Success? <==>
            (ExternalHop(env, f).Some? ==>
               forall n :: n in env.Row(g).vals && n !in Prefixes(env, f) ==> HeldBefore(env, f, g, n, ExternalHop(env, f).value))
  {
    LookupsAre(env, f, g);
    if ExternalHop(env, f).Some? {
      var hop := ExternalHop(env, f).value;
      SortedNets(env, g);
      SortIsSorted(env.Row(g), env.choices.order[g]);
      hide Env.Valid, FirstHolding, SortByEth, SortedByEth, MinOf, Numbers, Injective, SetOf;
      FirstHoldingRaises(env, f, g, hop, SortByEth(env.Row(g), env.choices.order[g]));
    }
  }

  lemma DefaultRaises(env: Env, f: Family, m: Name)
    requires env.Valid() && m in env.ifaces.vals && Injective(env.Row(m)) && Mandatory(env, f)
    requires forall r :: r in env.ifaces.vals ==> OwnAddresses(env, f, r)
    ensures DefaultRoute(env, m, f).Success? <==>
            (env.request.gateway == Some(m) && ExternalHop(env, f).Some? ==>
               forall n :: n in env.Row(m).vals && n !in Prefixes(env, f) ==> HeldBefore(env, f, m, n, ExternalHop(env, f).value))
  {
    hide Env.Valid, ExternalRoute, HopToMachine, GetIp, Injective, HeldBefore;
    if env.request.gateway.Some? {
      var g := env.request.gateway.value;
      if m == g {
        ExternalRaises(env, f, m);
      } else {
        GatewayHop(env, m, g);
        var h := HopToMachine(env, m, g);
        if h.Some? {
          GetIpIs(env, f, h.value.router, h.value.via);
        }
      }
    }
  }

  lemma FamilyRaises(env: Env, f: Family, m: Name)
    requires env.Valid() && m in env.ifaces.vals && Injective(env.Row(m)) && Mandatory(env, f)
    requires forall r :: r in env.ifaces.vals ==> OwnAddresses(env, f, r)
    ensures FamilyRoutes(env, m, f).Success? <==>
            && (forall t :: t in NetNames(env.topology) && t !in env.NetSet(m) && Reachable(env, m, t) ==> t in Prefixes(env, f))
            && (env.request.gateway == Some(m) && ExternalHop(env, f).Some? ==>
                  forall n :: n in env.Row(m).vals && n !in Prefixes(env, f) ==> HeldBefore(env, f, m, n, ExternalHop(env, f).value))
  {
    FirstHasAddress(env, f, m);
    hide Env.Valid, RoutesTo, RouteTo, DefaultRoute, HasAddress, Injective, HeldBefore, Reachable, OwnAddresses, Mandatory;
    RoutesToRaise(env, f, m, NetNames(env.topology));
    forall t | t in NetNames(env.topology)
      ensures RouteTo(env, m, f, t).Success? <==> (t !in env.NetSet(m) && Reachable(env, m, t) ==> t in Prefixes(env, f))
    {
      RouteToRaises(env, f, m, t);
    }
    DefaultRaises(env, f, m);
  }

  lemma FirstHasAddress(env: Env, f: Family, m: Name)
    requires env.Valid() && m in env.ifaces.vals && Mandatory(env, f) && OwnAddresses(env, f, m)
    ensures m in env.choices.order && HasAddress(env, m, f, env.choices.order[m]) == Success(true)
  {
    var order := env.choices.order[m];
    RowOnTopology(env, m, env.Row(m).keys[0]);
    assert order != [];
    var n := order[0];
    assert n in order;
    RowOnTopology(env, m, n);
    LookupsAre(env, f, n);
    GetIpIs(env, f, m, n);
    hide Env.Valid, NetHas, GetIp;
  }

  // ----- all families and machines -----

  lemma OptionalNeverRaises(env: Env, f: Family, m: Name)
    requires env.Valid() && m in env.ifaces.vals && Optional(env, f)
    ensures FamilyRoutes(env, m, f).Success?
  {
    hide Env.Valid, LooksUp, FamilyRoutes;
    LooksUpWhen(env, f);
    FamilySucceeds(env, f, m);
  }

  lemma {:induction false} CandidatesRaise(env: Env, m: Name, families: seq<Family>)
    requires env.Valid() && m in env.ifaces.vals
    ensures Candidates(env, m, families).Success? <==> forall f :: f in families ==> FamilyRoutes(env, m, f).Success?
  {
    hide Env.Valid, FamilyRoutes;
    if families != [] {
      assert families == families[..|families| - 1] + [families[|families| - 1]];
      CandidatesRaise(env, m, families[..|families| - 1]);
    }
  }

  lemma {:induction false} AddressesRaise(env: Env, m: Name, n: Name, families: seq<Family>)
    requires m in env.ifaces.vals
    ensures AddressesOn(env, m, n, families).Success? <==>
            forall f :: f in families && !Optional(env, f) ==> IpName(env, m, n) in Addresses(env, f)
  {
    if families != [] {
      var front, f := families[..|families| - 1], families[|families| - 1];
      assert families == front + [f];
      LookupsAre(env, f, n);
      GetIpIs(env, f, m, n);
      hide NetHas, GetIp, IpName, Addresses;
      AddressesRaise(env, m, n, front);
    }
  }

  lemma {:induction false} FilledRaises(env: Env, m: Name, routes: seq<Triple>, nc: MachineConfig, k: nat)
    requires m in env.ifaces.vals && env.Row(m).Valid() && k <= |env.Row(m).keys|
    requires forall n :: n in env.Row(m).vals ==> env.Row(m).vals[n] < |nc|
    ensures Filled(env, m, routes, nc, k).Success? <==>
            forall i :: 0 <= i < k ==> AddressesOn(env, m, env.Row(m).keys[i], env.request.Families()).Success?
  {
    hide AddressesOn, KeptOn;
    if k > 0 {
      assert env.Row(m).keys[k - 1] in env.Row(m).keys;
      FilledRaises(env, m, routes, nc, k - 1);
    }
  }

  lemma ConfigRaises(env: Env, m: Name)
    requires env.Valid() && m in env.ifaces.vals
    ensures ConfigOf(env, m).Success? <==>
            && (forall f :: Requested(env, f) ==> FamilyRoutes(env, m, f).Success?)
            && (forall f :: Mandatory(env, f) ==> OwnAddresses(env, f, m))
  {
    hide Env.Valid, ConfigOf, Candidates, FamilyRoutes, AddressesOn, IpName, Addresses, Requested, Request.Families;
    var families := env.request.Families();
    forall f
      ensures f in families <==> Requested(env, f)
    {
      LookupsAre(env, f, m);
    }
    CandidatesRaise(env, m, families);
    forall n
      ensures AddressesOn(env, m, n, families).Success? <==> forall f :: Mandatory(env, f) ==> IpName(env, m, n) in Addresses(env, f)
    {
      AddressesRaise(env, m, n, families);
    }
    PartsRaise(env, m);
  }

  lemma PartsRaise(env: Env, m: Name)
    requires env.Valid() && m in env.ifaces.vals
    ensures ConfigOf(env, m).Success? <==>
            && Candidates(env, m, env.request.Families()).Success?
            && (forall n :: n in env.Row(m).vals ==> AddressesOn(env, m, n, env.request.Families()).Success?)
  {
    hide Candidates, Filled, MaxOf, Numbers, AddressesOn, Request.Families;
    var row, families := env.Row(m), env.request.Families();
    KeysAreNets(row);
    if Candidates(env, m, families).Success? {
      var empty := EmptyConfig(MaxOf(Numbers(row)) + 1);
      forall n | n in row.vals
        ensures row.vals[n] < |empty|
      {
        NumberBound(row, n);
      }
      FilledRaises(env, m, Candidates(env, m, families).value, empty, |row.keys|);
    }
  }

  lemma KeysAreNets(row: Dict<Name, nat>)
    requires row.Valid()
    ensures forall n :: n in row.vals <==> exists i :: 0 <= i < |row.keys| && row.keys[i] == n
  {
    forall n
      ensures n in row.vals <==> exists i :: 0 <= i < |row.keys| && row.keys[i] == n
    {
      assert n in row.vals <==> n in row.keys;
    }
  }

  lemma {:induction false} ConfigsRaise(env: Env, k: nat)
    requires env.Valid() && k <= |env.ifaces.keys|
    ensures ConfigsOf(env, k).Success? <==>
            forall i :: 0 <= i < k ==> env.ifaces.keys[i] in env.ifaces.vals && ConfigOf(env, env.ifaces.keys[i]).Success?
  {
    hide ConfigOf;
    if k > 0 {
      assert env.ifaces.keys[k - 1] in env.ifaces.keys;
      ConfigsRaise(env, k - 1);
    }
  }

  lemma MachinesRaise(env: Env)
    requires env.Valid()
    ensures ConfigsOf(env, |env.ifaces.keys|).Success? <==> forall m :: m in env.ifaces.vals ==> ConfigOf(env, m).Success?
  {
    hide ConfigOf, ConfigsOf, Env.Valid;
    ConfigsRaise(env, |env.ifaces.keys|);
    MachinesAreKeys(env);
  }

  /** Configurations are returned exactly when the mandatory families are complete. */
  lemma RaisesExactly(env: Env)
    requires env.Valid() && DistinctNumbers(env)
    ensures ConfigsOf(env, |env.ifaces.keys|).Success? <==> forall f :: Mandatory(env, f) ==> Complete(env, f)
  {
    MachinesRaise(env);
    assert forall m :: m in env.ifaces.vals ==> Injective(env.Row(m));
    hide Env.Valid, ConfigsOf, ConfigOf, FamilyRoutes, Injective, HeldBefore, Reachable, IpName, Addresses, Prefixes, ExternalHop;
    forall m | m in env.ifaces.vals
      ensures ConfigOf(env, m).Success? <==>
              && (forall f :: Requested(env, f) ==> FamilyRoutes(env, m, f).Success?)
              && (forall f :: Mandatory(env, f) ==> OwnAddresses(env, f, m))
    {
      ConfigRaises(env, m);
    }
    if forall m :: m in env.ifaces.vals ==> ConfigOf(env, m).Success? {
      forall f | Mandatory(env, f)
        ensures Complete(env, f)
      {
        assert Requested(env, f);
        assert forall m :: m in env.ifaces.vals ==> OwnAddresses(env, f, m);
        forall m | m in env.ifaces.vals
          ensures FamilyRoutes(env, m, f).Success?
        {
          assert ConfigOf(env, m).Success?;
        }
        FamiliesRaise(env, f);
      }
    }
    if forall f :: Mandatory(env, f) ==> Complete(env, f) {
      forall m, f | m in env.ifaces.vals && Requested(env, f)
        ensures FamilyRoutes(env, m, f).Success?
      {
        if Optional(env, f) {
          OptionalNeverRaises(env, f, m);
        } else {
          assert Mandatory(env, f);
          CompleteServes(env, f, m);
        }
      }
    }
  }

  lemma FamiliesRaise(env: Env, f: Family)
    requires env.Valid() && DistinctNumbers(env) && Mandatory(env, f)
    requires forall m :: m in env.ifaces.vals ==> OwnAddresses(env, f, m) && FamilyRoutes(env, m, f).Success?
    ensures Complete(env, f)
  {
    assert forall m :: m in env.ifaces.vals ==> Injective(env.Row(m));
    hide Env.Valid, FamilyRoutes, Injective, HeldBefore, Reachable, Mandatory, IpName, Addresses, Prefixes, ExternalHop;
    forall m | m in env.ifaces.vals
      ensures forall t :: t in NetNames(env.topology) && t !in env.NetSet(m) && Reachable(env, m, t) ==> t in Prefixes(env, f)
      ensures env.request.gateway == Some(m) && ExternalHop(env, f).Some? ==>
                forall n :: n in env.Row(m).vals && n !in Prefixes(env, f) ==> HeldBefore(env, f, m, n, ExternalHop(env, f).value)
    {
      FamilyRaises(env, f, m);
    }
  }

  lemma CompleteServes(env: Env, f: Family, m: Name)
    requires env.Valid() && DistinctNumbers(env) && Mandatory(env, f) && Complete(env, f) && m in env.ifaces.vals
    ensures OwnAddresses(env, f, m) && FamilyRoutes(env, m, f).Success?
  {
    assert Injective(env.Row(m));
    hide Env.Valid, FamilyRoutes, Injective, HeldBefore, Reachable, Mandatory, IpName, Addresses, Prefixes, ExternalHop;
    FamilyRaises(env, f, m);
  }

  /** From the topology: `get_net_config_from_topology` returns exactly when a family is requested and the mandatory
      ones are complete. */
  lemma ReturnsExactly(t: Topology, data: Data, request: Request, choices: Choices)
    requires UniqueNames(t) && ChoicesFit(t, request, choices) && DistinctNumbers(EnvOf(t, data, request, choices))
    ensures NetConfigOf(t, data, request, choices).Success? <==>
            && (request.ipv4 || request.ipv6)
            && var env := EnvOf(t, data, request, choices);
               (request.ipv4 ==> Complete(env, V4)) && (request.ipv6 && !request.ipv4 ==> Complete(env, V6))
  {
    hide Complete, ChoicesFit, ConfigsOf, DistinctNumbers;
    EnvIsValid(t, data, request, choices);
    hide Env.Valid;
    var env := EnvOf(t, data, request, choices);
    RaisesExactly(env);
    assert env.request == request;
    assert Mandatory(env, V4) <==> request.ipv4;
    assert Mandatory(env, V6) <==> request.ipv6 && !request.ipv4;
  }
}
