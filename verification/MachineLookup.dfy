/**
 What the kernel of one machine does with its table, whatever pruning has removed from it.
 */
module MachineLookup {
  import opened Wrappers
  import opened Dicts
  import opened Topologies
  import opened FirstHops
  import opened ShortestPaths
  import opened IpAddresses
  import opened NetConfigs
  import opened TopologyConfig
  import opened RoutePruning
  import opened Forwarding
  import opened MachineTables

  /** One machine of a lab addressed for family `f`, with its configuration and its candidates. */
  ghost predicate Machine(env: Env, f: Family, m: Name, nc: MachineConfig, routes: seq<Triple>) {
    && env.Valid() && Addressed(env, f) && DisjointNets(env, f)
    && m in env.ifaces.vals && Injective(env.Row(m))
    && EntriesOf(env, m, routes, nc)
    && (forall x :: x in routes ==> x.eth in env.Row(m).vals.Values)
    && (forall r :: r in routes && r.net.family == f <==> IsCandidate(env, f, m, r))
  }

  lemma MachineIs(env: Env, f: Family, m: Name, nc: MachineConfig) returns (routes: seq<Triple>)
    requires env.Valid() && Addressed(env, f) && DisjointNets(env, f)
    requires m in env.ifaces.vals && Injective(env.Row(m)) && ConfigOf(env, m) == Success(nc)
    ensures Machine(env, f, m, nc, routes)
  {
    hide Env.Valid, DisjointNets, ConfigOf, EntriesOf, Candidates, IsCandidate, FamilyRoutes, Injective;
    routes := MachineEntries(env, m, nc);
    CandidateNumbers(env, m, env.request.Families());
    CandidatesOfFamily(env, f, m, env.request.Families());
    FamilyRoutesAre(env, f, m);
    FamilyOfRoutes(env, f, m);
    hide Addressed;
  }

  /** The address of family `f` in the entry of network `n`. */
  lemma EntryAddress(env: Env, f: Family, m: Name, nc: MachineConfig, routes: seq<Triple>, n: Name)
    requires Machine(env, f, m, nc, routes) && n in env.Row(m).vals
    ensures env.Row(m).vals[n] < |nc| && nc[env.Row(m).vals[n]].Static?
    ensures Attr(env, m, n) in env.data.Ips(f)
    ensures IpAt(env, f, m, n) in nc[env.Row(m).vals[n]].addresses
    ensures forall i :: i in nc[env.Row(m).vals[n]].addresses && i.ip.family == f ==> i == IpAt(env, f, m, n)
    ensures n in env.data.Nets(f) && NetworkOf(IpAt(env, f, m, n)) == NetAt(env, f, n)
    ensures NetAt(env, f, n).Contains(IpAt(env, f, m, n).ip)
  {
    hide AddressesOn, KeptOn, IsCandidate, Env.Valid, DisjointNets, Injective;
    assert FilledAt(env, m, routes, nc, n);
    RowNet(env, f, m, n);
    AddressedIp(env, f, m, n);
    AddressOfFamily(env, m, n, f, env.request.Families());
    NetworkOfMember(NetAt(env, f, n), IpAt(env, f, m, n));
  }

  /** The connected networks of family `f` in the table are those of the machine. */
  lemma LinkEntries(env: Env, f: Family, m: Name, nc: MachineConfig, routes: seq<Triple>)
    requires Machine(env, f, m, nc, routes)
    ensures forall n :: n in env.Row(m).vals ==>
              n in env.data.Nets(f) && Entry(NetAt(env, f, n), env.Row(m).vals[n], OnLink) in KernelTable(nc)
    ensures forall x :: x in KernelTable(nc) && x.action.OnLink? && x.net.family == f ==>
              exists n :: n in env.Row(m).vals && n in env.data.Nets(f)
                          && x == Entry(NetAt(env, f, n), env.Row(m).vals[n], OnLink)
  {
    hide IsCandidate, Env.Valid, DisjointNets, Injective, Addressed, FilledAt;
    forall n | n in env.Row(m).vals
      ensures n in env.data.Nets(f) && Entry(NetAt(env, f, n), env.Row(m).vals[n], OnLink) in KernelTable(nc)
    {
      EntryAddress(env, f, m, nc, routes, n);
    }
    forall x | x in KernelTable(nc) && x.action.OnLink? && x.net.family == f
      ensures exists n :: n in env.Row(m).vals && n in env.data.Nets(f)
                          && x == Entry(NetAt(env, f, n), env.Row(m).vals[n], OnLink)
    {
      var e, i :| 0 <= e < |nc| && nc[e].Static? && i in nc[e].addresses && x == Entry(NetworkOf(i), e, OnLink);
      var n :| n in env.Row(m).vals && env.Row(m).vals[n] == e;
      EntryAddress(env, f, m, nc, routes, n);
    }
  }

  // ----- the candidates of a machine do not clash -----

  lemma RouteIsElsewhere(env: Env, f: Family, m: Name, t: Name, r: Triple)
    requires env.Valid() && m in env.ifaces.vals && IsRouteTo(env, f, m, t, r)
    ensures t !in env.NetSet(m)
  {
    hide FirstHop;
    RowOnTopology(env, m, t);
  }

  /** A network that is not the machine's own is not the whole address space. */
  lemma ElsewhereIsPartial(env: Env, f: Family, m: Name, t: Name)
    requires env.Valid() && Addressed(env, f) && DisjointNets(env, f) && m in env.ifaces.vals
    requires t in NetNames(env.topology) && t in env.data.Nets(f) && t !in env.NetSet(m)
    ensures NetAt(env, f, t).len > 0
  {
    var own := env.Row(m).keys[0];
    RowOnTopology(env, m, own);
    RowNet(env, f, m, own);
    hide Env.Valid, Addressed;
    assert Disjoint(NetAt(env, f, own), NetAt(env, f, t));
    if NetAt(env, f, t).len == 0 {
      EmptyPrefixIsDefault(NetAt(env, f, t));
      DefaultContains(f, Address(f, NetAt(env, f, own).base));
    }
  }

  /** A specific route leads to a network elsewhere, smaller than the whole address space. */
  lemma RouteNet(env: Env, f: Family, m: Name, t: Name, r: Triple)
    requires env.Valid() && Addressed(env, f) && DisjointNets(env, f) && m in env.ifaces.vals
    requires t in NetNames(env.topology) && IsRouteTo(env, f, m, t, r)
    ensures t in env.data.Nets(f) && r.net == NetAt(env, f, t) && r.net.family == f && r.net.len > 0
    ensures t !in env.NetSet(m)
  {
    RouteIsElsewhere(env, f, m, t, r);
    hide HopToNet, Env.Valid;
    ElsewhereIsPartial(env, f, m, t);
  }

  /** The specific route to a network is unique, and so is the default route. */
  lemma RouteUnique(env: Env, f: Family, m: Name, t: Name, x: Triple, y: Triple)
    requires env.Valid() && m in env.ifaces.vals
    requires IsRouteTo(env, f, m, t, x) && IsRouteTo(env, f, m, t, y)
    ensures x == y
  {
    hide HopToNet, Env.Valid;
  }

  lemma CandidatesDisjoint(env: Env, f: Family, m: Name, nc: MachineConfig, routes: seq<Triple>)
    requires Machine(env, f, m, nc, routes)
    ensures DisjointButDefault(routes, f)
  {
    hide Env.Valid, Addressed, DisjointNets, EntriesOf, IsCandidate, Injective;
    forall x, y | x in routes && y in routes && x != y && x.net.family == f && y.net.family == f
      ensures || Disjoint(x.net, y.net)
              || (x.net == DefaultNet(f) && y.net != x.net)
              || (y.net == DefaultNet(f) && x.net != y.net)
    {
      CandidatePair(env, f, m, x, y);
    }
  }

  /** Two networks that share an address are the same. */
  lemma SameNet(env: Env, f: Family, n: Name, n2: Name, a: Address)
    requires DisjointNets(env, f) && n in NetNames(env.topology) && n2 in NetNames(env.topology)
    requires n in env.data.Nets(f) && n2 in env.data.Nets(f)
    requires NetAt(env, f, n).Contains(a) && NetAt(env, f, n2).Contains(a)
    ensures n == n2
  {
  }

  lemma RoutePair(env: Env, f: Family, m: Name, t: Name, x: Triple, t2: Name, y: Triple)
    requires env.Valid() && Addressed(env, f) && DisjointNets(env, f) && m in env.ifaces.vals
    requires t in NetNames(env.topology) && IsRouteTo(env, f, m, t, x)
    requires t2 in NetNames(env.topology) && IsRouteTo(env, f, m, t2, y) && x != y
    ensures Disjoint(x.net, y.net)
  {
    hide Env.Valid, Addressed, IsRouteTo;
    RouteNet(env, f, m, t, x);
    RouteNet(env, f, m, t2, y);
    if t == t2 {
      RouteUnique(env, f, m, t, x, y);
    }
  }

  lemma RouteOrDefault(env: Env, f: Family, m: Name, x: Triple)
    requires env.Valid() && Addressed(env, f) && DisjointNets(env, f) && m in env.ifaces.vals
    requires IsCandidate(env, f, m, x)
    ensures x.net.len > 0 ==> exists t :: t in NetNames(env.topology) && IsRouteTo(env, f, m, t, x)
    ensures x.net.len == 0 ==> x.net == DefaultNet(f) && IsDefaultCandidate(env, f, m, x)
  {
    DefaultIs(env, f, m);
    hide Env.Valid, Addressed, DefaultRoute, IsRouteTo;
    if t :| t in NetNames(env.topology) && IsRouteTo(env, f, m, t, x) {
      RouteNet(env, f, m, t, x);
    }
  }

  lemma DefaultUnique(env: Env, f: Family, m: Name, x: Triple, y: Triple)
    requires env.Valid() && Addressed(env, f) && DisjointNets(env, f) && m in env.ifaces.vals
    requires IsDefaultCandidate(env, f, m, x) && IsDefaultCandidate(env, f, m, y)
    ensures x == y && x.net == DefaultNet(f)
  {
    hide Env.Valid, Addressed, DisjointNets, DefaultRoute, IsRouteTo;
    DefaultIs(env, f, m);
  }

  lemma DefaultIsCandidate(env: Env, f: Family, m: Name, x: Triple)
    requires env.Valid() && m in env.ifaces.vals && IsDefaultCandidate(env, f, m, x)
    ensures IsCandidate(env, f, m, x)
  {
    hide Env.Valid, DefaultRoute, IsRouteTo;
  }

  lemma CandidatePair(env: Env, f: Family, m: Name, x: Triple, y: Triple)
    requires env.Valid() && Addressed(env, f) && DisjointNets(env, f) && m in env.ifaces.vals
    requires IsCandidate(env, f, m, x) && IsCandidate(env, f, m, y) && x != y
    ensures || Disjoint(x.net, y.net)
            || (x.net == DefaultNet(f) && y.net != x.net)
            || (y.net == DefaultNet(f) && x.net != y.net)
  {
    hide Env.Valid, Addressed, DisjointNets, DefaultRoute, IsRouteTo, IsCandidate, IsDefaultCandidate, Disjoint;
    RouteOrDefault(env, f, m, x);
    RouteOrDefault(env, f, m, y);
    if x.net.len > 0 && y.net.len > 0 {
      var t :| t in NetNames(env.topology) && IsRouteTo(env, f, m, t, x);
      var t2 :| t2 in NetNames(env.topology) && IsRouteTo(env, f, m, t2, y);
      RoutePair(env, f, m, t, x, t2, y);
    } else if x.net.len == 0 && y.net.len == 0 {
      DefaultUnique(env, f, m, x, y);
    }
  }

  /** Two candidates with the same next hop leave by the same interface, one of them being specific. */
  lemma SameHopSameEth(env: Env, f: Family, m: Name, t: Name, r: Triple, y: Triple)
    requires env.Valid() && Addressed(env, f) && DisjointNets(env, f) && m in env.ifaces.vals
    requires IsRouteTo(env, f, m, t, r) && IsCandidate(env, f, m, y) && y.hop == r.hop
    ensures y.eth == r.eth
  {
    DefaultIs(env, f, m);
    hide Env.Valid, DefaultRoute, HopToNet, DisjointNets;
    var via := HopToNet(env, m, t).value.via;
    RowNet(env, f, m, via);
    assert NetAt(env, f, via).Contains(r.hop);
    if t2 :| t2 in NetNames(env.topology) && IsRouteTo(env, f, m, t2, y) {
      var via2 := HopToNet(env, m, t2).value.via;
      RowNet(env, f, m, via2);
      OneHolds(env, f, m, r.hop, via, via2);
    }
  }

  // ----- what the kernel of one machine chooses -----

  /** Every choice of the table for `a` goes out through `eth` to next hop `hop`. */
  ghost predicate ChoosesVia(nc: MachineConfig, a: Address, eth: nat, hop: Address) {
    && (exists x :: Chosen(nc, a, x))
    && (forall x :: Chosen(nc, a, x) ==> x.eth == eth && x.action == Via(hop))
  }

  /** A table whose matches for `a` are all static routes chooses the longest of the kept ones. */
  lemma ChosenIsBest(nc: MachineConfig, routes: seq<Triple>, a: Address)
    requires forall r: Triple :: r in Kept(routes) ==> Entry(r.net, r.eth, Via(r.hop)) in KernelTable(nc)
    requires forall x :: x in KernelTable(nc) && x.action.Via? ==>
               exists r :: r in Kept(routes) && x == Entry(r.net, r.eth, Via(r.hop))
    requires forall x :: x in KernelTable(nc) && x.net.Contains(a) ==> x.action.Via?
    ensures forall r :: Best(Kept(routes), a, r) ==> Chosen(nc, a, Entry(r.net, r.eth, Via(r.hop)))
    ensures forall x :: Chosen(nc, a, x) ==>
              exists r :: Best(Kept(routes), a, r) && x == Entry(r.net, r.eth, Via(r.hop))
  {
    hide KernelTable, Kept;
    forall x | Chosen(nc, a, x)
      ensures exists r :: Best(Kept(routes), a, r) && x == Entry(r.net, r.eth, Via(r.hop))
    {
      var r :| r in Kept(routes) && x == Entry(r.net, r.eth, Via(r.hop));
      forall y | y in Kept(routes) && y.net.Contains(a)
        ensures y.net.len <= r.net.len
      {
        assert Entry(y.net, y.eth, Via(y.hop)) in KernelTable(nc);
      }
      assert Best(Kept(routes), a, r);
    }
  }

  /** A candidate that matches an address of network `t` is the route to `t` or the default one. */
  lemma MatchingCandidate(env: Env, f: Family, m: Name, t: Name, r: Triple, a: Address, x: Triple)
    requires env.Valid() && Addressed(env, f) && DisjointNets(env, f) && m in env.ifaces.vals
    requires t in NetNames(env.topology) && IsRouteTo(env, f, m, t, r) && r.net.Contains(a)
    requires IsCandidate(env, f, m, x) && x.net.Contains(a)
    ensures x.net.len <= r.net.len
  {
    hide Env.Valid, Addressed, DisjointNets, DefaultRoute, IsRouteTo, IsCandidate;
    RouteOrDefault(env, f, m, x);
    RouteNet(env, f, m, t, r);
    if x.net.len > 0 {
      var t2 :| t2 in NetNames(env.topology) && IsRouteTo(env, f, m, t2, x);
      RouteNet(env, f, m, t2, x);
      SameNet(env, f, t2, t, a);
    }
  }

  lemma RouteIsCandidate(env: Env, f: Family, m: Name, nc: MachineConfig, routes: seq<Triple>, t: Name, r: Triple)
    requires Machine(env, f, m, nc, routes)
    requires t in NetNames(env.topology) && IsRouteTo(env, f, m, t, r)
    ensures r in routes
  {
    hide Env.Valid, Addressed, DisjointNets, EntriesOf, Injective, HopToNet;
    assert r.net.family == f by {
      RouteNet(env, f, m, t, r);
    }
    assert IsCandidate(env, f, m, r);
  }

  lemma InFamilyIsCandidate(env: Env, f: Family, m: Name, nc: MachineConfig, routes: seq<Triple>, r: Triple)
    requires Machine(env, f, m, nc, routes) && r in routes && r.net.family == f
    ensures IsCandidate(env, f, m, r)
  {
    hide Env.Valid, Addressed, IsCandidate, EntriesOf, DisjointNets, Injective;
  }

  /** The specific route is the longest candidate for an address of its network. */
  lemma SpecificIsBest(env: Env, f: Family, m: Name, nc: MachineConfig, routes: seq<Triple>, t: Name, r: Triple, a: Address)
    requires Machine(env, f, m, nc, routes)
    requires t in NetNames(env.topology) && IsRouteTo(env, f, m, t, r) && r.net.Contains(a) && a.family == f
    ensures Best(All(routes), a, r)
  {
    hide Env.Valid, Addressed, DisjointNets, IsCandidate, IsRouteTo, EntriesOf, Injective;
    RouteIsCandidate(env, f, m, nc, routes, t, r);
    forall x | x in routes && x.net.Contains(a)
      ensures x.net.len <= r.net.len
    {
      InFamilyIsCandidate(env, f, m, nc, routes, x);
      MatchingCandidate(env, f, m, t, r, a, x);
    }
  }

  /** No connected network matches an address of a network elsewhere. */
  lemma OnlyRoutesMatch(env: Env, f: Family, m: Name, nc: MachineConfig, routes: seq<Triple>, t: Name, a: Address)
    requires Machine(env, f, m, nc, routes)
    requires t in NetNames(env.topology) && t !in env.NetSet(m) && t in env.data.Nets(f)
    requires NetAt(env, f, t).Contains(a) && a.family == f
    ensures forall x :: x in KernelTable(nc) && x.net.Contains(a) ==> x.action.Via?
  {
    hide Env.Valid, Addressed, EntriesOf, IsCandidate, Injective, KernelTable;
    LinkEntries(env, f, m, nc, routes);
    forall x | x in KernelTable(nc) && x.net.Contains(a)
      ensures x.action.Via?
    {
      if x.action.OnLink? {
        var n :| n in env.Row(m).vals && n in env.data.Nets(f)
                 && x == Entry(NetAt(env, f, n), env.Row(m).vals[n], OnLink);
        RowOnTopology(env, m, n);
        SameNet(env, f, n, t, a);
        assert false;
      }
    }
  }

  lemma KeptIsCandidate(env: Env, f: Family, m: Name, nc: MachineConfig, routes: seq<Triple>, r: Triple, a: Address)
    requires Machine(env, f, m, nc, routes) && r in Kept(routes) && r.net.Contains(a) && a.family == f
    ensures IsCandidate(env, f, m, r)
  {
    hide Env.Valid, Addressed, IsCandidate, EntriesOf, IsRedundant;
  }

  /** For an address of a network elsewhere, the kernel uses the first hop that the search found. */
  lemma RemoteLookup(env: Env, f: Family, m: Name, nc: MachineConfig, routes: seq<Triple>, t: Name, r: Triple, a: Address)
    requires Machine(env, f, m, nc, routes)
    requires t in NetNames(env.topology) && IsRouteTo(env, f, m, t, r) && r.net.Contains(a) && a.family == f
    ensures ChoosesVia(nc, a, r.eth, r.hop)
  {
    hide Env.Valid, Addressed, DisjointNets, EntriesOf, IsCandidate, IsRouteTo, Injective, KernelTable, Kept, All;
    RouteNet(env, f, m, t, r);
    OnlyRoutesMatch(env, f, m, nc, routes, t, a);
    KernelRoutes(env, m, routes, nc);
    ChosenIsBest(nc, routes, a);
    SpecificIsBest(env, f, m, nc, routes, t, r, a);
    CandidatesDisjoint(env, f, m, nc, routes);
    PruningKeepsLookup(routes, a, r);
    var best :| Best(Kept(routes), a, best);
    assert Chosen(nc, a, Entry(best.net, best.eth, Via(best.hop)));
    forall x | Chosen(nc, a, x)
      ensures x.eth == r.eth && x.action == Via(r.hop)
    {
      var after :| Best(Kept(routes), a, after) && x == Entry(after.net, after.eth, Via(after.hop));
      KeptIsCandidate(env, f, m, nc, routes, after, a);
      SameHopSameEth(env, f, m, t, r, after);
    }
  }

  /** For an address of one of its own networks, the kernel puts the packet there. */
  lemma LocalLookup(env: Env, f: Family, m: Name, nc: MachineConfig, routes: seq<Triple>, t: Name, a: Address)
    requires Machine(env, f, m, nc, routes) && t in env.Row(m).vals && t in env.data.Nets(f)
    requires NetAt(env, f, t).Contains(a) && a.family == f
    ensures Chosen(nc, a, Entry(NetAt(env, f, t), env.Row(m).vals[t], OnLink))
    ensures forall x :: Chosen(nc, a, x) ==> x == Entry(NetAt(env, f, t), env.Row(m).vals[t], OnLink)
  {
    hide Env.Valid, Addressed, EntriesOf, IsCandidate, IsRouteTo, Injective, KernelTable, Kept, All;
    LinkEntries(env, f, m, nc, routes);
    KernelRoutes(env, m, routes, nc);
    RowOnTopology(env, m, t);
    var link := Entry(NetAt(env, f, t), env.Row(m).vals[t], OnLink);
    forall x | x in KernelTable(nc) && x.net.Contains(a)
      ensures x == link || (x.action.Via? && x.net.len == 0)
    {
      if x.action.OnLink? {
        var n :| n in env.Row(m).vals && n in env.data.Nets(f)
                 && x == Entry(NetAt(env, f, n), env.Row(m).vals[n], OnLink);
        RowOnTopology(env, m, n);
        SameNet(env, f, n, t, a);
      } else {
        var r :| r in Kept(routes) && x == Entry(r.net, r.eth, Via(r.hop));
        KeptIsCandidate(env, f, m, nc, routes, r, a);
        LocalCandidate(env, f, m, t, a, r);
      }
    }
  }

  /** Of the candidates only the default route can match an address of the machine's own networks. */
  lemma LocalCandidate(env: Env, f: Family, m: Name, t: Name, a: Address, r: Triple)
    requires env.Valid() && Addressed(env, f) && DisjointNets(env, f) && m in env.ifaces.vals
    requires t in env.NetSet(m) && t in env.data.Nets(f) && NetAt(env, f, t).Contains(a)
    requires IsCandidate(env, f, m, r) && r.net.Contains(a)
    ensures r.net.len == 0
  {
    hide Env.Valid, Addressed, DisjointNets, DefaultRoute, IsRouteTo, IsCandidate;
    RouteOrDefault(env, f, m, r);
    RowOnTopology(env, m, t);
    if r.net.len > 0 {
      var t2 :| t2 in NetNames(env.topology) && IsRouteTo(env, f, m, t2, r);
      RouteNet(env, f, m, t2, r);
      SameNet(env, f, t2, t, a);
      assert false;
    }
  }

  // ----- addresses outside the lab -----

  /** The default route is never redundant. */
  lemma DefaultIsKept(routes: seq<Triple>, f: Family, d: Triple)
    requires d in routes && d.net == DefaultNet(f)
    ensures d in Kept(routes)
  {
    if IsRedundant(routes, d.net, d.hop) {
      var i :| 0 <= i < |routes| && routes[i].net != d.net && routes[i].net.family == d.net.family
               && d.net.SubnetOf(routes[i].net) && d.hop == routes[i].hop;
      CoveredIsLonger(d.net, routes[i].net);
      assert false;
    }
  }

  /** Address `a` exists in family `f` and is in no network of the lab. */
  ghost predicate Outside(env: Env, f: Family, a: Address) {
    && InFamily(a, f)
    && forall n :: n in NetNames(env.topology) && n in env.data.Nets(f) ==> !NetAt(env, f, n).Contains(a)
  }

  lemma OutsideCandidate(env: Env, f: Family, m: Name, a: Address, r: Triple)
    requires env.Valid() && Addressed(env, f) && DisjointNets(env, f) && m in env.ifaces.vals
    requires Outside(env, f, a) && IsCandidate(env, f, m, r) && r.net.Contains(a)
    ensures r.net == DefaultNet(f) && IsDefaultCandidate(env, f, m, r)
  {
    hide Env.Valid, Addressed, DisjointNets, IsRouteTo, IsCandidate, IsDefaultCandidate;
    RouteOrDefault(env, f, m, r);
    if r.net.len > 0 {
      var t :| t in NetNames(env.topology) && IsRouteTo(env, f, m, t, r);
      RouteNet(env, f, m, t, r);
      assert false;
    }
  }

  lemma OutsideMatches(env: Env, f: Family, m: Name, nc: MachineConfig, routes: seq<Triple>, a: Address)
    requires Machine(env, f, m, nc, routes) && Outside(env, f, a)
    ensures forall x :: x in KernelTable(nc) && x.net.Contains(a) ==> x.action.Via?
  {
    hide Env.Valid, Addressed, DisjointNets, EntriesOf, IsCandidate, Injective, KernelTable;
    LinkEntries(env, f, m, nc, routes);
    forall x | x in KernelTable(nc) && x.net.Contains(a)
      ensures x.action.Via?
    {
      if x.action.OnLink? {
        var n :| n in env.Row(m).vals && n in env.data.Nets(f)
                 && x == Entry(NetAt(env, f, n), env.Row(m).vals[n], OnLink);
        RowOnTopology(env, m, n);
        assert false;
      }
    }
  }

  lemma CandidateIsIn(env: Env, f: Family, m: Name, nc: MachineConfig, routes: seq<Triple>, r: Triple)
    requires Machine(env, f, m, nc, routes) && IsCandidate(env, f, m, r) && r.net.family == f
    ensures r in routes
  {
    hide Env.Valid, Addressed, DisjointNets, EntriesOf, IsCandidate, Injective;
  }

  /** For an address outside the lab, the kernel uses the default route. */
  lemma OutsideLookup(env: Env, f: Family, m: Name, nc: MachineConfig, routes: seq<Triple>, a: Address, d: Triple)
    requires Machine(env, f, m, nc, routes) && Outside(env, f, a) && IsDefaultCandidate(env, f, m, d)
    ensures ChoosesVia(nc, a, d.eth, d.hop)
  {
    hide Env.Valid, Addressed, DisjointNets, EntriesOf, IsCandidate, IsDefaultCandidate, Injective, KernelTable, Kept;
    DefaultUnique(env, f, m, d, d);
    DefaultIsCandidate(env, f, m, d);
    CandidateIsIn(env, f, m, nc, routes, d);
    DefaultIsKept(routes, f, d);
    OutsideMatches(env, f, m, nc, routes, a);
    KernelRoutes(env, m, routes, nc);
    ChosenIsBest(nc, routes, a);
    forall r | r in Kept(routes) && r.net.Contains(a)
      ensures r == d
    {
      KeptIsCandidate(env, f, m, nc, routes, r, a);
      OutsideCandidate(env, f, m, a, r);
      DefaultUnique(env, f, m, r, d);
    }
    DefaultContains(f, a);
    assert Best(Kept(routes), a, d);
  }
}
