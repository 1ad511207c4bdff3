/**
 A lab that contains a renamed copy of another configures the copy exactly as the other
 configures itself.
 */
module MirrorRouting {
  import opened Wrappers
  import opened Dicts
  import opened Topologies
  import opened RoutingGraph
  import opened FirstHops
  import opened IpAddresses
  import opened NetConfigs
  import opened TopologyConfig
  import opened MachineTables
  import opened MirrorTopology
  import opened MirrorSearch

  /** Machine `m` of `a` and its copy in `b` have the same interfaces, addresses and choices. */
  ghost predicate SameMachine(a: Env, b: Env, m: Name, s: string)
    requires m in a.ifaces.vals
  {
    && m + s in b.ifaces.vals
    && b.Row(m + s).keys == Clones(a.Row(m).keys, s)
    && m in a.choices.order && m + s in b.choices.order
    && b.choices.order[m + s] == Clones(a.choices.order[m], s)
    && (forall n :: n in a.Row(m).vals ==>
          && n + s in b.Row(m + s).vals && b.Row(m + s).vals[n + s] == a.Row(m).vals[n]
          && var attr, attr2 := AttrName(|a.Row(m).keys|, m, n), AttrName(|b.Row(m + s).keys|, m + s, n + s);
             attr in a.data.ips ==> attr2 in b.data.ips && b.data.ips[attr2] == a.data.ips[attr])
  }

  /** Both labs are IPv4 only; `b` repeats `a` under names suffixed by `s`. */
  ghost predicate Copies(a: Env, b: Env, s: string) {
    && a.Valid() && b.Valid()
    && a.request.Families() == [V4] && b.request.Families() == [V4]
    && Closed(a.graph) && Closed(b.graph) && Repeats(a.graph, b.graph, s)
    && (forall m :: m in a.ifaces.vals ==> SameMachine(a, b, m, s))
    && (forall n :: n in NetNames(a.topology) && n in a.data.nets ==>
          n + s in b.data.nets && b.data.nets[n + s] == a.data.nets[n])
  }

  /** Either the gateway of `b` is out of reach of the copy and `a` has none, or the two gateways
      correspond. */
  ghost predicate SameGateway(a: Env, b: Env, s: string) {
    match a.request.gateway
    case None =>
      (match b.request.gateway
       case None => true
       case Some(g) =>
         && (forall m :: m in a.ifaces.vals ==> m + s != g)
         && (forall n :: n in a.graph ==> n + s !in b.NetSet(g)))
    case Some(g) =>
      && b.request.gateway == Some(g + s)
      && SameOn(a.graph, a.NetSet(g), b.NetSet(g + s), s)
      && b.request.external4 == a.request.external4
      && (forall m :: m in a.ifaces.vals && a.NetSet(m) * a.NetSet(g) != {} ==>
            m in a.choices.shared && m + s in b.choices.shared && b.choices.shared[m + s] == a.choices.shared[m] + s)
  }

  lemma CopiesBasics(a: Env, b: Env, s: string)
    requires Copies(a, b, s)
    ensures a.Valid() && b.Valid() && a.request.Families() == [V4] && b.request.Families() == [V4]
  {
    hide Env.Valid, Repeats;
  }

  lemma CopiedMachine(a: Env, b: Env, m: Name, s: string)
    requires Copies(a, b, s) && m in a.ifaces.vals
    ensures SameMachine(a, b, m, s)
  {
  }

  lemma GraphNets(a: Env, m: Name, n: Name)
    requires a.Valid() && m in a.ifaces.vals && n in a.Row(m).vals
    ensures n in a.graph && n in NetNames(a.topology)
  {
    RowOnTopology(a, m, n);
  }

  lemma OrderInGraph(a: Env, m: Name)
    requires a.Valid() && m in a.ifaces.vals
    ensures m in a.choices.order
    ensures forall n :: n in a.choices.order[m] ==> n in a.graph && n in a.Row(m).vals
  {
    RowOnTopology(a, m, a.Row(m).keys[0]);
    forall n | n in a.choices.order[m]
      ensures n in a.graph && n in a.Row(m).vals
    {
      RowOnTopology(a, m, n);
    }
  }

  lemma CloneMembers(names: seq<Name>, n: Name, s: string)
    ensures n + s in Clones(names, s) <==> n in names
  {
    if n in names {
      var i :| 0 <= i < |names| && names[i] == n;
      assert Clones(names, s)[i] == n + s;
    }
    if n + s in Clones(names, s) {
      var i :| 0 <= i < |names| && Clones(names, s)[i] == n + s;
      SuffixInjective(names[i], n, s);
    }
  }

  lemma SameIp(a: Env, b: Env, m: Name, n: Name, s: string)
    requires Copies(a, b, s) && m in a.ifaces.vals && n in a.Row(m).vals && m + s in b.ifaces.vals
    requires GetIp(a, m, n, V4).Success?
    ensures GetIp(b, m + s, n + s, V4) == GetIp(a, m, n, V4)
  {
    hide Env.Valid;
    CopiedMachine(a, b, m, s);
  }

  /** The first hop of the copy is the copy of the first hop. */
  lemma SameHop(a: Env, b: Env, m: Name, targets: set<Name>, targets2: set<Name>, s: string)
    requires Copies(a, b, s) && m in a.ifaces.vals && m + s in b.ifaces.vals
    requires m in a.choices.order && m + s in b.choices.order
    requires SameOn(a.graph, targets, targets2, s)
    ensures FirstHop(b.graph, b.choices.order[m + s], targets2)
         == CloneFound(FirstHop(a.graph, a.choices.order[m], targets), s)
  {
    hide FirstHop, SameOn;
    OrderInGraph(a, m);
    CopiedMachine(a, b, m, s);
    FirstHopSame(a.graph, b.graph, a.choices.order[m], targets, targets2, s);
  }

  lemma SameRouteTo(a: Env, b: Env, m: Name, t: Name, s: string)
    requires Copies(a, b, s) && m in a.ifaces.vals && m + s in b.ifaces.vals
    requires t in NetNames(a.topology) && RouteTo(a, m, V4, t).Success?
    ensures RouteTo(b, m + s, V4, t + s) == RouteTo(a, m, V4, t)
  {
    hide Env.Valid, FirstHop, Repeats;
    OrderInGraph(a, m);
    OrderInGraph(b, m + s);
    CopiedMachine(a, b, m, s);
    CloneMembers(a.choices.order[m], t, s);
    SingletonSame(a.graph, t, s);
    SameHop(a, b, m, {t}, {t + s}, s);
    HopUsable(a, m, {t});
    var h := FirstHop(a.graph, a.choices.order[m], {t});
    if h.Some? && t !in a.choices.order[m] {
      CopiedMachine(a, b, h.value.router, s);
      SameIp(a, b, h.value.router, h.value.via, s);
    }
  }

  lemma SingletonSame(g: Graph, t: Name, s: string)
    ensures SameOn(g, {t}, {t + s}, s)
  {
    forall n | n in g && n + s == t + s
      ensures n == t
    {
      SuffixInjective(n, t, s);
    }
  }

  /** The copy has no route to a network that is no copy. */
  lemma NoRouteToStranger(a: Env, b: Env, m: Name, t: Name, s: string)
    requires Copies(a, b, s) && m in a.ifaces.vals && m + s in b.ifaces.vals
    requires forall n :: n in a.graph ==> n + s != t
    ensures RouteTo(b, m + s, V4, t) == Success([])
  {
    hide Env.Valid, FirstHop, Repeats;
    OrderInGraph(a, m);
    OrderInGraph(b, m + s);
    CopiedMachine(a, b, m, s);
    StrangerNotFound(a.graph, b.graph, a.choices.order[m], {t}, s);
  }

  /** The networks of `b` that are copies are those of `a`, in the same order. */
  ghost predicate Interleaves(a: seq<Name>, b: seq<Name>, g: Graph, s: string)
    decreases |b|
  {
    if b == [] then a == []
    else if exists n :: n in g && n + s == b[|b| - 1] then
      a != [] && a[|a| - 1] + s == b[|b| - 1] && Interleaves(a[..|a| - 1], b[..|b| - 1], g, s)
    else Interleaves(a, b[..|b| - 1], g, s)
  }

  lemma {:induction false} SameRoutesTo(a: Env, b: Env, m: Name, targets: seq<Name>, targets2: seq<Name>, s: string)
    requires Copies(a, b, s) && m in a.ifaces.vals && m + s in b.ifaces.vals
    requires forall t :: t in targets ==> t in NetNames(a.topology)
    requires Interleaves(targets, targets2, a.graph, s)
    requires RoutesTo(a, m, V4, targets).Success?
    ensures RoutesTo(b, m + s, V4, targets2) == RoutesTo(a, m, V4, targets)
    decreases |targets2|
  {
    hide Copies, RouteTo, Env.Valid, NetNames;
    CopiesBasics(a, b, s);
    if targets2 != [] {
      var last2 := targets2[|targets2| - 1];
      if exists n :: n in a.graph && n + s == last2 {
        SameRoutesTo(a, b, m, targets[..|targets| - 1], targets2[..|targets2| - 1], s);
        SameRouteTo(a, b, m, targets[|targets| - 1], s);
      } else {
        SameRoutesTo(a, b, m, targets, targets2[..|targets2| - 1], s);
        NoRouteToStranger(a, b, m, last2, s);
        var routes := RoutesTo(a, m, V4, targets).value;
        assert routes + [] == routes;
      }
    }
  }

  // ----- the default route -----

  /** Corresponding rows: the same numbers, on the renamed networks. */
  ghost predicate SameRow(x: Dict<Name, nat>, y: Dict<Name, nat>, s: string) {
    && y.keys == Clones(x.keys, s)
    && forall n :: n in x.vals ==> n + s in y.vals && y.vals[n + s] == x.vals[n]
  }

  lemma ClonesCons(x: Name, xs: seq<Name>, s: string)
    ensures Clones([x] + xs, s) == [x + s] + Clones(xs, s)
  {
  }

  lemma {:induction false} SameInsert(x: Dict<Name, nat>, y: Dict<Name, nat>, sorted: seq<Name>, n: Name, s: string)
    requires SameRow(x, y, s) && n in x.vals && forall z :: z in sorted ==> z in x.vals
    requires forall z :: z in Clones(sorted, s) ==> z in y.vals
    ensures InsertByEth(y, Clones(sorted, s), n + s) == Clones(InsertByEth(x, sorted, n), s)
    decreases |sorted|
  {
    if sorted == [] {
      assert Clones(sorted, s) == [];
    } else {
      var rest := sorted[1..];
      assert sorted == [sorted[0]] + rest && sorted[0] in sorted;
      ClonesCons(sorted[0], rest, s);
      assert Clones(sorted, s)[1..] == Clones(rest, s);
      hide Clones;
      ClonesCons(n, sorted, s);
      SameInsert(x, y, rest, n, s);
      ClonesCons(sorted[0], InsertByEth(x, rest, n), s);
    }
  }

  lemma SortedIn(row: Dict<Name, nat>, nets: seq<Name>)
    requires forall x :: x in nets ==> x in row.vals
    ensures forall x :: x in SortByEth(row, nets) <==> x in nets
  {
    assert forall x :: x in SortByEth(row, nets) <==> x in multiset(SortByEth(row, nets));
    assert forall x :: x in nets <==> x in multiset(nets);
  }

  lemma CloneNetsIn(x: Dict<Name, nat>, y: Dict<Name, nat>, nets: seq<Name>, s: string)
    requires SameRow(x, y, s) && forall z :: z in nets ==> z in x.vals
    ensures forall z :: z in Clones(nets, s) ==> z in y.vals
  {
    forall z | z in Clones(nets, s)
      ensures z in y.vals
    {
      var i :| 0 <= i < |nets| && Clones(nets, s)[i] == z;
      assert nets[i] in nets;
    }
  }

  lemma {:induction false} SameSorted(x: Dict<Name, nat>, y: Dict<Name, nat>, nets: seq<Name>, s: string)
    requires SameRow(x, y, s) && (forall z :: z in nets ==> z in x.vals)
    requires forall z :: z in Clones(nets, s) ==> z in y.vals
    ensures SortByEth(y, Clones(nets, s)) == Clones(SortByEth(x, nets), s)
    decreases |nets|
  {
    if nets == [] {
      assert Clones(nets, s) == [] && Clones([], s) == [];
    } else {
      var front := nets[..|nets| - 1];
      assert Clones(nets, s)[..|nets| - 1] == Clones(front, s);
      SameSorted(x, y, front, s);
      SortedIn(x, front);
      CloneNetsIn(x, y, SortByEth(x, front), s);
      SameInsert(x, y, SortByEth(x, front), nets[|nets| - 1], s);
    }
  }

  lemma {:induction false} SameHolding(a: Env, b: Env, hop: Address, nets: seq<Name>, s: string)
    requires Copies(a, b, s) && forall n :: n in nets ==> n in NetNames(a.topology)
    requires FirstHolding(a, V4, hop, nets).Success?
    ensures var r := FirstHolding(a, V4, hop, nets).value;
            FirstHolding(b, V4, hop, Clones(nets, s)) == Success(if r.Some? then Some(r.value + s) else None)
  {
    hide Env.Valid, Repeats;
    if nets != [] {
      assert Clones(nets, s)[1..] == Clones(nets[1..], s);
      if !a.data.nets[nets[0]].Contains(hop) {
        SameHolding(a, b, hop, nets[1..], s);
      }
    }
  }

  lemma SameNumbers(x: Dict<Name, nat>, y: Dict<Name, nat>, s: string)
    requires SameRow(x, y, s) && x.Valid() && y.Valid()
    ensures Numbers(y) == Numbers(x)
  {
    forall i | 0 <= i < |x.keys|
      ensures Numbers(y)[i] == Numbers(x)[i]
    {
      assert x.keys[i] in x.keys;
    }
  }

  lemma RowSame(a: Env, b: Env, m: Name, s: string)
    requires Copies(a, b, s) && m in a.ifaces.vals && m + s in b.ifaces.vals
    ensures SameRow(a.Row(m), b.Row(m + s), s) && a.Row(m).Valid() && b.Row(m + s).Valid()
    ensures Numbers(b.Row(m + s)) == Numbers(a.Row(m)) && |b.Row(m + s).keys| == |a.Row(m).keys| > 0
  {
    CopiedMachine(a, b, m, s);
    SameNumbers(a.Row(m), b.Row(m + s), s);
  }

  lemma SameExternalHolding(a: Env, b: Env, m: Name, hop: Address, s: string)
    requires Copies(a, b, s) && m in a.ifaces.vals && m + s in b.ifaces.vals
    requires m in a.choices.order && m + s in b.choices.order
    requires forall x :: x in a.choices.order[m] ==> x in a.Row(m).vals
    requires forall x :: x in b.choices.order[m + s] ==> x in b.Row(m + s).vals
    requires FirstHolding(a, V4, hop, SortByEth(a.Row(m), a.choices.order[m])).Success?
    ensures var r := FirstHolding(a, V4, hop, SortByEth(a.Row(m), a.choices.order[m])).value;
            && (r.Some? ==> r.value in a.Row(m).vals)
            && FirstHolding(b, V4, hop, SortByEth(b.Row(m + s), b.choices.order[m + s]))
               == Success(if r.Some? then Some(r.value + s) else None)
  {
    CopiedMachine(a, b, m, s);
    RowSame(a, b, m, s);
    SortedNets(a, m);
    var order := a.choices.order[m];
    var sorted := SortByEth(a.Row(m), order);
    assert b.choices.order[m + s] == Clones(order, s);
    forall n | n in sorted
      ensures n in NetNames(a.topology)
    {
      GraphNets(a, m, n);
    }
    FirstHoldingIn(a, V4, hop, sorted);
    hide Copies, SameMachine, FirstHolding, SortByEth, Numbers;
    CloneNetsIn(a.Row(m), b.Row(m + s), order, s);
    SameSorted(a.Row(m), b.Row(m + s), order, s);
    SameHolding(a, b, hop, sorted, s);
  }

  lemma SameExternalEth(a: Env, b: Env, m: Name, hop: Address, s: string)
    requires Copies(a, b, s) && m in a.ifaces.vals && m + s in b.ifaces.vals
    requires ExternalEth(a, m, V4, hop).Success?
    ensures ExternalEth(b, m + s, V4, hop) == ExternalEth(a, m, V4, hop)
  {
    RowSame(a, b, m, s);
    CopiesBasics(a, b, s);
    OrderInGraph(a, m);
    OrderInGraph(b, m + s);
    hide Copies, FirstHolding, SortByEth, Numbers, MinOf;
    SameExternalHolding(a, b, m, hop, s);
  }

  lemma SameExternal(a: Env, b: Env, m: Name, s: string)
    requires Copies(a, b, s) && m in a.ifaces.vals && m + s in b.ifaces.vals
    requires b.request.external4 == a.request.external4
    requires ExternalRoute(a, m, V4).Success?
    ensures ExternalRoute(b, m + s, V4) == ExternalRoute(a, m, V4)
  {
    hide ExternalEth, Copies, Env.Valid;
    CopiesBasics(a, b, s);
    if a.request.external4.Some? {
      SameExternalEth(a, b, m, a.request.external4.value, s);
    }
  }

  /** The networks of a copied machine that are copies are the copies of its networks. */
  lemma NetSetSame(a: Env, b: Env, m: Name, s: string)
    requires Copies(a, b, s) && m in a.ifaces.vals && m + s in b.ifaces.vals
    ensures forall x :: x in b.NetSet(m + s) ==> exists n :: n in a.NetSet(m) && n in a.graph && x == n + s
    ensures forall n :: n in a.NetSet(m) ==> n + s in b.NetSet(m + s) && n in a.graph
  {
    CopiedMachine(a, b, m, s);
    var keys := a.Row(m).keys;
    assert b.Row(m + s).keys == Clones(keys, s);
    forall n | n in keys
      ensures n in a.graph
    {
      RowOnTopology(a, m, n);
    }
    hide Copies, SameMachine, Env.Valid;
    forall n | n in a.NetSet(m)
      ensures n + s in b.NetSet(m + s) && n in a.graph
    {
      CloneMembers(keys, n, s);
    }
    forall x | x in b.NetSet(m + s)
      ensures exists n :: n in a.NetSet(m) && n in a.graph && x == n + s
    {
      var i :| 0 <= i < |keys| && Clones(keys, s)[i] == x;
      assert keys[i] in a.NetSet(m);
    }
  }

  lemma SharedSame(a: Env, b: Env, m: Name, g: Name, s: string)
    requires Copies(a, b, s) && m in a.ifaces.vals && m + s in b.ifaces.vals
    requires SameOn(a.graph, a.NetSet(g), b.NetSet(g + s), s)
    ensures a.NetSet(m) * a.NetSet(g) == {} <==> b.NetSet(m + s) * b.NetSet(g + s) == {}
  {
    NetSetSame(a, b, m, s);
    hide Copies, Env.NetSet;
    if x :| x in b.NetSet(m + s) && x in b.NetSet(g + s) {
      var n :| n in a.NetSet(m) && n in a.graph && x == n + s;
      assert n in a.NetSet(m) * a.NetSet(g);
      assert x in b.NetSet(m + s) * b.NetSet(g + s);
    }
    if n :| n in a.NetSet(m) && n in a.NetSet(g) {
      assert n + s in b.NetSet(m + s) * b.NetSet(g + s);
      assert n in a.NetSet(m) * a.NetSet(g);
    }
  }

  lemma SameHopToMachine(a: Env, b: Env, m: Name, g: Name, s: string)
    requires Copies(a, b, s) && SameGateway(a, b, s) && m in a.ifaces.vals && m + s in b.ifaces.vals
    requires a.request.gateway == Some(g) && a.Valid() && b.Valid() && b.request.gateway == Some(g + s)
    ensures HopToMachine(b, m + s, g + s) == CloneFound(HopToMachine(a, m, g), s)
  {
    hide Env.Valid, FirstHop, Copies, SameOn;
    OrderInGraph(a, m);
    OrderInGraph(b, m + s);
    SharedSame(a, b, m, g, s);
    SameHop(a, b, m, a.NetSet(g), b.NetSet(g + s), s);
  }

  lemma SameToGateway(a: Env, b: Env, m: Name, g: Name, s: string)
    requires Copies(a, b, s) && SameGateway(a, b, s) && m in a.ifaces.vals && m + s in b.ifaces.vals
    requires a.request.gateway == Some(g) && RouteToGateway(a, m, V4, g).Success?
    ensures b.request.gateway == Some(g + s)
    ensures RouteToGateway(b, m + s, V4, g + s) == RouteToGateway(a, m, V4, g)
  {
    hide Env.Valid, HopToMachine, Copies;
    CopiesBasics(a, b, s);
    SameHopToMachine(a, b, m, g, s);
    GatewayHop(a, m, g);
    var h := HopToMachine(a, m, g);
    if h.Some? {
      CopiedMachine(a, b, h.value.router, s);
      RowSame(a, b, m, s);
      SameIp(a, b, h.value.router, h.value.via, s);
    }
  }

  lemma NoRouteToStrangeGateway(a: Env, b: Env, m: Name, g: Name, s: string)
    requires Copies(a, b, s) && SameGateway(a, b, s) && m in a.ifaces.vals && m + s in b.ifaces.vals
    requires a.request.gateway == None && b.request.gateway == Some(g)
    ensures DefaultRoute(b, m + s, V4) == Success([])
  {
    hide Env.Valid, FirstHop, Repeats;
    OrderInGraph(a, m);
    OrderInGraph(b, m + s);
    CopiedMachine(a, b, m, s);
    NetSetSame(a, b, m, s);
    assert b.NetSet(m + s) * b.NetSet(g) == {};
    StrangerNotFound(a.graph, b.graph, a.choices.order[m], b.NetSet(g), s);
  }

  lemma SameDefault(a: Env, b: Env, m: Name, s: string)
    requires Copies(a, b, s) && SameGateway(a, b, s) && m in a.ifaces.vals && m + s in b.ifaces.vals
    requires DefaultRoute(a, m, V4).Success?
    ensures DefaultRoute(b, m + s, V4) == DefaultRoute(a, m, V4)
  {
    match a.request.gateway
    case None =>
      if b.request.gateway.Some? {
        NoRouteToStrangeGateway(a, b, m, b.request.gateway.value, s);
      }
    case Some(g) =>
      hide Env.Valid, Copies, ExternalRoute, RouteToGateway;
      if m == g {
        SameExternal(a, b, m, s);
      } else {
        assert m + s != g + s by {
          if m + s == g + s {
            SuffixInjective(m, g, s);
          }
        }
        SameToGateway(a, b, m, g, s);
      }
  }

  // ----- the whole configuration -----

  lemma SameHasAddress(a: Env, b: Env, m: Name, nets: seq<Name>, s: string)
    requires Copies(a, b, s) && m in a.ifaces.vals && m + s in b.ifaces.vals
    requires forall n :: n in nets ==> n in a.Row(m).vals
    requires HasAddress(a, m, V4, nets).Success?
    ensures HasAddress(b, m + s, V4, Clones(nets, s)) == HasAddress(a, m, V4, nets)
  {
    hide Copies;
    if nets != [] {
      assert nets[0] in nets;
      assert GetIp(a, m, nets[0], V4).Success? && GetIp(a, m, nets[0], V4).value.Some?;
      SameIp(a, b, m, nets[0], s);
      hide GetIp;
    }
  }

  lemma SameFamily(a: Env, b: Env, m: Name, s: string)
    requires Copies(a, b, s) && SameGateway(a, b, s) && m in a.ifaces.vals && m + s in b.ifaces.vals
    requires Interleaves(NetNames(a.topology), NetNames(b.topology), a.graph, s)
    requires FamilyRoutes(a, m, V4).Success?
    ensures FamilyRoutes(b, m + s, V4) == FamilyRoutes(a, m, V4)
  {
    OrderInGraph(a, m);
    OrderInGraph(b, m + s);
    CopiedMachine(a, b, m, s);
    hide Copies, SameGateway, Env.Valid, HasAddress, RoutesTo, DefaultRoute, Interleaves, NetNames;
    SameHasAddress(a, b, m, a.choices.order[m], s);
    if HasAddress(a, m, V4, a.choices.order[m]).value {
      SameRoutesTo(a, b, m, NetNames(a.topology), NetNames(b.topology), s);
      SameDefault(a, b, m, s);
    }
  }

  lemma OneFamily(e: Env, m: Name)
    requires e.Valid() && m in e.ifaces.vals && e.request.Families() == [V4]
    ensures Candidates(e, m, e.request.Families()) == FamilyRoutes(e, m, V4)
  {
    hide Env.Valid, FamilyRoutes;
    assert [V4][..0] == [];
    assert Candidates(e, m, []) == Success([]);
    var r := FamilyRoutes(e, m, V4);
    if r.Success? {
      assert [] + r.value == r.value;
    }
  }

  lemma OneFamilyAddresses(e: Env, m: Name, n: Name)
    requires m in e.ifaces.vals
    ensures AddressesOn(e, m, n, [V4])
         == (var ip := GetIp(e, m, n, V4);
             if ip.Failure? then Failure(ip.error)
             else Success(if ip.value.Some? then [ip.value.value] else []))
  {
    assert [V4][..0] == [];
    assert AddressesOn(e, m, n, []) == Success([]);
    var ip := GetIp(e, m, n, V4);
    hide GetIp;
    if ip.Success? && ip.value.Some? {
      assert [] + [ip.value.value] == [ip.value.value];
    }
  }

  lemma KeyInRow(row: Dict<Name, nat>, i: nat)
    requires row.Valid() && i < |row.keys|
    ensures row.keys[i] in row.vals
  {
    assert row.keys[i] in row.keys;
  }

  lemma SameAddresses(a: Env, b: Env, m: Name, n: Name, s: string)
    requires Copies(a, b, s) && m in a.ifaces.vals && m + s in b.ifaces.vals && n in a.Row(m).vals
    requires AddressesOn(a, m, n, [V4]).Success?
    ensures AddressesOn(b, m + s, n + s, [V4]) == AddressesOn(a, m, n, [V4])
  {
    hide Copies, AddressesOn;
    OneFamilyAddresses(a, m, n);
    OneFamilyAddresses(b, m + s, n + s);
    SameIp(a, b, m, n, s);
    hide GetIp;
  }

  lemma SameEntry(x: Dict<Name, nat>, y: Dict<Name, nat>, i: nat, s: string)
    requires SameRow(x, y, s) && x.Valid() && i < |x.keys|
    ensures |y.keys| == |x.keys| && y.keys[i] == x.keys[i] + s && x.keys[i] in x.vals
    ensures y.keys[i] in y.vals && y.vals[y.keys[i]] == x.vals[x.keys[i]]
  {
    KeyInRow(x, i);
  }

  lemma NothingFilled(env: Env, m: Name, routes: seq<Triple>, nc: MachineConfig)
    requires m in env.ifaces.vals && env.Row(m).Valid()
    requires forall n :: n in env.Row(m).vals ==> env.Row(m).vals[n] < |nc|
    ensures Filled(env, m, routes, nc, 0) == Success(nc)
  {
  }

  lemma FilledStep(env: Env, m: Name, routes: seq<Triple>, nc: MachineConfig, k: nat)
    requires m in env.ifaces.vals && env.Row(m).Valid() && 0 < k <= |env.Row(m).keys|
    requires forall n :: n in env.Row(m).vals ==> env.Row(m).vals[n] < |nc|
    requires env.request.Families() == [V4]
    ensures var n := env.Row(m).keys[k - 1];
      && n in env.Row(m).vals
      && Filled(env, m, routes, nc, k) ==
           match Filled(env, m, routes, nc, k - 1)
           case Failure(e) => Failure(e)
           case Success(before) =>
             match AddressesOn(env, m, n, [V4])
             case Failure(e) => Failure(e)
             case Success(addresses) =>
               Success(before[env.Row(m).vals[n] := Static(addresses, KeptOn(routes, |routes|, env.Row(m).vals[n]))])
  {
    KeyInRow(env.Row(m), k - 1);
    hide AddressesOn, KeptOn;
  }

  /** The entries before place `k` of two rows have the same numbers and, where `a` has any, addresses. */
  ghost predicate SameEntries(a: Env, b: Env, m: Name, m2: Name, k: nat)
    requires m in a.ifaces.vals && m2 in b.ifaces.vals && k <= |a.Row(m).keys| && k <= |b.Row(m2).keys|
  {
    forall i :: 0 <= i < k ==>
      && a.Row(m).keys[i] in a.Row(m).vals && b.Row(m2).keys[i] in b.Row(m2).vals
      && a.Row(m).vals[a.Row(m).keys[i]] == b.Row(m2).vals[b.Row(m2).keys[i]]
      && (AddressesOn(a, m, a.Row(m).keys[i], [V4]).Success? ==>
            AddressesOn(b, m2, b.Row(m2).keys[i], [V4]) == AddressesOn(a, m, a.Row(m).keys[i], [V4]))
  }

  lemma {:induction false} FilledAlike(a: Env, b: Env, m: Name, m2: Name, routes: seq<Triple>, nc: MachineConfig, k: nat)
    requires m in a.ifaces.vals && a.Row(m).Valid() && k <= |a.Row(m).keys|
    requires m2 in b.ifaces.vals && b.Row(m2).Valid() && k <= |b.Row(m2).keys|
    requires forall n :: n in a.Row(m).vals ==> a.Row(m).vals[n] < |nc|
    requires forall n :: n in b.Row(m2).vals ==> b.Row(m2).vals[n] < |nc|
    requires a.request.Families() == [V4] && b.request.Families() == [V4]
    requires SameEntries(a, b, m, m2, k) && Filled(a, m, routes, nc, k).Success?
    ensures Filled(b, m2, routes, nc, k) == Filled(a, m, routes, nc, k)
  {
    hide Filled, AddressesOn, KeptOn, Dict.Valid, Request.Families;
    if k == 0 {
      NothingFilled(a, m, routes, nc);
      NothingFilled(b, m2, routes, nc);
    } else {
      FilledStep(a, m, routes, nc, k);
      FilledStep(b, m2, routes, nc, k);
      FilledAlike(a, b, m, m2, routes, nc, k - 1);
    }
  }

  lemma SameFilled(a: Env, b: Env, m: Name, routes: seq<Triple>, nc: MachineConfig, k: nat, s: string)
    requires Copies(a, b, s) && m in a.ifaces.vals && m + s in b.ifaces.vals
    requires a.Row(m).Valid() && b.Row(m + s).Valid() && k <= |a.Row(m).keys| && k <= |b.Row(m + s).keys|
    requires forall n :: n in a.Row(m).vals ==> a.Row(m).vals[n] < |nc|
    requires forall n :: n in b.Row(m + s).vals ==> b.Row(m + s).vals[n] < |nc|
    requires Filled(a, m, routes, nc, k).Success?
    ensures Filled(b, m + s, routes, nc, k) == Filled(a, m, routes, nc, k)
  {
    hide Copies, Env.Valid, AddressesOn, Request.Families, Numbers, SameRow, Dict.Valid, Filled;
    CopiesBasics(a, b, s);
    RowSame(a, b, m, s);
    forall i | 0 <= i < k
      ensures a.Row(m).keys[i] in a.Row(m).vals && b.Row(m + s).keys[i] in b.Row(m + s).vals
      ensures a.Row(m).vals[a.Row(m).keys[i]] == b.Row(m + s).vals[b.Row(m + s).keys[i]]
      ensures AddressesOn(a, m, a.Row(m).keys[i], [V4]).Success? ==>
                AddressesOn(b, m + s, b.Row(m + s).keys[i], [V4]) == AddressesOn(a, m, a.Row(m).keys[i], [V4])
    {
      SameEntry(a.Row(m), b.Row(m + s), i, s);
      if AddressesOn(a, m, a.Row(m).keys[i], [V4]).Success? {
        SameAddresses(a, b, m, a.Row(m).keys[i], s);
      }
    }
    FilledAlike(a, b, m, m + s, routes, nc, k);
  }

  function RowSize(row: Dict<Name, nat>): nat
    requires row.Valid() && row.keys != []
  {
    MaxOf(Numbers(row)) + 1
  }

  lemma ConfigIs(e: Env, m: Name)
    requires e.Valid() && m in e.ifaces.vals && e.request.Families() == [V4]
    requires FamilyRoutes(e, m, V4).Success?
    ensures e.Row(m).Valid() && e.Row(m).keys != []
    ensures forall n :: n in e.Row(m).vals ==> e.Row(m).vals[n] < RowSize(e.Row(m))
    ensures ConfigOf(e, m) == Filled(e, m, FamilyRoutes(e, m, V4).value, EmptyConfig(RowSize(e.Row(m))), |e.Row(m).keys|)
  {
    hide FamilyRoutes, Candidates, Filled, Numbers, MaxOf;
    OneFamily(e, m);
    forall n | n in e.Row(m).vals
      ensures e.Row(m).vals[n] < RowSize(e.Row(m))
    {
      NumberBound(e.Row(m), n);
    }
  }

  lemma SameRowSize(a: Env, b: Env, m: Name, s: string)
    requires Copies(a, b, s) && m in a.ifaces.vals && m + s in b.ifaces.vals
    ensures a.Row(m).Valid() && b.Row(m + s).Valid() && |b.Row(m + s).keys| == |a.Row(m).keys| > 0
    ensures RowSize(b.Row(m + s)) == RowSize(a.Row(m))
  {
    RowSame(a, b, m, s);
    SameMax(Numbers(a.Row(m)), Numbers(b.Row(m + s)));
    hide Copies, SameRow, MaxOf, Numbers, Dict.Valid;
  }

  lemma SameMax(x: seq<nat>, y: seq<nat>)
    requires x == y != []
    ensures MaxOf(x) == MaxOf(y)
  {
  }

  lemma ConfigNeedsRoutes(e: Env, m: Name)
    requires e.Valid() && m in e.ifaces.vals && e.request.Families() == [V4]
    requires ConfigOf(e, m).Success?
    ensures FamilyRoutes(e, m, V4).Success?
  {
    hide FamilyRoutes, Candidates, Filled, Numbers, MaxOf;
    OneFamily(e, m);
  }

  /** A copied machine has the configuration of its original. */
  lemma SameConfig(a: Env, b: Env, m: Name, s: string)
    requires Copies(a, b, s) && SameGateway(a, b, s) && m in a.ifaces.vals && m + s in b.ifaces.vals
    requires Interleaves(NetNames(a.topology), NetNames(b.topology), a.graph, s)
    requires ConfigOf(a, m).Success?
    ensures ConfigOf(b, m + s) == ConfigOf(a, m)
  {
    hide Copies, SameGateway, Env.Valid, Interleaves, NetNames, FamilyRoutes, ConfigOf, Filled, RowSize, EmptyConfig, Dict.Valid,
      Request.Families;
    CopiesBasics(a, b, s);
    ConfigNeedsRoutes(a, m);
    SameFamily(a, b, m, s);
    ConfigIs(a, m);
    ConfigIs(b, m + s);
    SameRowSize(a, b, m, s);
    SameFilled(a, b, m, FamilyRoutes(a, m, V4).value, EmptyConfig(RowSize(a.Row(m))), |a.Row(m).keys|, s);
  }
}
