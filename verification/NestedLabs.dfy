/**
 A lab with nested networks, whose routes pruning changes: what the lookup theorem excludes by asking for
 disjoint networks.
 */
module NestedLabs {
  import opened Wrappers
  import opened Dicts
  import opened Topologies
  import opened RoutingGraph
  import opened FirstHops
  import opened ShortestPaths
  import opened IpAddresses
  import opened TopologyConfig
  import opened RoutePruning
  import opened Forwarding
  import opened MachineTables

  /** Machine `m` reaches the networks `i` and `o` over `p` through `r`, and `n` over `q` through `s`. */
  datatype Names = Names(m: Name, r: Name, s: Name, p: Name, q: Name, i: Name, n: Name, o: Name) {
    predicate Different() {
      && m != r && m != s && r != s
      && p != q && p != i && p != n && p != o && q != i && q != n && q != o && i != n && i != o && n != o
    }

    function Lab(): Topology {
      [Network(p, [Attachment(m, None), Attachment(r, None)]),
       Network(q, [Attachment(m, None), Attachment(s, None)]),
       Network(i, [Attachment(r, None)]), Network(n, [Attachment(s, None)]), Network(o, [Attachment(r, None)])]
    }

    predicate On(x: Name, y: Name) {
      || (x == m && (y == p || y == q))
      || (x == r && (y == p || y == i || y == o))
      || (x == s && (y == q || y == n))
    }
  }

  lemma MembersAre(l: Names, x: Name)
    ensures var t := l.Lab();
      && (HasMember(t[0], x) <==> x == l.m || x == l.r) && (HasMember(t[1], x) <==> x == l.m || x == l.s)
      && (HasMember(t[2], x) <==> x == l.r) && (HasMember(t[3], x) <==> x == l.s) && (HasMember(t[4], x) <==> x == l.r)
  {
    var t := l.Lab();
    assert t[0].members[0].machine == l.m && t[0].members[1].machine == l.r;
    assert t[1].members[0].machine == l.m && t[1].members[1].machine == l.s;
    assert t[2].members[0].machine == l.r && t[3].members[0].machine == l.s && t[4].members[0].machine == l.r;
  }

  lemma NetsAre(l: Names, x: Name, y: Name)
    requires l.Different()
    ensures y in NetsOf(l.Lab(), x) <==> l.On(x, y)
  {
    NetsOfMembers(l.Lab(), x);
    MembersAre(l, x);
    var t := l.Lab();
    hide NetsOf, HasMember;
    if l.On(x, y) {
      assert exists k :: 0 <= k < 5 && t[k].name == y && HasMember(t[k], x) by {
        assert t[0].name == l.p && t[1].name == l.q && t[2].name == l.i && t[3].name == l.n && t[4].name == l.o;
      }
    }
  }

  /** When one router alone leads from the networks of a machine to a network, over one of them alone, the
      search finds it. */
  lemma OnlyWay(env: Env, m: Name, via: Name, router: Name, target: Name)
    requires env.Valid() && m in env.ifaces.vals && target !in env.NetSet(m) && via in env.NetSet(m)
    requires router in env.ifaces.vals && via in env.Row(router).keys && target in env.Row(router).keys
    requires forall r, v :: r in env.ifaces.vals && v in env.NetSet(m) && v in env.Row(r).keys && target in env.Row(r).keys ==>
               r == router && v == via
    ensures HopToNet(env, m, target) == Some(Hop(via, router))
  {
    var g, from := env.graph, env.NetSet(m);
    GraphClosed(env);
    RowOnTopology(env, m, via);
    RowOnTopology(env, m, target);
    GraphEdges(env.topology, env.ifaces, via, Edge(target, router));
    WithinOne(g, from);
    StepInNext(g, from, via, Edge(target, router));
    HopIsCloser(env, m, {target}, 0);
    var hop := FirstHop(g, env.choices.order[m], {target}).value;
    hide FirstHop, Env.Valid;
    assert target in Within(g, env.NetSet(hop.router), 0);
    WithinOne(g, env.NetSet(hop.router));
    RowOnTopology(env, hop.router, hop.via);
  }

  /** The lab with its data */
  ghost predicate Nested(l: Names, data: Data, choices: Choices, len: nat, h: Interface, other: Interface) {
    && l.Different() && ChoicesFit(l.Lab(), Ipv4Request, choices)
    && 2 <= len <= 32 && l.i in data.nets && l.n in data.nets && l.o in data.nets
    && data.nets[l.i] == Leading(V4, len) && data.nets[l.n] == Leading(V4, len - 1) && data.nets[l.o] == Leading(V4, len - 2)
    && AttrName(2, l.m, l.p) in data.ips && AttrName(2, l.m, l.q) in data.ips
    && AttrName(3, l.r, l.p) in data.ips && data.ips[AttrName(3, l.r, l.p)] == h
    && AttrName(2, l.s, l.q) in data.ips && data.ips[AttrName(2, l.s, l.q)] == other
  }

  const Ipv4Request: Request := Request(true, false, None, None, None)

  lemma LabOn(l: Names, data: Data, choices: Choices, x: Name, y: Name)
    requires l.Different() && ChoicesFit(l.Lab(), Ipv4Request, choices)
    ensures var env := EnvOf(l.Lab(), data, Ipv4Request, choices);
      && env.Valid() && env.topology == l.Lab()
      && (x in env.ifaces.vals <==> x == l.m || x == l.r || x == l.s)
      && (x in env.ifaces.vals ==>
            env.Row(x).Valid() && (y in env.Row(x).keys <==> l.On(x, y)) && (y in env.NetSet(x) <==> l.On(x, y)))
  {
    UniqueLab(l);
    EnvIsValid(l.Lab(), data, Ipv4Request, choices);
    RowsOf(l.Lab(), x);
    forall z
      ensures z in NetsOf(l.Lab(), x) <==> l.On(x, z)
    {
      NetsAre(l, x, z);
    }
    assert NetsOf(l.Lab(), x) != [] ==> NetsOf(l.Lab(), x)[0] in NetsOf(l.Lab(), x);
    assert l.On(l.m, l.p) && l.On(l.r, l.p) && l.On(l.s, l.q);
    hide ChoicesFit, Env.Valid, NetsOf, Assign, GraphOf, Names.Lab;
  }

  lemma UniqueLab(l: Names)
    requires l.Different()
    ensures UniqueNames(l.Lab())
  {
  }

  /** The hop of `m` toward one of the networks that are not its own */
  lemma LabHop(l: Names, data: Data, choices: Choices, via: Name, router: Name, target: Name)
    requires l.Different() && ChoicesFit(l.Lab(), Ipv4Request, choices)
    requires || (target == l.n && via == l.q && router == l.s)
             || ((target == l.i || target == l.o) && via == l.p && router == l.r)
    ensures EnvOf(l.Lab(), data, Ipv4Request, choices).Valid() && l.m in EnvOf(l.Lab(), data, Ipv4Request, choices).ifaces.vals
    ensures HopToNet(EnvOf(l.Lab(), data, Ipv4Request, choices), l.m, target) == Some(Hop(via, router))
  {
    var env := EnvOf(l.Lab(), data, Ipv4Request, choices);
    hide EnvOf, Env.Valid, HopToNet, Env.NetSet, ChoicesFit, Names.Lab;
    LabOn(l, data, choices, l.m, via);
    LabOn(l, data, choices, l.m, target);
    LabOn(l, data, choices, router, via);
    LabOn(l, data, choices, router, target);
    forall x, y | x in env.ifaces.vals && y in env.NetSet(l.m) && y in env.Row(x).keys && target in env.Row(x).keys
      ensures x == router && y == via
    {
      LabOn(l, data, choices, l.m, y);
      LabOn(l, data, choices, x, y);
      LabOn(l, data, choices, x, target);
    }
    OnlyWay(env, l.m, via, router, target);
  }

  // ----- the candidates of `m` -----

  lemma RoutesNext(env: Env, x: Name, f: Family, t: seq<Name>, k: nat, before: seq<Triple>, last: seq<Triple>, all: seq<Triple>)
    requires env.Valid() && x in env.ifaces.vals && k < |t|
    requires RoutesTo(env, x, f, t[..k]) == Success(before) && RouteTo(env, x, f, t[k]) == Success(last)
    requires before + last == all
    ensures RoutesTo(env, x, f, t[..k + 1]) == Success(all)
  {
    hide RouteTo, Env.Valid;
    assert t[..k + 1][..k] == t[..k];
  }

  lemma TwoOwnRoutes(env: Env, x: Name, f: Family, t: seq<Name>)
    requires env.Valid() && x in env.ifaces.vals && |t| >= 2
    requires RouteTo(env, x, f, t[0]) == Success([]) && RouteTo(env, x, f, t[1]) == Success([])
    ensures RoutesTo(env, x, f, t[..2]) == Success([])
  {
    assert t[..0] == [] && RoutesTo(env, x, f, t[..0]) == Success([]);
    hide RouteTo, RoutesTo, Env.Valid;
    RoutesNext(env, x, f, t, 0, [], [], []);
    RoutesNext(env, x, f, t, 1, [], [], []);
  }

  lemma ThreeRoutes(env: Env, x: Name, f: Family, t: seq<Name>, a: Triple, b: Triple, c: Triple)
    requires env.Valid() && x in env.ifaces.vals && |t| == 5 && RoutesTo(env, x, f, t[..2]) == Success([])
    requires RouteTo(env, x, f, t[2]) == Success([a]) && RouteTo(env, x, f, t[3]) == Success([b])
    requires RouteTo(env, x, f, t[4]) == Success([c])
    ensures RoutesTo(env, x, f, t) == Success([a, b, c])
  {
    assert t[..5] == t;
    hide RouteTo, RoutesTo, Env.Valid;
    RoutesNext(env, x, f, t, 2, [], [a], [a]);
    RoutesNext(env, x, f, t, 3, [a], [b], [a, b]);
    RoutesNext(env, x, f, t, 4, [a, b], [c], [a, b, c]);
  }

  /** The route toward a network that is not the machine's own, when all is found */
  lemma RouteVia(env: Env, x: Name, t: Name, h: Hop)
    requires env.Valid() && x in env.ifaces.vals && t !in env.NetSet(x) && HopToNet(env, x, t) == Some(h)
    requires h.via in env.Row(x).vals && h.router in env.ifaces.vals && Attr(env, h.router, h.via) in env.data.ips
    requires t in env.data.nets
    ensures RouteTo(env, x, V4, t) == Success([Triple(env.data.nets[t], env.Row(x).vals[h.via],
                                                      env.data.ips[Attr(env, h.router, h.via)].ip)])
  {
    RowOnTopology(env, x, t);
    hide Env.Valid, HopToNet;
  }

  /** A machine on two networks has the longer attribute names. */
  lemma LongName(l: Names, data: Data, choices: Choices, x: Name, y: Name, z: Name)
    requires l.Different() && ChoicesFit(l.Lab(), Ipv4Request, choices)
    requires l.On(x, y) && l.On(x, z) && y != z
    ensures var env := EnvOf(l.Lab(), data, Ipv4Request, choices);
            x in env.ifaces.vals && y in env.Row(x).vals && Attr(env, x, y) == AttrName(2, x, y)
  {
    LabOn(l, data, choices, x, y);
    LabOn(l, data, choices, x, z);
    var row := EnvOf(l.Lab(), data, Ipv4Request, choices).Row(x);
    assert y in row.keys && z in row.keys && y in row.vals;
    TwoMembers(row.keys, y, z);
    hide EnvOf, Env.Valid, ChoicesFit, Names.Lab, Names.On;
  }

  lemma TwoMembers(s: seq<Name>, a: Name, b: Name)
    requires a in s && b in s && a != b
    ensures |s| >= 2
  {
    var i :| 0 <= i < |s| && s[i] == a;
    var j :| 0 <= j < |s| && s[j] == b;
  }

  lemma LabRoute(l: Names, data: Data, choices: Choices, len: nat, h: Interface, other: Interface, via: Name, router: Name, target: Name)
    requires Nested(l, data, choices, len, h, other)
    requires || (target == l.n && via == l.q && router == l.s)
             || ((target == l.i || target == l.o) && via == l.p && router == l.r)
    ensures var env := EnvOf(l.Lab(), data, Ipv4Request, choices);
      && env.Valid() && l.m in env.ifaces.vals && via in env.Row(l.m).vals && target in data.nets
      && RouteTo(env, l.m, V4, target)
         == Success([Triple(data.nets[target], env.Row(l.m).vals[via], if target == l.n then other.ip else h.ip)])
  {
    var env := EnvOf(l.Lab(), data, Ipv4Request, choices);
    LabHop(l, data, choices, via, router, target);
    LongName(l, data, choices, router, via, target);
    LabOn(l, data, choices, l.m, target);
    LabOn(l, data, choices, l.m, via);
    assert env.data == data;
    hide EnvOf, Env.Valid, ChoicesFit, Names.Lab, RouteTo, HopToNet, Leading;
    RouteVia(env, l.m, target, Hop(via, router));
  }

  lemma OwnRoute(l: Names, data: Data, choices: Choices, target: Name)
    requires l.Different() && ChoicesFit(l.Lab(), Ipv4Request, choices) && l.On(l.m, target)
    ensures var env := EnvOf(l.Lab(), data, Ipv4Request, choices);
            env.Valid() && l.m in env.ifaces.vals && RouteTo(env, l.m, V4, target) == Success([])
  {
    LabOn(l, data, choices, l.m, target);
    var env := EnvOf(l.Lab(), data, Ipv4Request, choices);
    hide EnvOf, ChoicesFit, Names.Lab;
    RowOnTopology(env, l.m, target);
    hide Env.Valid, HopToNet;
  }

  lemma LabNames(l: Names)
    ensures NetNames(l.Lab()) == [l.p, l.q, l.i, l.n, l.o]
  {
  }

  lemma LabRoutes(l: Names, data: Data, choices: Choices, len: nat, h: Interface, other: Interface)
    returns (a: Triple, b: Triple, c: Triple)
    requires Nested(l, data, choices, len, h, other)
    ensures var env := EnvOf(l.Lab(), data, Ipv4Request, choices);
      && env.Valid() && l.m in env.ifaces.vals && l.p in env.Row(l.m).vals && l.q in env.Row(l.m).vals
      && a == Triple(data.nets[l.i], env.Row(l.m).vals[l.p], h.ip)
      && b == Triple(data.nets[l.n], env.Row(l.m).vals[l.q], other.ip)
      && c == Triple(data.nets[l.o], env.Row(l.m).vals[l.p], h.ip)
      && RoutesTo(env, l.m, V4, NetNames(l.Lab())) == Success([a, b, c])
  {
    var env := EnvOf(l.Lab(), data, Ipv4Request, choices);
    OwnRoute(l, data, choices, l.p);
    OwnRoute(l, data, choices, l.q);
    LabRoute(l, data, choices, len, h, other, l.p, l.r, l.i);
    LabRoute(l, data, choices, len, h, other, l.q, l.s, l.n);
    LabRoute(l, data, choices, len, h, other, l.p, l.r, l.o);
    LabNames(l);
    assert l.i != l.n && l.o != l.n;
    hide Nested, EnvOf, Env.Valid, ChoicesFit, Names.Lab, RouteTo, RoutesTo, Leading, Names.On, Names.Different, NetNames;
    a := Triple(data.nets[l.i], env.Row(l.m).vals[l.p], h.ip);
    b := Triple(data.nets[l.n], env.Row(l.m).vals[l.q], other.ip);
    c := Triple(data.nets[l.o], env.Row(l.m).vals[l.p], h.ip);
    TwoOwnRoutes(env, l.m, V4, [l.p, l.q, l.i, l.n, l.o]);
    ThreeRoutes(env, l.m, V4, [l.p, l.q, l.i, l.n, l.o], a, b, c);
  }

  lemma LabHasAddress(l: Names, data: Data, choices: Choices, len: nat, h: Interface, other: Interface)
    requires Nested(l, data, choices, len, h, other)
    ensures var env := EnvOf(l.Lab(), data, Ipv4Request, choices);
      && env.Valid() && l.m in env.ifaces.vals
      && HasAddress(env, l.m, V4, env.choices.order[l.m]) == Success(true)
  {
    var env := EnvOf(l.Lab(), data, Ipv4Request, choices);
    LabOn(l, data, choices, l.m, l.p);
    RowOnTopology(env, l.m, l.p);
    var first := env.choices.order[l.m][0];
    assert first in env.choices.order[l.m];
    RowOnTopology(env, l.m, first);
    LabOn(l, data, choices, l.m, first);
    LongName(l, data, choices, l.m, first, if first == l.p then l.q else l.p);
    hide Env.Valid, ChoicesFit, Names.Lab, Leading, Assign, GraphOf;
  }

  /** The candidates of `m` are nested routes, and pruning sends an address elsewhere. */
  lemma NestedLabLosesLookup(l: Names, data: Data, choices: Choices, len: nat, h: Interface, other: Interface)
    returns (routes: seq<Triple>)
    requires Nested(l, data, choices, len, h, other) && h.ip != other.ip
    ensures var env := EnvOf(l.Lab(), data, Ipv4Request, choices);
      && env.Valid() && l.m in env.ifaces.vals && l.p in env.Row(l.m).vals && l.q in env.Row(l.m).vals
      && Candidates(env, l.m, env.request.Families()) == Success(routes)
      && routes == NestedRoutes(V4, len, env.Row(l.m).vals[l.p], h.ip, env.Row(l.m).vals[l.q], other.ip)
    ensures !LookupKept(routes)
  {
    var env := EnvOf(l.Lab(), data, Ipv4Request, choices);
    var a, b, c := LabRoutes(l, data, choices, len, h, other);
    LabHasAddress(l, data, choices, len, h, other);
    NestedAre(l, data, choices, len, h, other, a, b, c);
    EnvParts(l, data, choices);
    hide EnvOf, Env.Valid, ChoicesFit, Names.Lab, Names.Different, RoutesTo, HasAddress, NetNames, NestedRoutes, LookupKept, Nested;
    routes := NestedRoutes(V4, len, env.Row(l.m).vals[l.p], h.ip, env.Row(l.m).vals[l.q], other.ip);
    NestedRoutesLoseLookup(V4, len, env.Row(l.m).vals[l.p], h.ip, env.Row(l.m).vals[l.q], other.ip);
    AllCandidates(env, l.m, routes);
  }

  /** Without a gateway, the candidates of an IPv4 lab are the specific routes. */
  lemma AllCandidates(env: Env, x: Name, routes: seq<Triple>)
    requires env.Valid() && x in env.ifaces.vals && env.request.gateway == None
    requires HasAddress(env, x, V4, env.choices.order[x]) == Success(true)
    requires RoutesTo(env, x, V4, NetNames(env.topology)) == Success(routes)
    ensures Candidates(env, x, [V4]) == Success(routes)
  {
    hide Env.Valid, HasAddress, RoutesTo;
    assert FamilyRoutes(env, x, V4) == Success(routes + []);
    assert [V4][..0] == [] && [] + (routes + []) == routes;
  }

  lemma EnvParts(l: Names, data: Data, choices: Choices)
    ensures var env := EnvOf(l.Lab(), data, Ipv4Request, choices);
            env.topology == l.Lab() && env.request == Ipv4Request && env.request.Families() == [V4]
  {
  }

  lemma NestedAre(l: Names, data: Data, choices: Choices, len: nat, h: Interface, other: Interface, a: Triple, b: Triple, c: Triple)
    requires Nested(l, data, choices, len, h, other) && a.eth == c.eth && a.hop == c.hop
    requires a.net == data.nets[l.i] && b.net == data.nets[l.n] && c.net == data.nets[l.o]
    ensures [a, b, c] == NestedRoutes(V4, len, a.eth, a.hop, b.eth, b.hop)
  {
    hide Leading, ChoicesFit, Names.Lab;
  }

  /** There are such labs. */
  lemma NestedLabExists(l: Names, len: nat, h: Interface, other: Interface) returns (data: Data, choices: Choices)
    requires l.Different() && AttrName(3, l.r, l.p) != AttrName(2, l.s, l.q) && 2 <= len <= 32
    ensures Nested(l, data, choices, len, h, other)
  {
    var nets := map[l.i := Leading(V4, len), l.n := Leading(V4, len - 1), l.o := Leading(V4, len - 2)];
    var own := map[AttrName(2, l.m, l.p) := h, AttrName(2, l.m, l.q) := h];
    hide Leading, ChoicesFit, AttrName;
    data := Data(nets, own[AttrName(3, l.r, l.p) := h][AttrName(2, l.s, l.q) := other], map[], map[]);
    UniqueLab(l);
    choices := ChoicesExist(l.Lab(), Ipv4Request);
  }

  const Letters: Names := Names("m", "r", "s", "p", "q", "i", "n", "o")

  lemma LettersDiffer()
    ensures Letters.Different() && AttrName(3, Letters.r, Letters.p) != AttrName(2, Letters.s, Letters.q)
  {
    assert AttrName(3, "r", "p")[0] == 'r' && AttrName(2, "s", "q")[0] == 's';
  }

  /** A lab with names of one letter, whatever addresses `r` and `s` have next to `m` */
  lemma LetterLabLosesLookup(len: nat, h: Interface, other: Interface)
    returns (data: Data, choices: Choices, routes: seq<Triple>)
    requires 2 <= len <= 32 && h.ip != other.ip
    ensures var env := EnvOf(Letters.Lab(), data, Ipv4Request, choices);
      && env.Valid() && "m" in env.ifaces.vals
      && Candidates(env, "m", env.request.Families()) == Success(routes)
    ensures !LookupKept(routes)
  {
    LettersDiffer();
    data, choices := NestedLabExists(Letters, len, h, other);
    assert Letters.m == "m";
    hide Nested, Candidates, Env.Valid, EnvOf, LookupKept, Names.Lab, Letters, Names.Different;
    routes := NestedLabLosesLookup(Letters, data, choices, len, h, other);
  }
}
