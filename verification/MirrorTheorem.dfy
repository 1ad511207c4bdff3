/**
 The theorem of the hidden mirror, from the copied addressing to the configurations.
 */
module MirrorTheorem {
  import opened Wrappers
  import opened Dicts
  import opened Topologies
  import opened RoutingGraph
  import opened FirstHops
  import opened IpAddresses
  import opened NetConfigs
  import opened TopologyConfig
  import opened Delivery
  import opened MirrorTopology
  import opened MirrorFacts
  import opened MirrorSearch
  import opened MirrorRouting
  import opened MirrorAddressing
  import opened Mirrors

  /** The pairs of attributes that `copy_addressing` copies for the machines. */
  function AddressPairs(t: Topology, s: string): seq<(Name, Name)> {
    IpPairs(MachinesByNet(t), |MachinesByNet(t).keys|, s)
  }

  /** The data of the expanded lab is the data of the lab with the addressing copied. */
  ghost predicate CopiedData(t: Topology, s: string, data: Data, data2: Data) {
    && CopyEntries(data.nets, NetPairs(t, s)) == Success(data2.nets)
    && CopyEntries(data.ips, AddressPairs(t, s)) == Success(data2.ips)
  }

  /** Python takes the networks of a machine and of its clone in corresponding orders. */
  ghost predicate SameChoices(t: Topology, s: string, request: Request, c: Choices, c2: Choices) {
    && (forall m :: IsMachine(t, m) ==>
          && m in c.order && m in c2.order && m + s in c2.order
          && c2.order[m] == c.order[m] && c2.order[m + s] == Clones(c.order[m], s))
    && (forall m, g :: request.gateway == Some(g) && SetOf(NetsOf(t, m)) * SetOf(NetsOf(t, g)) != {} ==>
          m in c.shared && m in c2.shared && c2.shared[m] == c.shared[m])
  }

  /** A lab and its expansion, IPv4 only, with unambiguous names, and a gateway that is no clone. */
  ghost predicate Mirroring(t: Topology, s: string, data: Data, data2: Data, request: Request, c: Choices, c2: Choices) {
    && UniqueNames(t) && SingleMembership(t) && Fresh(t, s)
    && CleanPairs(AddressPairs(t, s)) && CopiedData(t, s, data, data2)
    && request.ipv4 && !request.ipv6
    && (forall m :: IsMachine(t, m) ==> request.gateway != Some(m + s))
    && ChoicesFit(t, request, c) && ChoicesFit(Expanded(t, s), request, c2) && SameChoices(t, s, request, c, c2)
  }

  function NoGateway(request: Request): Request {
    request.(gateway := None)
  }

  // ----- the copied data -----

  lemma {:induction false} PairIsCopied(d: Dict<Name, seq<Name>>, k: nat, j: nat, i: nat, s: string)
    requires j < k <= |d.keys| && i < |d.GetOr(d.keys[j], [])|
    ensures AttrPair(d.keys[j], d.GetOr(d.keys[j], []), i, s) in IpPairs(d, k, s)
  {
    if j < k - 1 {
      PairIsCopied(d, k - 1, j, i, s);
    } else {
      assert RowPairs(d.keys[j], d.GetOr(d.keys[j], []), s)[i] == AttrPair(d.keys[j], d.GetOr(d.keys[j], []), i, s);
    }
  }

  lemma AttrIsCopied(t: Topology, s: string, m: Name, n: Name)
    requires SingleMembership(t) && n in NetsOf(t, m)
    ensures (AttrName(|NetsOf(t, m)|, m, n), AttrName(|NetsOf(t, m)|, m + s, n + s)) in AddressPairs(t, s)
  {
    MachinesByNetIs(t, m);
    MachinesAre(t, m);
    assert m in Machines(t);
    var d := MachinesByNet(t);
    hide NetsOf, MachinesByNet, Machines, IpPairs;
    var j :| 0 <= j < |d.keys| && d.keys[j] == m;
    var i :| 0 <= i < |NetsOf(t, m)| && NetsOf(t, m)[i] == n;
    PairIsCopied(d, |d.keys|, j, i, s);
  }

  lemma NetsAreClean(t: Topology, s: string)
    requires Fresh(t, s)
    ensures CleanPairs(NetPairs(t, s))
  {
    hide IsMachine;
    forall p, q | p in NetPairs(t, s) && q in NetPairs(t, s)
      ensures p.1 != q.0 && (p.1 == q.1 ==> p.0 == q.0)
    {
      var i :| 0 <= i < |t| && NetPairs(t, s)[i] == p;
      var j :| 0 <= j < |t| && NetPairs(t, s)[j] == q;
      assert NetNames(t)[i] in NetNames(t) && NetNames(t)[j] in NetNames(t);
      if p.1 == q.1 {
        SuffixInjective(p.0, q.0, s);
      }
    }
  }

  /** The networks of the lab are unchanged and copied. */
  lemma NetCopied(t: Topology, s: string, data: Data, data2: Data, n: Name)
    requires Fresh(t, s) && CopiedData(t, s, data, data2) && n in NetNames(t) && n in data.nets
    ensures n in data2.nets && data2.nets[n] == data.nets[n]
    ensures n + s in data2.nets && data2.nets[n + s] == data.nets[n]
  {
    hide CopyEntries, AddressPairs, IsMachine;
    NetsAreClean(t, s);
    CopyIs(data.nets, NetPairs(t, s));
    var k :| 0 <= k < |t| && NetNames(t)[k] == n;
    assert NetPairs(t, s)[k] == (n, n + s);
    assert (n, n + s) in NetPairs(t, s);
  }

  /** The addresses of the lab are unchanged and copied. */
  lemma AddressCopied(t: Topology, s: string, data: Data, data2: Data, m: Name, n: Name)
    requires SingleMembership(t) && CleanPairs(AddressPairs(t, s)) && CopiedData(t, s, data, data2) && n in NetsOf(t, m)
    ensures var count := |NetsOf(t, m)|;
      var attr, attr2 := AttrName(count, m, n), AttrName(count, m + s, n + s);
      && attr in data.ips && attr in data2.ips && data2.ips[attr] == data.ips[attr]
      && attr2 in data2.ips && data2.ips[attr2] == data.ips[attr]
  {
    AttrIsCopied(t, s, m, n);
    hide CopyEntries, AddressPairs, NetsOf;
    CopyIs(data.ips, AddressPairs(t, s));
  }

  // ----- the networks of the lab among those of the expansion -----

  lemma {:induction false} AllMirrored(a: seq<Name>, g: Graph, s: string)
    requires forall n :: n in a ==> n in g
    ensures Interleaves(a, Clones(a, s), g, s)
  {
    if a != [] {
      var front := a[..|a| - 1];
      assert Clones(a, s)[..|a| - 1] == Clones(front, s);
      AllMirrored(front, g, s);
      assert a[|a| - 1] in a;
    }
  }

  ghost predicate Stranger(g: Graph, s: string, x: Name) {
    forall n :: n in g ==> n + s != x
  }

  lemma {:induction false} StrangersAfter(a: seq<Name>, b: seq<Name>, c: seq<Name>, g: Graph, s: string)
    requires Interleaves(a, b, g, s)
    requires forall x :: x in c ==> Stranger(g, s, x)
    ensures Interleaves(a, b + c, g, s)
  {
    if c == [] {
      assert b + c == b;
    } else {
      assert (b + c)[..|b + c| - 1] == b + c[..|c| - 1];
      assert c[|c| - 1] in c;
      StrangersAfter(a, b, c[..|c| - 1], g, s);
    }
  }

  lemma {:induction false} StrangersBefore(a: seq<Name>, b: seq<Name>, c: seq<Name>, g: Graph, s: string)
    requires Interleaves(a, b, g, s)
    requires forall x :: x in c ==> Stranger(g, s, x)
    ensures Interleaves(a, c + b, g, s)
    decreases |b|
  {
    if b == [] {
      assert c + b == [] + c;
      StrangersAfter([], [], c, g, s);
    } else {
      assert (c + b)[..|c + b| - 1] == c + b[..|b| - 1];
      if exists n :: n in g && n + s == b[|b| - 1] {
        StrangersBefore(a[..|a| - 1], b[..|b| - 1], c, g, s);
      } else {
        StrangersBefore(a, b[..|b| - 1], c, g, s);
      }
    }
  }

  lemma EmptySuffix(names: seq<Name>)
    ensures Clones(names, "") == names
  {
    forall i | 0 <= i < |names|
      ensures Clones(names, "")[i] == names[i]
    {
      assert names[i] + "" == names[i];
    }
  }

  // ----- the expansion contains the lab, and its clone -----

  /** The facts about machine `m`, its numbers, its order and its addresses. */
  lemma MachineFacts(t: Topology, s: string, data: Data, data2: Data, request: Request, c: Choices, c2: Choices, m: Name)
    requires Mirroring(t, s, data, data2, request, c, c2) && m in Assign(t).ifaces.vals
    ensures IsMachine(t, m) && m in c.order && m in c2.order && m + s in c2.order
    ensures c2.order[m] == c.order[m] && c2.order[m + s] == Clones(c.order[m], s)
    ensures var i, i2 := Assign(t).ifaces, Assign(Expanded(t, s)).ifaces;
      && m in i2.vals && m + s in i2.vals
      && i2.vals[m].keys == i.vals[m].keys && i2.vals[m + s].keys == Clones(i.vals[m].keys, s)
      && (forall n :: n in i.vals[m].vals ==>
            && n in i2.vals[m].vals && i2.vals[m].vals[n] == i.vals[m].vals[n]
            && n + s in i2.vals[m + s].vals && i2.vals[m + s].vals[n + s] == i.vals[m].vals[n]
            && var count := |i.vals[m].keys|;
               var attr, attr2 := AttrName(count, m, n), AttrName(count, m + s, n + s);
               && attr in data.ips && attr in data2.ips && data2.ips[attr] == data.ips[attr]
               && attr2 in data2.ips && data2.ips[attr2] == data.ips[attr])
  {
    AssignRow(t, m);
    RowsExpanded(t, s, m);
    var row := Assign(t).ifaces.vals[m];
    hide Assign, Expanded, Fresh, ChoicesFit, NetsOf, CleanPairs, AddressPairs, CopiedData;
    forall n | n in row.vals
      ensures var attr, attr2 := AttrName(|row.keys|, m, n), AttrName(|row.keys|, m + s, n + s);
              && attr in data.ips && attr in data2.ips && data2.ips[attr] == data.ips[attr]
              && attr2 in data2.ips && data2.ips[attr2] == data.ips[attr]
    {
      assert n in row.keys;
      AddressCopied(t, s, data, data2, m, n);
    }
  }

  lemma LabMachine(t: Topology, s: string, data: Data, data2: Data, request: Request, c: Choices, c2: Choices, m: Name)
    requires Mirroring(t, s, data, data2, request, c, c2) && m in Assign(t).ifaces.vals
    requires Assign(t).ifaces.Valid() && Assign(Expanded(t, s)).ifaces.Valid()
    ensures SameMachine(EnvOf(t, data, request, c), EnvOf(Expanded(t, s), data2, request, c2), m, "")
  {
    hide Mirroring, Assign, Expanded, GraphOf, AttrName, Clones;
    MachineFacts(t, s, data, data2, request, c, c2, m);
    var row := Assign(t).ifaces.vals[m];
    EmptySuffix(row.keys);
    EmptySuffix(c.order[m]);
    assert m + "" == m;
    forall n | n in row.vals
      ensures n + "" == n
    {
    }
  }

  lemma CloneMachine(t: Topology, s: string, data: Data, data2: Data, request: Request, c: Choices, c2: Choices, m: Name)
    requires Mirroring(t, s, data, data2, request, c, c2) && m in Assign(t).ifaces.vals
    requires Assign(t).ifaces.Valid() && Assign(Expanded(t, s)).ifaces.Valid()
    ensures SameMachine(EnvOf(t, data, NoGateway(request), c), EnvOf(Expanded(t, s), data2, request, c2), m, s)
  {
    hide Mirroring, Assign, Expanded, GraphOf, AttrName;
    MachineFacts(t, s, data, data2, request, c, c2, m);
  }

  lemma EnvReady(t: Topology, data: Data, request: Request, c: Choices)
    requires UniqueNames(t) && ChoicesFit(t, request, c)
    ensures EnvOf(t, data, request, c).Valid() && Closed(EnvOf(t, data, request, c).graph)
    ensures Assign(t).ifaces.Valid()
  {
    hide Env.Valid, Assign, GraphOf, ChoicesFit;
    AssignKeys(t);
    EnvIsValid(t, data, request, c);
    GraphClosed(EnvOf(t, data, request, c));
  }

  lemma WithoutGateway(t: Topology, request: Request, c: Choices)
    requires ChoicesFit(t, request, c)
    ensures ChoicesFit(t, NoGateway(request), c)
  {
  }

  /** The three labs compared are valid. */
  lemma AllReady(t: Topology, s: string, data: Data, data2: Data, request: Request, c: Choices, c2: Choices)
    requires Mirroring(t, s, data, data2, request, c, c2)
    ensures Assign(t).ifaces.Valid() && Assign(Expanded(t, s)).ifaces.Valid()
    ensures EnvOf(t, data, request, c).Valid() && Closed(EnvOf(t, data, request, c).graph)
    ensures EnvOf(t, data, NoGateway(request), c).Valid() && Closed(EnvOf(t, data, NoGateway(request), c).graph)
    ensures EnvOf(Expanded(t, s), data2, request, c2).Valid() && Closed(EnvOf(Expanded(t, s), data2, request, c2).graph)
  {
    hide Env.Valid, Assign, Expanded, EnvOf, ChoicesFit, CopiedData, CleanPairs, SameChoices, Fresh;
    ExpandedWellFormed(t, s);
    WithoutGateway(t, request, c);
    EnvReady(t, data, request, c);
    EnvReady(t, data, NoGateway(request), c);
    EnvReady(Expanded(t, s), data2, request, c2);
  }

  lemma OnlyV4(request: Request)
    requires request.ipv4 && !request.ipv6
    ensures request.Families() == [V4] && NoGateway(request).Families() == [V4]
  {
  }

  lemma LabGraph(t: Topology, s: string)
    requires Fresh(t, s) && UniqueNames(t) && SingleMembership(t)
    requires Assign(t).ifaces.Valid() && Assign(Expanded(t, s)).ifaces.Valid()
    ensures var g, g2 := GraphOf(t, Assign(t).ifaces), GraphOf(Expanded(t, s), Assign(Expanded(t, s)).ifaces);
            g.Keys == SetOf(NetNames(t)) && Repeats(g, g2, "") && Repeats(g, g2, s)
  {
    hide Assign, Expanded, StepsFrom, Fresh, SingleMembership, CloneEdges;
    var g, g2 := GraphOf(t, Assign(t).ifaces), GraphOf(Expanded(t, s), Assign(Expanded(t, s)).ifaces);
    forall n | n in g
      ensures n in NetNames(t) && n + "" == n
      ensures StepsOf(g2, n) == CloneEdges(g[n], "") && StepsOf(g2, n + s) == CloneEdges(g[n], s)
    {
      hide GraphOf;
      assert n + "" == n;
      StepsExpanded(t, s, n);
      SameEdges(g[n]);
    }
  }

  lemma SameEdges(edges: seq<Edge>)
    ensures CloneEdges(edges, "") == edges
  {
    forall i | 0 <= i < |edges|
      ensures CloneEdges(edges, "")[i] == edges[i]
    {
      assert edges[i].net + "" == edges[i].net && edges[i].router + "" == edges[i].router;
    }
  }

  lemma LabIsCopied(t: Topology, s: string, data: Data, data2: Data, request: Request, c: Choices, c2: Choices)
    requires Mirroring(t, s, data, data2, request, c, c2)
    ensures Copies(EnvOf(t, data, request, c), EnvOf(Expanded(t, s), data2, request, c2), "")
  {
    hide Env.Valid, Assign, Expanded, GraphOf, SameMachine, Fresh, ChoicesFit, SameChoices, CleanPairs, Repeats;
    AllReady(t, s, data, data2, request, c, c2);
    OnlyV4(request);
    LabGraph(t, s);
    var a := EnvOf(t, data, request, c);
    forall m | m in a.ifaces.vals
      ensures SameMachine(a, EnvOf(Expanded(t, s), data2, request, c2), m, "")
    {
      LabMachine(t, s, data, data2, request, c, c2, m);
    }
    forall n | n in NetNames(t) && n in data.nets
      ensures n + "" in data2.nets && data2.nets[n + ""] == data.nets[n]
    {
      NetCopied(t, s, data, data2, n);
      assert n + "" == n;
    }
  }

  lemma CloneIsCopied(t: Topology, s: string, data: Data, data2: Data, request: Request, c: Choices, c2: Choices)
    requires Mirroring(t, s, data, data2, request, c, c2)
    ensures Copies(EnvOf(t, data, NoGateway(request), c), EnvOf(Expanded(t, s), data2, request, c2), s)
  {
    hide Env.Valid, Assign, Expanded, GraphOf, SameMachine, Fresh, ChoicesFit, SameChoices, CleanPairs, Repeats;
    AllReady(t, s, data, data2, request, c, c2);
    OnlyV4(request);
    LabGraph(t, s);
    var a := EnvOf(t, data, NoGateway(request), c);
    forall m | m in a.ifaces.vals
      ensures SameMachine(a, EnvOf(Expanded(t, s), data2, request, c2), m, s)
    {
      CloneMachine(t, s, data, data2, request, c, c2, m);
    }
    forall n | n in NetNames(t) && n in data.nets
      ensures n + s in data2.nets && data2.nets[n + s] == data.nets[n]
    {
      NetCopied(t, s, data, data2, n);
    }
  }

  /** The networks of the lab, and those of the clone, among all networks of the expansion. */
  lemma NamesInterleave(t: Topology, s: string, g: Graph)
    requires Fresh(t, s) && g.Keys == SetOf(NetNames(t))
    ensures Interleaves(NetNames(t), NetNames(Expanded(t, s)), g, "")
    ensures Interleaves(NetNames(t), NetNames(Expanded(t, s)), g, s)
  {
    NamesExpanded(t, s);
    var names := NetNames(t);
    EmptySuffix(names);
    AllMirrored(names, g, "");
    AllMirrored(names, g, s);
    forall x | x in Clones(names, s)
      ensures Stranger(g, "", x)
    {
      var i :| 0 <= i < |names| && Clones(names, s)[i] == x;
      assert names[i] in names;
      forall n | n in g
        ensures n + "" != x
      {
        assert n + "" == n;
      }
    }
    forall x | x in names
      ensures Stranger(g, s, x)
    {
    }
    hide Interleaves, Expanded, Fresh;
    StrangersAfter(names, names, Clones(names, s), g, "");
    StrangersBefore(names, Clones(names, s), names, g, s);
  }

  // ----- the gateway -----

  lemma NetSetOf(t: Topology, data: Data, request: Request, c: Choices, m: Name)
    requires UniqueNames(t)
    ensures EnvOf(t, data, request, c).NetSet(m) == SetOf(NetsOf(t, m))
  {
    AssignKeys(t);
    RowsOf(t, m);
    hide Assign, GraphOf;
  }

  /** The networks of the gateway in the lab and in the expansion. */
  lemma GatewayNets(t: Topology, s: string, g: Name)
    requires Fresh(t, s) && forall m :: IsMachine(t, m) ==> m + s != g
    ensures NetsOf(Expanded(t, s), g) == NetsOf(t, g)
  {
    if IsMachine(t, g) {
      NetsOfExpanded(t, s, g);
    } else {
      var e := Explicit(t);
      NetsOfAppend(e, CloneOf(e, s), g);
      NetsOfExplicit(t, g);
      forall m | IsMachine(e, m)
        ensures m + s != g
      {
        MachineExplicit(t, m);
      }
      NetsOfNoClone(e, g, s);
    }
  }

  lemma SharedUnchanged(t: Topology, s: string, data: Data, request: Request, c: Choices, c2: Choices, g: Name, m: Name)
    requires UniqueNames(t) && SameChoices(t, s, request, c, c2) && request.gateway == Some(g)
    requires EnvOf(t, data, request, c).NetSet(m) * EnvOf(t, data, request, c).NetSet(g) != {}
    ensures m in c.shared && m in c2.shared && c2.shared[m] == c.shared[m]
  {
    NetSetOf(t, data, request, c, m);
    NetSetOf(t, data, request, c, g);
    hide EnvOf, Env.NetSet, NetsOf;
  }

  lemma GatewayUnchanged(t: Topology, s: string, data: Data, data2: Data, request: Request, c: Choices, c2: Choices, g: Name)
    requires Mirroring(t, s, data, data2, request, c, c2) && request.gateway == Some(g)
    ensures EnvOf(Expanded(t, s), data2, request, c2).NetSet(g) == EnvOf(t, data, request, c).NetSet(g)
  {
    hide Assign, Expanded, CopiedData, CleanPairs, ChoicesFit, SameChoices, NetsOf, EnvOf, Env.NetSet;
    ExpandedWellFormed(t, s);
    GatewayNets(t, s, g);
    NetSetOf(t, data, request, c, g);
    NetSetOf(Expanded(t, s), data2, request, c2, g);
  }

  /** With the same gateway on the same networks, nothing is renamed. */
  lemma GatewayIsItself(a: Env, b: Env)
    requires a.request == b.request
    requires forall g :: a.request.gateway == Some(g) ==>
               b.NetSet(g) == a.NetSet(g)
               && forall m :: m in a.ifaces.vals && a.NetSet(m) * a.NetSet(g) != {} ==>
                    m in a.choices.shared && m in b.choices.shared && b.choices.shared[m] == a.choices.shared[m]
    ensures SameGateway(a, b, "")
  {
    hide Env.NetSet;
    if a.request.gateway.Some? {
      var g := a.request.gateway.value;
      assert g + "" == g;
      forall n | n in a.graph
        ensures n + "" == n
      {
      }
      forall m | m in a.ifaces.vals && a.NetSet(m) * a.NetSet(g) != {}
        ensures m + "" == m && a.choices.shared[m] + "" == a.choices.shared[m]
      {
      }
    }
  }

  lemma LabGateway(t: Topology, s: string, data: Data, data2: Data, request: Request, c: Choices, c2: Choices)
    requires Mirroring(t, s, data, data2, request, c, c2)
    ensures SameGateway(EnvOf(t, data, request, c), EnvOf(Expanded(t, s), data2, request, c2), "")
  {
    hide Assign, Expanded, CopiedData, CleanPairs, ChoicesFit, SameChoices, SameGateway, GraphOf, Env.NetSet;
    var a, b := EnvOf(t, data, request, c), EnvOf(Expanded(t, s), data2, request, c2);
    forall g | request.gateway == Some(g)
      ensures b.NetSet(g) == a.NetSet(g)
      ensures forall m :: m in a.ifaces.vals && a.NetSet(m) * a.NetSet(g) != {} ==>
                m in c.shared && m in c2.shared && c2.shared[m] == c.shared[m]
    {
      GatewayUnchanged(t, s, data, data2, request, c, c2, g);
      forall m | m in a.ifaces.vals && a.NetSet(m) * a.NetSet(g) != {}
        ensures m in c.shared && m in c2.shared && c2.shared[m] == c.shared[m]
      {
        SharedUnchanged(t, s, data, request, c, c2, g, m);
      }
    }
    GatewayIsItself(a, b);
  }

  lemma CloneGateway(t: Topology, s: string, data: Data, data2: Data, request: Request, c: Choices, c2: Choices)
    requires Mirroring(t, s, data, data2, request, c, c2)
    ensures SameGateway(EnvOf(t, data, NoGateway(request), c), EnvOf(Expanded(t, s), data2, request, c2), s)
  {
    hide Assign, Expanded, CopiedData, CleanPairs, ChoicesFit, SameChoices, NetsOf;
    AssignKeys(t);
    AssignKeys(Expanded(t, s));
    ExpandedWellFormed(t, s);
    var a := EnvOf(t, data, NoGateway(request), c);
    if request.gateway.Some? {
      var g := request.gateway.value;
      GatewayNets(t, s, g);
      NetSetOf(Expanded(t, s), data2, request, c2, g);
      forall m | m in a.ifaces.vals
        ensures m + s != g
      {
        AssignRow(t, m);
      }
      forall n | n in a.graph
        ensures n + s !in SetOf(NetsOf(t, g))
      {
        if n + s in NetsOf(t, g) {
          NetIsName(t, g, n + s);
        }
      }
    }
  }

  // ----- the theorem -----

  /** In the expanded lab, machine `m` is configured as in the lab alone. */
  lemma MachineUnchanged(t: Topology, s: string, data: Data, data2: Data, request: Request, c: Choices, c2: Choices, m: Name)
    requires Mirroring(t, s, data, data2, request, c, c2) && m in Assign(t).ifaces.vals
    requires EnvOf(t, data, request, c).Valid() && ConfigOf(EnvOf(t, data, request, c), m).Success?
    ensures EnvOf(Expanded(t, s), data2, request, c2).Valid() && m in EnvOf(Expanded(t, s), data2, request, c2).ifaces.vals
    ensures ConfigOf(EnvOf(Expanded(t, s), data2, request, c2), m) == ConfigOf(EnvOf(t, data, request, c), m)
  {
    hide Env.Valid, Assign, Expanded, GraphOf, ConfigOf, Copies, SameGateway, SameMachine, Interleaves;
    AllReady(t, s, data, data2, request, c, c2);
    LabIsCopied(t, s, data, data2, request, c, c2);
    LabGateway(t, s, data, data2, request, c, c2);
    LabGraph(t, s);
    NamesInterleave(t, s, GraphOf(t, Assign(t).ifaces));
    MachineFacts(t, s, data, data2, request, c, c2, m);
    hide Mirroring;
    assert m + "" == m;
    SameConfig(EnvOf(t, data, request, c), EnvOf(Expanded(t, s), data2, request, c2), m, "");
  }

  /** In the expanded lab, the clone of `m` is configured as `m` in the lab alone without gateway. */
  lemma CloneMirrors(t: Topology, s: string, data: Data, data2: Data, request: Request, c: Choices, c2: Choices, m: Name)
    requires Mirroring(t, s, data, data2, request, c, c2) && m in Assign(t).ifaces.vals
    requires EnvOf(t, data, NoGateway(request), c).Valid() && ConfigOf(EnvOf(t, data, NoGateway(request), c), m).Success?
    ensures EnvOf(Expanded(t, s), data2, request, c2).Valid() && m + s in EnvOf(Expanded(t, s), data2, request, c2).ifaces.vals
    ensures ConfigOf(EnvOf(Expanded(t, s), data2, request, c2), m + s) == ConfigOf(EnvOf(t, data, NoGateway(request), c), m)
  {
    hide Env.Valid, Assign, Expanded, GraphOf, ConfigOf, Copies, SameGateway, SameMachine, Interleaves;
    AllReady(t, s, data, data2, request, c, c2);
    CloneIsCopied(t, s, data, data2, request, c, c2);
    CloneGateway(t, s, data, data2, request, c, c2);
    LabGraph(t, s);
    NamesInterleave(t, s, GraphOf(t, Assign(t).ifaces));
    MachineFacts(t, s, data, data2, request, c, c2, m);
    hide Mirroring;
    SameConfig(EnvOf(t, data, NoGateway(request), c), EnvOf(Expanded(t, s), data2, request, c2), m, s);
  }

  lemma {:induction false} AllConfigured(env: Env, k: nat)
    requires env.Valid() && k <= |env.ifaces.keys|
    requires forall i :: 0 <= i < k ==> ConfigOf(env, env.ifaces.keys[i]).Success?
    ensures ConfigsOf(env, k).Success?
  {
    hide ConfigOf, Env.Valid;
    if k > 0 {
      AllConfigured(env, k - 1);
    }
  }

  /** The configurations of a lab, one per machine. */
  ghost predicate Configured(t: Topology, data: Data, request: Request, c: Choices, configs: map<Name, MachineConfig>) {
    && UniqueNames(t) && ChoicesFit(t, request, c)
    && NetConfigOf(t, data, request, c) == Success(configs)
  }

  lemma ConfiguredMachine(t: Topology, data: Data, request: Request, c: Choices, configs: map<Name, MachineConfig>, m: Name)
    requires Configured(t, data, request, c, configs) && m in Machines(t)
    ensures EnvOf(t, data, request, c).Valid() && m in Assign(t).ifaces.vals
    ensures m in configs && ConfigOf(EnvOf(t, data, request, c), m) == Success(configs[m])
  {
    hide Env.Valid, ConfigsOf, ConfigOf, ChoicesFit, Assign, GraphOf;
    EnvIsValid(t, data, request, c);
    AssignKeys(t);
    var env := EnvOf(t, data, request, c);
    ConfigsHave(env, |env.ifaces.keys|, configs);
    var i :| 0 <= i < |env.ifaces.keys| && env.ifaces.keys[i] == m;
  }

  /** What the expanded lab gives to machine `m` and to its clone. */
  lemma ExpandedMachine(t: Topology, s: string, data: Data, data2: Data, request: Request, c: Choices, c2: Choices,
                        configs: map<Name, MachineConfig>, bare: map<Name, MachineConfig>, m: Name)
    requires Mirroring(t, s, data, data2, request, c, c2) && m in Machines(t)
    requires Configured(t, data, request, c, configs) && Configured(t, data, NoGateway(request), c, bare)
    ensures m in configs && m in bare
    ensures var env := EnvOf(Expanded(t, s), data2, request, c2);
      && env.Valid() && m in env.ifaces.vals && m + s in env.ifaces.vals
      && ConfigOf(env, m) == Success(configs[m]) && ConfigOf(env, m + s) == Success(bare[m])
  {
    hide Mirroring, Configured, EnvOf, Env.Valid, ConfigOf, Assign, Expanded, Machines;
    ConfiguredMachine(t, data, request, c, configs, m);
    ConfiguredMachine(t, data, NoGateway(request), c, bare, m);
    MachineUnchanged(t, s, data, data2, request, c, c2, m);
    CloneMirrors(t, s, data, data2, request, c, c2, m);
  }

  lemma ExpandedKeys(t: Topology, s: string, data: Data, data2: Data, request: Request, c: Choices, c2: Choices)
    requires Mirroring(t, s, data, data2, request, c, c2)
    ensures UniqueNames(Expanded(t, s)) && ChoicesFit(Expanded(t, s), request, c2) && request.ipv4
    ensures EnvOf(Expanded(t, s), data2, request, c2).Valid()
    ensures EnvOf(Expanded(t, s), data2, request, c2).ifaces.keys == Machines(t) + Clones(Machines(t), s)
  {
    hide Env.Valid, Assign, Expanded, ChoicesFit, CopiedData, CleanPairs, SameChoices, Machines, GraphOf;
    ExpandedWellFormed(t, s);
    AssignKeys(Expanded(t, s));
    MachinesExpanded(t, s);
    EnvIsValid(Expanded(t, s), data2, request, c2);
  }

  lemma ExpandedConfigured(t: Topology, s: string, data: Data, data2: Data, request: Request, c: Choices, c2: Choices,
                           configs: map<Name, MachineConfig>, bare: map<Name, MachineConfig>)
    returns (full: map<Name, MachineConfig>)
    requires Mirroring(t, s, data, data2, request, c, c2)
    requires Configured(t, data, request, c, configs) && Configured(t, data, NoGateway(request), c, bare)
    ensures Configured(Expanded(t, s), data2, request, c2, full)
  {
    hide Mirroring, Configured, EnvOf, Env.Valid, ConfigsOf, ConfigOf, Assign, Expanded, Machines, ChoicesFit, UniqueNames;
    ExpandedKeys(t, s, data, data2, request, c, c2);
    var env := EnvOf(Expanded(t, s), data2, request, c2);
    var ms := Machines(t);
    forall i | 0 <= i < |env.ifaces.keys|
      ensures env.ifaces.keys[i] in env.ifaces.vals && ConfigOf(env, env.ifaces.keys[i]).Success?
    {
      if i < |ms| {
        ExpandedMachine(t, s, data, data2, request, c, c2, configs, bare, ms[i]);
      } else {
        ExpandedMachine(t, s, data, data2, request, c, c2, configs, bare, ms[i - |ms|]);
      }
    }
    AllConfigured(env, |env.ifaces.keys|);
    full := ConfigsOf(env, |env.ifaces.keys|).value;
    MakeConfigured(Expanded(t, s), data2, request, c2, full);
  }

  lemma MakeConfigured(t: Topology, data: Data, request: Request, c: Choices, configs: map<Name, MachineConfig>)
    requires UniqueNames(t) && ChoicesFit(t, request, c) && request.ipv4
    requires EnvOf(t, data, request, c).Valid()
    requires var env := EnvOf(t, data, request, c); ConfigsOf(env, |env.ifaces.keys|) == Success(configs)
    ensures Configured(t, data, request, c, configs)
  {
    hide EnvOf, Env.Valid, ConfigsOf, ChoicesFit;
  }

  /** The hidden mirror: when the lab is configured, with its gateway and without, so is its
      expansion; every machine keeps its configuration, and every clone has the one of its
      original without gateway. */
  lemma MirrorIsFaithful(t: Topology, s: string, data: Data, data2: Data, request: Request, c: Choices, c2: Choices,
                         configs: map<Name, MachineConfig>, bare: map<Name, MachineConfig>)
    returns (full: map<Name, MachineConfig>)
    requires Mirroring(t, s, data, data2, request, c, c2)
    requires Configured(t, data, request, c, configs) && Configured(t, data, NoGateway(request), c, bare)
    ensures Configured(Expanded(t, s), data2, request, c2, full)
    ensures forall m :: m in Machines(t) ==>
              (&& m in configs && m in full && full[m] == configs[m]
               && m in bare && m + s in full && full[m + s] == bare[m])
  {
    hide Mirroring, Configured, EnvOf, Env.Valid, ConfigOf, Assign, Expanded, Machines;
    full := ExpandedConfigured(t, s, data, data2, request, c, c2, configs, bare);
    forall m | m in Machines(t)
      ensures m in configs && m in full && full[m] == configs[m]
      ensures m in bare && m + s in full && full[m + s] == bare[m]
    {
      ExpandedMachine(t, s, data, data2, request, c, c2, configs, bare, m);
      ExpandedNames(t, s, m, data, data2, request, c, c2);
      ConfiguredMachine(Expanded(t, s), data2, request, c2, full, m);
      ConfiguredMachine(Expanded(t, s), data2, request, c2, full, m + s);
    }
  }

  lemma ExpandedNames(t: Topology, s: string, m: Name, data: Data, data2: Data, request: Request, c: Choices, c2: Choices)
    requires Mirroring(t, s, data, data2, request, c, c2) && m in Machines(t)
    ensures m in Machines(Expanded(t, s)) && m + s in Machines(Expanded(t, s))
  {
    MachinesExpanded(t, s);
    hide Mirroring, Machines, Expanded;
    CloneMembers(Machines(t), m, s);
  }
}
