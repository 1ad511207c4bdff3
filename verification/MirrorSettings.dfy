/**
 The setting of the mirror theorem can be met: every lab with suitable names and complete entries has an
 expansion that mirrors it.
 */
module MirrorSettings {
  import opened Wrappers
  import opened Dicts
  import opened Topologies
  import opened FirstHops
  import opened TopologyConfig
  import opened MirrorTopology
  import opened MirrorFacts
  import opened MirrorRouting
  import opened MirrorAddressing
  import opened Mirrors
  import opened MirrorTheorem

  /** The orders of a lab and those of its clones */
  ghost function ExpandedChoices(t: Topology, s: string, c: Choices): Choices
    requires forall m :: m in Machines(t) ==> m in c.order
  {
    Choices(
      map x | x in Machines(t) + Clones(Machines(t), s) ::
        if x in Machines(t) then c.order[x]
        else if |x| >= |s| && x[..|x| - |s|] in Machines(t) then Clones(c.order[x[..|x| - |s|]], s) else [],
      c.shared)
  }

  lemma OrdersAre(t: Topology, s: string, c: Choices, m: Name)
    requires (forall x :: x in Machines(t) ==> x in c.order) && m in Machines(t)
    requires forall x, y :: x in Machines(t) && y in Machines(t) ==> x + s != y
    ensures var c2 := ExpandedChoices(t, s, c);
            && m in c2.order && c2.order[m] == c.order[m]
            && m + s in c2.order && c2.order[m + s] == Clones(c.order[m], s)
  {
    hide Machines;
    var i :| 0 <= i < |Machines(t)| && Machines(t)[i] == m;
    assert Clones(Machines(t), s)[i] == m + s;
    assert (m + s)[..|m + s| - |s|] == m;
  }

  lemma NoCloneIsMachine(t: Topology, s: string, x: Name, y: Name)
    requires Fresh(t, s) && x in Machines(t) && y in Machines(t)
    ensures x + s != y
  {
    MachinesAre(t, x);
    MachinesAre(t, y);
  }

  lemma OrderedMachines(t: Topology, request: Request, c: Choices, m: Name)
    requires ChoicesFit(t, request, c) && m in Machines(t)
    ensures m in c.order && Distinct(c.order[m]) && SetOf(c.order[m]) == SetOf(NetsOf(t, m))
  {
    MachinesAre(t, m);
  }

  lemma ClonedOrder(nets: seq<Name>, order: seq<Name>, s: string)
    requires Distinct(order) && SetOf(order) == SetOf(nets)
    ensures Distinct(Clones(order, s)) && SetOf(Clones(order, s)) == SetOf(Clones(nets, s))
  {
    forall i, j | 0 <= i < j < |order|
      ensures order[i] + s != order[j] + s
    {
      if order[i] + s == order[j] + s {
        SuffixInjective(order[i], order[j], s);
      }
    }
    forall x
      ensures x in Clones(order, s) <==> x in Clones(nets, s)
    {
      if x in Clones(order, s) {
        var i :| 0 <= i < |order| && order[i] + s == x;
        assert order[i] in SetOf(order) && order[i] in nets;
        CloneMembers(nets, order[i], s);
      }
      if x in Clones(nets, s) {
        var i :| 0 <= i < |nets| && nets[i] + s == x;
        assert nets[i] in SetOf(nets) && nets[i] in order;
        CloneMembers(order, nets[i], s);
      }
    }
  }

  /** The orders of the expanded lab fit it, one machine at a time. */
  lemma OrderFits(t: Topology, s: string, request: Request, c: Choices, x: Name)
    requires Fresh(t, s) && ChoicesFit(t, request, c)
    requires forall m :: m in Machines(t) ==> m in c.order
    requires NetsOf(Expanded(t, s), x) != []
    ensures var c2 := ExpandedChoices(t, s, c);
            x in c2.order && Distinct(c2.order[x]) && SetOf(c2.order[x]) == SetOf(NetsOf(Expanded(t, s), x))
  {
    MachinesAre(Expanded(t, s), x);
    MachinesExpanded(t, s);
    hide Expanded, Machines, NetsOf, Fresh, ExpandedChoices, ChoicesFit;
    forall a, b | a in Machines(t) && b in Machines(t)
      ensures a + s != b
    {
      NoCloneIsMachine(t, s, a, b);
    }
    var m: Name;
    if x in Machines(t) {
      m := x;
    } else {
      var i :| 0 <= i < |Machines(t)| && Clones(Machines(t), s)[i] == x;
      m := Machines(t)[i];
    }
    MachinesAre(t, m);
    NetsOfExpanded(t, s, m);
    OrdersAre(t, s, c, m);
    OrderedMachines(t, request, c, m);
    ClonedOrder(NetsOf(t, m), c.order[m], s);
  }

  lemma SharedOf(t: Topology, request: Request, c: Choices, x: Name, g: Name)
    requires ChoicesFit(t, request, c) && request.gateway == Some(g)
    requires SetOf(NetsOf(t, x)) * SetOf(NetsOf(t, g)) != {}
    ensures x in c.shared && c.shared[x] in SetOf(NetsOf(t, x)) * SetOf(NetsOf(t, g))
  {
    hide NetsOf;
  }

  /** Clones share no network with it. */
  lemma NothingShared(t: Topology, s: string, m: Name, g: Name)
    requires Fresh(t, s) && UniqueNames(t) && m in Machines(t) && forall m2 :: IsMachine(t, m2) ==> m2 + s != g
    ensures SetOf(NetsOf(Expanded(t, s), m + s)) * SetOf(NetsOf(Expanded(t, s), g)) == {}
  {
    GatewayNets(t, s, g);
    MachinesAre(t, m);
    hide Expanded, Machines, NetsOf, Fresh;
    NetsOfExpanded(t, s, m);
    if n :| n in SetOf(Clones(NetsOf(t, m), s)) * SetOf(NetsOf(Expanded(t, s), g)) {
      var j :| 0 <= j < |NetsOf(t, m)| && Clones(NetsOf(t, m), s)[j] == n;
      NoSharedClone(t, s, m, NetsOf(t, m)[j], g);
      assert false;
    }
  }

  /** The network shared with the gateway */
  lemma SharedFits(t: Topology, s: string, request: Request, c: Choices, x: Name, g: Name)
    requires Fresh(t, s) && UniqueNames(t) && ChoicesFit(t, request, c)
    requires request.gateway == Some(g) && forall m :: IsMachine(t, m) ==> m + s != g
    requires SetOf(NetsOf(Expanded(t, s), x)) * SetOf(NetsOf(Expanded(t, s), g)) != {}
    ensures x in c.shared && c.shared[x] in SetOf(NetsOf(Expanded(t, s), x)) * SetOf(NetsOf(Expanded(t, s), g))
  {
    var e := Expanded(t, s);
    GatewayNets(t, s, g);
    MachinesAre(e, x);
    MachinesExpanded(t, s);
    hide Expanded, Machines, NetsOf, Fresh, ChoicesFit;
    if x in Machines(t) {
      MachinesAre(t, x);
      NetsOfExpanded(t, s, x);
      SharedOf(t, request, c, x, g);
    } else {
      var i :| 0 <= i < |Machines(t)| && Clones(Machines(t), s)[i] == x;
      NothingShared(t, s, Machines(t)[i], g);
      assert false;
    }
  }

  lemma NoSharedClone(t: Topology, s: string, m: Name, n: Name, g: Name)
    requires Fresh(t, s) && n in NetsOf(t, m)
    ensures n + s !in NetsOf(t, g)
  {
    NetIsName(t, m, n);
    if n + s in NetsOf(t, g) {
      NetIsName(t, g, n + s);
    }
  }

  lemma MachinesOrdered(t: Topology, request: Request, c: Choices)
    requires ChoicesFit(t, request, c)
    ensures forall m :: m in Machines(t) ==> m in c.order
  {
    forall m | m in Machines(t)
      ensures m in c.order
    {
      OrderedMachines(t, request, c, m);
    }
  }

  lemma MakeFit(t: Topology, request: Request, c: Choices)
    requires forall m :: NetsOf(t, m) != [] ==>
               m in c.order && Distinct(c.order[m]) && SetOf(c.order[m]) == SetOf(NetsOf(t, m))
    requires request.gateway.Some? ==>
               var nets := SetOf(NetsOf(t, request.gateway.value));
               forall m :: SetOf(NetsOf(t, m)) * nets != {} ==> m in c.shared && c.shared[m] in SetOf(NetsOf(t, m)) * nets
    ensures ChoicesFit(t, request, c)
  {
    hide NetsOf;
  }

  /** Every choice of orders for the lab gives one for its expansion ... */
  lemma ExpandedFits(t: Topology, s: string, request: Request, c: Choices)
    requires UniqueNames(t) && Fresh(t, s) && ChoicesFit(t, request, c)
    requires forall m :: IsMachine(t, m) ==> request.gateway != Some(m + s)
    requires forall m :: m in Machines(t) ==> m in c.order
    ensures ChoicesFit(Expanded(t, s), request, ExpandedChoices(t, s, c))
  {
    var c2 := ExpandedChoices(t, s, c);
    assert c2.shared == c.shared;
    hide Expanded, Machines, NetsOf, Fresh, ExpandedChoices, IsMachine, ChoicesFit;
    forall x | NetsOf(Expanded(t, s), x) != []
      ensures x in c2.order && Distinct(c2.order[x]) && SetOf(c2.order[x]) == SetOf(NetsOf(Expanded(t, s), x))
    {
      OrderFits(t, s, request, c, x);
    }
    if request.gateway.Some? {
      var g := request.gateway.value;
      forall x | SetOf(NetsOf(Expanded(t, s), x)) * SetOf(NetsOf(Expanded(t, s), g)) != {}
        ensures x in c2.shared && c2.shared[x] in SetOf(NetsOf(Expanded(t, s), x)) * SetOf(NetsOf(Expanded(t, s), g))
      {
        SharedFits(t, s, request, c, x, g);
      }
    }
    MakeFit(Expanded(t, s), request, c2);
  }

  /** ... that corresponds to it. */
  lemma ExpandedSame(t: Topology, s: string, request: Request, c: Choices)
    requires UniqueNames(t) && Fresh(t, s) && ChoicesFit(t, request, c)
    requires forall m :: m in Machines(t) ==> m in c.order
    ensures SameChoices(t, s, request, c, ExpandedChoices(t, s, c))
  {
    var c2 := ExpandedChoices(t, s, c);
    assert c2.shared == c.shared;
    hide Machines, NetsOf, Fresh, ExpandedChoices, IsMachine, ChoicesFit;
    forall a, b | a in Machines(t) && b in Machines(t)
      ensures a + s != b
    {
      NoCloneIsMachine(t, s, a, b);
    }
    forall m | IsMachine(t, m)
      ensures m in c.order && m in c2.order && m + s in c2.order
      ensures c2.order[m] == c.order[m] && c2.order[m + s] == Clones(c.order[m], s)
    {
      MachinesAre(t, m);
      OrdersAre(t, s, c, m);
    }
    forall m, g | request.gateway == Some(g) && SetOf(NetsOf(t, m)) * SetOf(NetsOf(t, g)) != {}
      ensures m in c.shared
    {
      SharedOf(t, request, c, m, g);
    }
  }

  lemma DataCopies(t: Topology, s: string, data: Data) returns (data2: Data)
    requires Fresh(t, s) && CleanPairs(AddressPairs(t, s))
    requires forall n :: n in NetNames(t) ==> n in data.nets
    requires forall p :: p in AddressPairs(t, s) ==> p.0 in data.ips
    ensures CopiedData(t, s, data, data2)
  {
    NetsAreClean(t, s);
    hide Fresh, AddressPairs, CleanPairs, CopyEntries;
    forall p | p in NetPairs(t, s)
      ensures p.0 in data.nets
    {
      var k :| 0 <= k < |t| && NetPairs(t, s)[k] == p;
      assert NetNames(t)[k] == p.0;
    }
    CopySucceeds(data.nets, NetPairs(t, s));
    CopySucceeds(data.ips, AddressPairs(t, s));
    data2 := data.(nets := CopyEntries(data.nets, NetPairs(t, s)).value, ips := CopyEntries(data.ips, AddressPairs(t, s)).value);
  }

  /** A lab with suitable names whose entries are complete has an expansion that mirrors it. */
  lemma MirroringExists(t: Topology, s: string, data: Data, request: Request) returns (data2: Data, c: Choices, c2: Choices)
    requires UniqueNames(t) && SingleMembership(t) && Fresh(t, s) && CleanPairs(AddressPairs(t, s))
    requires request.ipv4 && !request.ipv6 && forall m :: IsMachine(t, m) ==> request.gateway != Some(m + s)
    requires forall n :: n in NetNames(t) ==> n in data.nets
    requires forall p :: p in AddressPairs(t, s) ==> p.0 in data.ips
    ensures Mirroring(t, s, data, data2, request, c, c2)
  {
    hide ChoicesFit, SameChoices, Expanded, Fresh, AddressPairs, CleanPairs, ExpandedChoices, IsMachine, CopiedData, Machines;
    c := ChoicesExist(t, request);
    MachinesOrdered(t, request, c);
    ExpandedFits(t, s, request, c);
    ExpandedSame(t, s, request, c);
    c2 := ExpandedChoices(t, s, c);
    data2 := DataCopies(t, s, data);
  }

  lemma {:induction false} PairComesFrom(d: Dict<Name, seq<Name>>, k: nat, s: string, p: (Name, Name)) returns (j: nat, i: nat)
    requires k <= |d.keys| && p in IpPairs(d, k, s)
    ensures j < k && i < |d.GetOr(d.keys[j], [])| && p == AttrPair(d.keys[j], d.GetOr(d.keys[j], []), i, s)
  {
    if p in IpPairs(d, k - 1, s) {
      j, i := PairComesFrom(d, k - 1, s, p);
    } else {
      j := k - 1;
      i :| 0 <= i < |d.GetOr(d.keys[j], [])| && RowPairs(d.keys[j], d.GetOr(d.keys[j], []), s)[i] == p;
    }
  }

  function TwoMachines(n: Name, a: Name, b: Name): Topology {
    [Network(n, [Attachment(a, None), Attachment(b, None)])]
  }

  lemma TwoMachinesNets(n: Name, a: Name, b: Name, m: Name)
    ensures NetsOf(TwoMachines(n, a, b), m) == if m == a || m == b then [n] else []
  {
    var t := TwoMachines(n, a, b);
    assert t[0].members[0].machine == a && t[0].members[1].machine == b;
    NetsOfNext([], t[0], m);
    assert [] + [t[0]] == t;
  }

  lemma TwoMachinesPairs(n: Name, a: Name, b: Name, s: string, p: (Name, Name))
    requires a != b && p in AddressPairs(TwoMachines(n, a, b), s)
    ensures p == (a, a + s) || p == (b, b + s)
  {
    var t := TwoMachines(n, a, b);
    var d := MachinesByNet(t);
    var j, i := PairComesFrom(d, |d.keys|, s, p);
    var m := d.keys[j];
    ListsAreNumbered(t, m);
    TwoMachinesNets(n, a, b, m);
  }

  /** A network with two machines is such a lab. */
  lemma SmallMirror(n: Name, a: Name, b: Name, s: string)
    requires a != b && s != "" && a + s != b && b + s != a
    ensures var t := TwoMachines(n, a, b);
            UniqueNames(t) && SingleMembership(t) && Fresh(t, s) && CleanPairs(AddressPairs(t, s))
  {
    var t := TwoMachines(n, a, b);
    forall m
      ensures IsMachine(t, m) <==> m == a || m == b
    {
      TwoMachinesNets(n, a, b, m);
    }
    assert a + s != a && b + s != b && n + s != n by {
      assert |a + s| > |a| && |b + s| > |b| && |n + s| > |n|;
    }
    forall p | p in AddressPairs(t, s)
      ensures p == (a, a + s) || p == (b, b + s)
    {
      TwoMachinesPairs(n, a, b, s, p);
    }
    assert a + s != b + s by {
      if a + s == b + s {
        SuffixInjective(a, b, s);
      }
    }
    hide IsMachine, AddressPairs;
  }
}
