/**
 A small lab that meets all the assumptions of the delivery theorems: two networks, a machine on each, a
 router between them.
 */
module SmallLabs {
  import opened Wrappers
  import opened Topologies
  import opened IpAddresses
  import opened NetConfigs
  import opened NetworkAllocation
  import opened AddressAllocation
  import opened TopologyConfig
  import opened Forwarding
  import opened MirrorAddressing
  import opened AddressAssignment
  import opened Labs

  datatype Names = Names(a: Name, r: Name, b: Name, n1: Name, n2: Name) {
    /** The names of machines and networks, and those of the addresses, differ. */
    predicate Different() {
      && a != r && a != b && r != b && n1 != n2
      && AttrName(2, r, n1) != a && AttrName(2, r, n1) != b && AttrName(2, r, n2) != a && AttrName(2, r, n2) != b
      && AttrName(2, r, n1) != AttrName(2, r, n2)
    }

    function Lab(): Topology {
      [Network(n1, [Attachment(a, None), Attachment(r, None)]), Network(n2, [Attachment(r, None), Attachment(b, None)])]
    }

    function Nets(m: Name): seq<Name> {
      if m == a then [n1] else if m == r then [n1, n2] else if m == b then [n2] else []
    }
  }

  lemma NetsAre(l: Names, m: Name)
    requires l.Different()
    ensures NetsOf(l.Lab(), m) == l.Nets(m)
  {
    var t := l.Lab();
    assert t[0].members[0].machine == l.a && t[0].members[1].machine == l.r;
    assert t[1].members[0].machine == l.r && t[1].members[1].machine == l.b;
    NetsOfNext([], t[0], m);
    NetsOfNext([t[0]], t[1], m);
    assert [] + [t[0]] == [t[0]] && [t[0]] + [t[1]] == t;
  }

  function PlacesOf(l: Names): seq<Place> {
    var d := MachinesByNet(l.Lab());
    Places(d, |d.keys|)
  }

  lemma UniqueLab(l: Names)
    requires l.Different()
    ensures UniqueNames(l.Lab()) && SingleMembership(l.Lab())
  {
  }

  lemma PlaceInLab(l: Names, p: nat)
    requires l.Different() && p < |PlacesOf(l)|
    ensures var x := PlacesOf(l)[p];
      || x == Place(l.a, l.n1, l.a) || x == Place(l.r, l.n1, AttrName(2, l.r, l.n1))
      || x == Place(l.r, l.n2, AttrName(2, l.r, l.n2)) || x == Place(l.b, l.n2, l.b)
  {
    var d := MachinesByNet(l.Lab());
    var j, i := PlaceIs(d, |d.keys|, p);
    UniqueLab(l);
    ListsAreNumbered(l.Lab(), d.keys[j]);
    NetsAre(l, d.keys[j]);
    hide NetsOf, MachinesByNet, Places, Names.Lab, Names.Different;
    OnePlace(l, d.keys[j], i);
  }

  lemma OnePlace(l: Names, m: Name, i: nat)
    requires i < |l.Nets(m)|
    ensures var x := Place(m, l.Nets(m)[i], AttrName(|l.Nets(m)|, m, l.Nets(m)[i]));
      || x == Place(l.a, l.n1, l.a) || x == Place(l.r, l.n1, AttrName(2, l.r, l.n1))
      || x == Place(l.r, l.n2, AttrName(2, l.r, l.n2)) || x == Place(l.b, l.n2, l.b)
  {
  }

  lemma SmallSound(l: Names)
    requires l.Different()
    ensures Sound(l.Lab())
  {
    UniqueLab(l);
    forall m
      ensures NoReuse(l.Lab(), m)
    {
      NothingDeclared(l.Lab(), m);
    }
    forall p, q | 0 <= p < q < |PlacesOf(l)|
      ensures PlacesOf(l)[p].attr != PlacesOf(l)[q].attr
    {
      PlaceInLab(l, p);
      PlaceInLab(l, q);
      if PlacesOf(l)[p] == PlacesOf(l)[q] {
        PlaceOnce(l.Lab(), p, q);
      }
    }
    assert Unambiguous(PlacesOf(l));
    hide NoReuse, Names.Lab, UniqueNames, SingleMembership, Unambiguous;
  }

  // ----- its data -----

  const Half1: Subnet := Prefixed(V4, 1, 0)
  const Half2: Subnet := Prefixed(V4, 1, 1)

  function NetMap(l: Names): map<Name, Subnet> {
    map[l.n1 := Half1, l.n2 := Half2]
  }

  /** The router has the second host of each network, the other machines the first. */
  function Chosen(l: Names): seq<Interface>
    requires l.Different()
  {
    seq(|PlacesOf(l)|, p requires 0 <= p < |PlacesOf(l)| =>
      PlaceInLab(l, p);
      AddressAt(NetMap(l)[PlacesOf(l)[p].net], if PlacesOf(l)[p].machine == l.r then 2 else 1))
  }

  lemma HostIsPicked(net: Subnet, o: nat)
    requires net.family == V4 && net.len <= 29 && 1 <= o <= 2
    ensures Picked(net, 1, {}, [], [AddressAt(net, o)])
  {
    Pow2Monotone(2, 32 - net.len);
    assert Pow2(2) == 4;
    assert HostOffsets(net).start <= o < HostOffsets(net).stop;
  }

  /** Two places of one network have different offsets. */
  lemma ChosenDiffer(l: Names, p: nat, q: nat)
    requires l.Different() && p < q < |PlacesOf(l)| && PlacesOf(l)[p].net == PlacesOf(l)[q].net
    ensures PlacesOf(l)[p].machine == l.r <==> PlacesOf(l)[q].machine != l.r
  {
    UniqueLab(l);
    PlaceInLab(l, p);
    PlaceInLab(l, q);
    if PlacesOf(l)[p].machine == PlacesOf(l)[q].machine {
      PlaceOnce(l.Lab(), p, q);
      assert false;
    }
    hide PlacesOf, Names.Lab;
  }

  lemma SmallChosen(l: Names)
    requires l.Different()
    ensures ChosenWell(NetMap(l), PlacesOf(l), Chosen(l))
  {
    var nets, places, chosen := NetMap(l), PlacesOf(l), Chosen(l);
    forall p | 0 <= p < |places|
      ensures places[p].net in nets
      ensures chosen[p] == AddressAt(nets[places[p].net], if places[p].machine == l.r then 2 else 1)
      ensures Picked(nets[places[p].net], 1, {}, [], [chosen[p]])
    {
      PlaceInLab(l, p);
      hide Picked, PlacesOf;
      HostIsPicked(nets[places[p].net], if places[p].machine == l.r then 2 else 1);
    }
    hide Picked, PlacesOf, Chosen, NetMap;
    forall p, q | 0 <= p < q < |places| && places[p].net == places[q].net
      ensures chosen[p] != chosen[q]
    {
      ChosenDiffer(l, p, q);
    }
    assert |chosen| == |places|;
  }

  lemma HalvesAre()
    ensures Half1 == Block(V4, 0, 1) && Half2 == Block(V4, Pow2(31), 1)
    ensures Half1.Last() == Pow2(31) - 1 && Half2.Last() == DefaultNet(V4).Last()
  {
    assert Pow2(32) == 2 * Pow2(31);
  }

  lemma HalvesAreDisjoint()
    ensures Half1.family == V4 && Half1.len == 1 && Half2.family == V4 && Half2.len == 1 && Disjoint(Half1, Half2)
  {
    HalvesAre();
  }

  lemma HalvesAreAllocated()
    ensures Allocated([1, 1], DefaultNet(V4), [], false, [Half1, Half2])
  {
    hide Half1, Half2, Pow2, Disjoint, Allowed, DefaultNet;
    HalvesAreDisjoint();
    HalfIsAllowed(Half1);
    HalfIsAllowed(Half2);
  }

  lemma HalfIsAllowed(half: Subnet)
    requires half.family == V4 && half.len == 1
    ensures Allowed(DefaultNet(V4), false, 1, half)
  {
    hide Pow2;
  }

  function SmallData(l: Names): Data
    requires l.Different()
  {
    Data(NetMap(l), Written(map[], PlacesOf(l), Chosen(l)), map[], map[])
  }

  lemma {:induction false} WrittenFamily(ips: map<Name, Interface>, places: seq<Place>, chosen: seq<Interface>, f: Family)
    requires |chosen| <= |places|
    requires forall n :: n in ips ==> ips[n].ip.family == f
    requires forall i :: 0 <= i < |chosen| ==> chosen[i].ip.family == f
    ensures forall n :: n in Written(ips, places, chosen) ==> Written(ips, places, chosen)[n].ip.family == f
  {
    if chosen != [] {
      WrittenFamily(ips, places, chosen[..|chosen| - 1], f);
    }
  }

  lemma ChosenFamily(l: Names)
    requires l.Different()
    ensures forall p :: 0 <= p < |Chosen(l)| ==> Chosen(l)[p].ip.family == V4
  {
    forall p | 0 <= p < |Chosen(l)|
      ensures Chosen(l)[p].ip.family == V4
    {
      PlaceInLab(l, p);
    }
  }

  lemma WrittenTyped(nets: map<Name, Subnet>, places: seq<Place>, chosen: seq<Interface>)
    requires |chosen| <= |places|
    requires forall n :: n in nets ==> nets[n].family == V4
    requires forall i :: 0 <= i < |chosen| ==> chosen[i].ip.family == V4
    ensures Data(nets, Written(map[], places, chosen), map[], map[]).Typed()
  {
    WrittenFamily(map[], places, chosen, V4);
    hide Written;
  }

  lemma SmallTyped(l: Names)
    requires l.Different()
    ensures SmallData(l).Typed()
  {
    ChosenFamily(l);
    hide Data.Typed, Chosen, PlacesOf, Names.Different;
    WrittenTyped(NetMap(l), PlacesOf(l), Chosen(l));
  }

  lemma SmallDrawn(l: Names)
    requires l.Different()
    ensures Drawn(l.Lab(), NetMap(l), [Half1, Half2], map[l.n1 := 0, l.n2 := 1])
  {
    hide Half1, Half2;
    assert NetNames(l.Lab()) == [l.n1, l.n2];
  }

  lemma SmallAssigned(l: Names)
    requires l.Different()
    ensures Assigned(l.Lab(), SmallData(l), map[], Chosen(l))
  {
    SmallChosen(l);
    hide ChosenWell, Written, MachinesByNet, Places, Names.Lab, Names.Different, NetMap;
  }

  const Ipv4Request: Request := Request(true, false, None, None, None)

  /** The lab is drawn, assigned and sound, so that it is ready. */
  lemma SmallLabIsReady(l: Names) returns (choices: Choices, configs: map<Name, MachineConfig>)
    requires l.Different()
    ensures Sound(l.Lab()) && ChoicesFit(l.Lab(), Ipv4Request, choices)
    ensures Drawn(l.Lab(), NetMap(l), [Half1, Half2], map[l.n1 := 0, l.n2 := 1])
    ensures Assigned(l.Lab(), SmallData(l), map[], Chosen(l))
    ensures Ready(EnvOf(l.Lab(), SmallData(l), Ipv4Request, choices), configs, V4)
  {
    SmallSound(l);
    UniqueLab(l);
    SmallTyped(l);
    SmallDrawn(l);
    SmallAssigned(l);
    HalvesAreAllocated();
    choices := ChoicesExist(l.Lab(), Ipv4Request);
    assert SmallData(l).nets == NetMap(l);
    hide Sound, ChoicesFit, Allocated, Assigned, Drawn, Ready, Data.Typed, SmallData, NetMap, Names.Lab, Names.Different, Chosen,
      EnvOf, NetConfigOf;
    configs := DrawnLabIsReady(l.Lab(), SmallData(l), Ipv4Request, choices, [1, 1], DefaultNet(V4), [], false, [Half1, Half2],
                               map[l.n1 := 0, l.n2 := 1], map[], Chosen(l));
  }

  const Letters: Names := Names("a", "r", "b", "n", "m")

  lemma LettersDiffer()
    ensures Letters.Different()
  {
    assert |AttrName(2, "r", "n")| == 3 && AttrName(2, "r", "n")[2] == 'n' && AttrName(2, "r", "m")[2] == 'm';
  }

  /** Such a lab with names of one letter */
  lemma LetterLabIsReady() returns (data: Data, choices: Choices, configs: map<Name, MachineConfig>)
    ensures Ready(EnvOf(Letters.Lab(), data, Ipv4Request, choices), configs, V4)
  {
    LettersDiffer();
    hide Ready, EnvOf, Letters, Names.Lab, Names.Different, SmallData, Sound, Drawn, Assigned;
    data := SmallData(Letters);
    choices, configs := SmallLabIsReady(Letters);
  }
}
