/**
 `random_ips_from_topology`: an address for every machine on every network. What it fills is what
 the routing theorems ask for, provided that the names of the addresses are unambiguous.
 */
module AddressAssignment {
  import opened Wrappers
  import opened Dicts
  import opened Topologies
  import opened IpAddresses
  import opened NetworkAllocation
  import opened AddressAllocation
  import opened TopologyConfig
  import opened Forwarding
  import opened MirrorAddressing

  /** The address of machine `m` on network `n` goes to the attribute `attr`. */
  datatype Place = Place(machine: Name, net: Name, attr: Name)

  function RowPlaces(m: Name, nets: seq<Name>): (r: seq<Place>)
    ensures |r| == |nets| && forall i :: 0 <= i < |nets| ==> r[i] == Place(m, nets[i], AttrName(|nets|, m, nets[i]))
  {
    seq(|nets|, i requires 0 <= i < |nets| => Place(m, nets[i], AttrName(|nets|, m, nets[i])))
  }

  /** The places of the first `k` machines, in the order of the nested loops. */
  function Places(d: Dict<Name, seq<Name>>, k: nat): seq<Place>
    requires k <= |d.keys|
  {
    if k == 0 then [] else Places(d, k - 1) + RowPlaces(d.keys[k - 1], d.GetOr(d.keys[k - 1], []))
  }

  /** `setattr(ips, attr, ip)` for the first places */
  function Written(ips: map<Name, Interface>, places: seq<Place>, chosen: seq<Interface>): map<Name, Interface>
    requires |chosen| <= |places|
  {
    if chosen == [] then ips
    else Written(ips, places, chosen[..|chosen| - 1])[places[|chosen| - 1].attr := chosen[|chosen| - 1]]
  }

  /** Every chosen address is a host of its network, and no two of a network are equal. */
  ghost predicate ChosenWell(nets: map<Name, Subnet>, places: seq<Place>, chosen: seq<Interface>) {
    && |chosen| <= |places|
    && (forall i :: 0 <= i < |chosen| ==>
          places[i].net in nets && Picked(nets[places[i].net], 1, {}, [], [chosen[i]]))
    && (forall i, j :: 0 <= i < j < |chosen| && places[i].net == places[j].net ==> chosen[i] != chosen[j])
  }

  datatype AssignmentError = NoNetwork(name: Name) | NoAddress(error: AddressError)

  /** The assignment stops at the place after the chosen ones: its network is missing, or it is a small
      one whose usable addresses are all chosen already. */
  ghost predicate StopsAt(nets: map<Name, Subnet>, places: seq<Place>, chosen: seq<Interface>, error: AssignmentError) {
    && ChosenWell(nets, places, chosen) && |chosen| < |places|
    && var n := places[|chosen|].net;
       match error
       case NoNetwork(name) => name == n && n !in nets
       case NoAddress(e) =>
         && n in nets
         && if nets[n].Size() <= 65536 then e == AddressError.NotEnough && CountUsable(nets[n], UsedOn(places, chosen, n), []) == 0
            else e == AddressError.GaveUp && UsedOn(places, chosen, n) != {}
  }

  /** The addresses chosen on network `n` */
  ghost function UsedOn(places: seq<Place>, chosen: seq<Interface>, n: Name): set<Interface>
    requires |chosen| <= |places|
  {
    set i | 0 <= i < |chosen| && places[i].net == n :: chosen[i]
  }

  /** `_assign_from_topology` */
  method AssignAddresses(t: Topology, nets: map<Name, Subnet>, ips: map<Name, Interface>)
    returns (r: Result<map<Name, Interface>, AssignmentError>)
    ensures var d := MachinesByNet(t);
            var places := Places(d, |d.keys|);
            r.Success? ==> exists chosen ::
              (&& |chosen| == |places| && ChosenWell(nets, places, chosen) && r.value == Written(ips, places, chosen))
    ensures var d := MachinesByNet(t);
            r.Failure? ==> exists chosen :: StopsAt(nets, Places(d, |d.keys|), chosen, r.error)
  {
    hide Filled, Picked, MachinesByNet, ChosenWell, Written, CountUsable, StopsAt;
    var d := ListMachines(t);
    var result := ips;
    var usedOn: map<Name, seq<Interface>> := map[];
    ghost var chosen: seq<Interface> := [];
    FilledStart(nets, ips);
    for j := 0 to |d.keys|
      invariant Filled(nets, ips, Places(d, j), chosen, usedOn, result)
    {
      var m := d.keys[j];
      var names := d.GetOr(m, []);
      ghost var places := Places(d, j);
      for i := 0 to |names|
        invariant Filled(nets, ips, places, chosen, usedOn, result)
        invariant places == Places(d, j) + RowPlaces(m, names)[..i]
      {
        var n := names[i];
        if n !in nets {
          FilledStops(nets, ips, d, j, i, chosen, usedOn, result, NoNetwork(n));
          return Failure(NoNetwork(n));
        }
        var used := InUse(usedOn, n);
        var pick := RandomAddresses(nets[n], 1, set x | x in used, []);
        if pick.Failure? {
          FilledStops(nets, ips, d, j, i, chosen, usedOn, result, NoAddress(pick.error));
          return Failure(NoAddress(pick.error));
        }
        PickedOne(nets[n], used, pick.value);
        var ip := pick.value[0];
        var attr := AttrName(|names|, m, n);
        FilledNext(nets, ips, places, chosen, usedOn, result, Place(m, n, attr), ip);
        usedOn := usedOn[n := used + [ip]];
        result := result[attr := ip];
        chosen := chosen + [ip];
        places := places + [Place(m, n, attr)];
      }
      assert RowPlaces(m, names)[..|names|] == RowPlaces(m, names);
      assert places == Places(d, j + 1);
    }
    FilledMeans(nets, ips, Places(d, |d.keys|), chosen, usedOn, result);
    return Success(result);
  }

  /** What the loops keep: `result` is what the chosen addresses write, and `usedOn` knows them all. */
  ghost predicate Filled(nets: map<Name, Subnet>, ips: map<Name, Interface>, places: seq<Place>, chosen: seq<Interface>,
                         usedOn: map<Name, seq<Interface>>, result: map<Name, Interface>)
  {
    && |chosen| == |places| && ChosenWell(nets, places, chosen) && result == Written(ips, places, chosen)
    && Known(places, chosen, usedOn)
  }

  /** `assigned.get(net_name)` */
  function InUse(usedOn: map<Name, seq<Interface>>, n: Name): seq<Interface> {
    if n in usedOn then usedOn[n] else []
  }

  ghost predicate Known(places: seq<Place>, chosen: seq<Interface>, usedOn: map<Name, seq<Interface>>) {
    && |chosen| == |places|
    && (forall i :: 0 <= i < |chosen| ==> chosen[i] in InUse(usedOn, places[i].net))
    && (forall n, x :: x in InUse(usedOn, n) ==> exists i :: 0 <= i < |chosen| && places[i].net == n && chosen[i] == x)
  }

  lemma KnownIs(places: seq<Place>, chosen: seq<Interface>, usedOn: map<Name, seq<Interface>>, n: Name)
    requires Known(places, chosen, usedOn)
    ensures (set x | x in InUse(usedOn, n)) == UsedOn(places, chosen, n)
  {
  }

  lemma {:induction false} PlacesPrefix(d: Dict<Name, seq<Name>>, j: nat, k: nat)
    requires j <= k <= |d.keys|
    ensures Places(d, j) <= Places(d, k)
    decreases k
  {
    if j < k {
      PlacesPrefix(d, j, k - 1);
    }
  }

  lemma PlacesBefore(d: Dict<Name, seq<Name>>, j: nat, i: nat)
    requires j < |d.keys| && i < |d.GetOr(d.keys[j], [])|
    ensures var before := Places(d, j) + RowPlaces(d.keys[j], d.GetOr(d.keys[j], []))[..i];
            var places := Places(d, |d.keys|);
      && |before| < |places| && before == places[..|before|] && places[|before|].net == d.GetOr(d.keys[j], [])[i]
  {
    PlacesPrefix(d, j + 1, |d.keys|);
    assert Places(d, j + 1) == Places(d, j) + RowPlaces(d.keys[j], d.GetOr(d.keys[j], []));
    hide Places;
  }

  /** The loops stop where the next address cannot be chosen. */
  lemma FilledStops(nets: map<Name, Subnet>, ips: map<Name, Interface>, d: Dict<Name, seq<Name>>, j: nat, i: nat,
                    chosen: seq<Interface>, usedOn: map<Name, seq<Interface>>, result: map<Name, Interface>,
                    error: AssignmentError)
    requires j < |d.keys| && i < |d.GetOr(d.keys[j], [])|
    requires Filled(nets, ips, Places(d, j) + RowPlaces(d.keys[j], d.GetOr(d.keys[j], []))[..i], chosen, usedOn, result)
    requires var n := d.GetOr(d.keys[j], [])[i];
             match error
             case NoNetwork(name) => name == n && n !in nets
             case NoAddress(e) =>
               && n in nets
               && if nets[n].Size() <= SMALL
                  then e == AddressError.NotEnough && CountUsable(nets[n], set x | x in InUse(usedOn, n), []) == 0
                  else e == AddressError.GaveUp && InUse(usedOn, n) != []
    ensures StopsAt(nets, Places(d, |d.keys|), chosen, error)
  {
    hide ChosenWell, Known, CountUsable, Written, Block.Size, Places;
    var m, names := d.keys[j], d.GetOr(d.keys[j], []);
    var n := names[i];
    var before := Places(d, j) + RowPlaces(m, names)[..i];
    var places := Places(d, |d.keys|);
    PlacesBefore(d, j, i);
    KnownIs(before, chosen, usedOn, n);
    ChosenLater(nets, before, places, chosen);
    assert UsedOn(before, chosen, n) == UsedOn(places, chosen, n);
    if InUse(usedOn, n) != [] {
      assert InUse(usedOn, n)[0] in UsedOn(places, chosen, n);
    }
  }

  lemma ChosenLater(nets: map<Name, Subnet>, before: seq<Place>, places: seq<Place>, chosen: seq<Interface>)
    requires ChosenWell(nets, before, chosen) && |before| <= |places| && before == places[..|before|]
    ensures ChosenWell(nets, places, chosen)
  {
    hide Picked;
    assert forall i :: 0 <= i < |before| ==> before[i] == places[i];
  }

  lemma KnownNext(places: seq<Place>, chosen: seq<Interface>, usedOn: map<Name, seq<Interface>>, p: Place, ip: Interface)
    requires Known(places, chosen, usedOn)
    ensures var used := InUse(usedOn, p.net);
            && Known(places + [p], chosen + [ip], usedOn[p.net := used + [ip]])
            && (ip !in used ==> forall i :: 0 <= i < |chosen| && places[i].net == p.net ==> chosen[i] != ip)
  {
    var usedOn' := usedOn[p.net := InUse(usedOn, p.net) + [ip]];
    var places', chosen' := places + [p], chosen + [ip];
    forall n, x | x in InUse(usedOn', n)
      ensures exists i :: 0 <= i < |chosen'| && places'[i].net == n && chosen'[i] == x
    {
      if x in InUse(usedOn, n) {
        var i :| 0 <= i < |chosen| && places[i].net == n && chosen[i] == x;
        assert places'[i].net == n && chosen'[i] == x;
      } else {
        assert places'[|places|].net == n && chosen'[|places|] == x;
      }
    }
  }

  lemma FilledStart(nets: map<Name, Subnet>, ips: map<Name, Interface>)
    ensures Filled(nets, ips, [], [], map[], ips)
  {
  }

  lemma FilledMeans(nets: map<Name, Subnet>, ips: map<Name, Interface>, places: seq<Place>, chosen: seq<Interface>,
                    usedOn: map<Name, seq<Interface>>, result: map<Name, Interface>)
    requires Filled(nets, ips, places, chosen, usedOn, result)
    ensures |chosen| == |places| && ChosenWell(nets, places, chosen) && result == Written(ips, places, chosen)
  {
  }

  lemma {:induction false} WrittenPrefix(ips: map<Name, Interface>, places: seq<Place>, more: seq<Place>, chosen: seq<Interface>)
    requires |chosen| <= |places|
    ensures Written(ips, places + more, chosen) == Written(ips, places, chosen)
  {
    if chosen != [] {
      WrittenPrefix(ips, places, more, chosen[..|chosen| - 1]);
    }
  }

  lemma FilledNext(nets: map<Name, Subnet>, ips: map<Name, Interface>, places: seq<Place>, chosen: seq<Interface>,
                   usedOn: map<Name, seq<Interface>>, result: map<Name, Interface>, p: Place, ip: Interface)
    requires Filled(nets, ips, places, chosen, usedOn, result) && p.net in nets
    requires var used := InUse(usedOn, p.net);
             Picked(nets[p.net], 1, {}, [], [ip]) && ip !in used
    ensures var used := InUse(usedOn, p.net);
            Filled(nets, ips, places + [p], chosen + [ip], usedOn[p.net := used + [ip]], result[p.attr := ip])
  {
    hide Picked, ChosenWell, Known;
    KnownNext(places, chosen, usedOn, p, ip);
    ChosenNext(nets, places, chosen, p, ip);
    WrittenPrefix(ips, places, [p], chosen);
    assert (chosen + [ip])[..|chosen|] == chosen;
  }

  lemma ChosenNext(nets: map<Name, Subnet>, places: seq<Place>, chosen: seq<Interface>, p: Place, ip: Interface)
    requires ChosenWell(nets, places, chosen) && |chosen| == |places| && p.net in nets
    requires Picked(nets[p.net], 1, {}, [], [ip])
    requires forall i :: 0 <= i < |chosen| && places[i].net == p.net ==> chosen[i] != ip
    ensures ChosenWell(nets, places + [p], chosen + [ip])
  {
    hide Picked;
  }

  lemma PickedOne(net: Subnet, used: seq<Interface>, r: seq<Interface>)
    requires Picked(net, 1, set x | x in used, [], r)
    ensures |r| == 1 && Picked(net, 1, {}, [], [r[0]]) && r[0] !in used
  {
    assert r == [r[0]];
    assert r[0] in r;
  }

  // ----- the result is a complete addressing -----

  ghost predicate Unambiguous(places: seq<Place>) {
    forall i, j :: 0 <= i < j < |places| ==> places[i].attr != places[j].attr
  }

  lemma {:induction false} WrittenIs(ips: map<Name, Interface>, places: seq<Place>, chosen: seq<Interface>)
    requires |chosen| <= |places| && Unambiguous(places)
    ensures forall i :: 0 <= i < |chosen| ==>
              places[i].attr in Written(ips, places, chosen) && Written(ips, places, chosen)[places[i].attr] == chosen[i]
  {
    if chosen != [] {
      WrittenIs(ips, places, chosen[..|chosen| - 1]);
    }
  }

  lemma {:induction false} PlaceOf(d: Dict<Name, seq<Name>>, k: nat, j: nat, i: nat) returns (p: nat)
    requires j < k <= |d.keys| && i < |d.GetOr(d.keys[j], [])|
    ensures p < |Places(d, k)|
    ensures var nets := d.GetOr(d.keys[j], []);
            Places(d, k)[p] == Place(d.keys[j], nets[i], AttrName(|nets|, d.keys[j], nets[i]))
  {
    if j < k - 1 {
      p := PlaceOf(d, k - 1, j, i);
    } else {
      p := |Places(d, k - 1)| + i;
    }
  }

  /** The place of machine `m` on its network `n`. */
  lemma PlaceIn(t: Topology, m: Name, n: Name) returns (p: nat)
    requires SingleMembership(t) && n in NetsOf(t, m)
    ensures var d := MachinesByNet(t); var places := Places(d, |d.keys|);
            p < |places| && places[p] == Place(m, n, AttrName(|NetsOf(t, m)|, m, n))
  {
    MachinesByNetIs(t, m);
    var d := MachinesByNet(t);
    assert m in d.vals;
    hide NetsOf, MachinesByNet, Machines, Places;
    assert m in d.keys;
    var j :| 0 <= j < |d.keys| && d.keys[j] == m;
    var i :| 0 <= i < |NetsOf(t, m)| && NetsOf(t, m)[i] == n;
    p := PlaceOf(d, |d.keys|, j, i);
  }

  lemma PickedHost(net: Subnet, i: Interface)
    requires Picked(net, 1, {}, [], [i])
    ensures i.ip.family == net.family && i.len == net.len && net.Contains(i.ip)
  {
    assert i in [i];
  }

  /** What the assignment writes for machine `m` on its network `n`. */
  lemma AssignedAddress(t: Topology, nets: map<Name, Subnet>, ips: map<Name, Interface>, chosen: seq<Interface>,
                        m: Name, n: Name) returns (p: nat)
    requires SingleMembership(t) && n in NetsOf(t, m)
    requires var d := MachinesByNet(t); var places := Places(d, |d.keys|);
             |chosen| == |places| && ChosenWell(nets, places, chosen) && Unambiguous(places)
    ensures var d := MachinesByNet(t); var places := Places(d, |d.keys|);
            var attr := AttrName(|NetsOf(t, m)|, m, n);
      && p < |places| && places[p] == Place(m, n, attr)
      && attr in Written(ips, places, chosen) && Written(ips, places, chosen)[attr] == chosen[p]
      && n in nets && nets[n].Contains(chosen[p].ip) && chosen[p].len == nets[n].len
      && chosen[p].ip.family == nets[n].family
  {
    p := PlaceIn(t, m, n);
    var d := MachinesByNet(t);
    var places := Places(d, |d.keys|);
    hide NetsOf, MachinesByNet, Places, Written, Picked;
    WrittenIs(ips, places, chosen);
    PickedHost(nets[n], chosen[p]);
  }

  /** Assigned addresses with unambiguous names are a complete addressing of the lab, for every
      outcome of the random choices. */
  lemma AssignedIsAddressed(t: Topology, data: Data, request: Request, choices: Choices, f: Family,
                            before: map<Name, Interface>, chosen: seq<Interface>)
    requires UniqueNames(t) && SingleMembership(t)
    requires data.Typed() && f in request.Families()
    requires forall n :: n in NetNames(t) ==> n in data.Nets(f)
    requires var d := MachinesByNet(t); var places := Places(d, |d.keys|);
             && |chosen| == |places| && ChosenWell(data.Nets(f), places, chosen) && Unambiguous(places)
             && data.Ips(f) == Written(before, places, chosen)
    ensures Addressed(EnvOf(t, data, request, choices), f)
  {
    hide Assign, NetsOf, MachinesByNet, Places, Written, ChosenWell, Unambiguous;
    var env := EnvOf(t, data, request, choices);
    forall m, n | m in env.ifaces.vals && n in env.Row(m).vals
      ensures Attr(env, m, n) in data.Ips(f) && n in data.Nets(f)
      ensures data.Nets(f)[n].Contains(data.Ips(f)[Attr(env, m, n)].ip)
           && data.Ips(f)[Attr(env, m, n)].len == data.Nets(f)[n].len
    {
      RowIs(t, data, request, choices, m, n);
      var p := AssignedAddress(t, data.Nets(f), before, chosen, m, n);
    }
    forall m, m2, n | m in env.ifaces.vals && m2 in env.ifaces.vals && m != m2
                      && n in env.Row(m).vals && n in env.Row(m2).vals
      ensures data.Ips(f)[Attr(env, m, n)].ip != data.Ips(f)[Attr(env, m2, n)].ip
    {
      RowIs(t, data, request, choices, m, n);
      RowIs(t, data, request, choices, m2, n);
      AssignedDiffer(t, data.Nets(f), before, chosen, m, m2, n);
    }
  }

  lemma RowIs(t: Topology, data: Data, request: Request, choices: Choices, m: Name, n: Name)
    requires UniqueNames(t)
    requires var env := EnvOf(t, data, request, choices); m in env.ifaces.vals && n in env.Row(m).vals
    ensures var env := EnvOf(t, data, request, choices);
            n in NetsOf(t, m) && Attr(env, m, n) == AttrName(|NetsOf(t, m)|, m, n)
  {
    AssignKeys(t);
    AssignRow(t, m);
  }

  lemma AssignedDiffer(t: Topology, nets: map<Name, Subnet>, ips: map<Name, Interface>, chosen: seq<Interface>,
                       m: Name, m2: Name, n: Name)
    requires SingleMembership(t) && n in NetsOf(t, m) && n in NetsOf(t, m2) && m != m2
    requires var d := MachinesByNet(t); var places := Places(d, |d.keys|);
             |chosen| == |places| && ChosenWell(nets, places, chosen) && Unambiguous(places)
    ensures var d := MachinesByNet(t); var places := Places(d, |d.keys|);
            var w := Written(ips, places, chosen);
            var a, a2 := AttrName(|NetsOf(t, m)|, m, n), AttrName(|NetsOf(t, m2)|, m2, n);
            a in w && a2 in w && w[a].ip != w[a2].ip
  {
    hide NetsOf, MachinesByNet, Places, Written, Picked;
    var p := AssignedAddress(t, nets, ips, chosen, m, n);
    var p2 := AssignedAddress(t, nets, ips, chosen, m2, n);
    assert chosen[p] != chosen[p2];
  }

  // ----- exactly when the names allow it -----

  /** The machine and the network at place `p` */
  lemma {:induction false} PlaceIs(d: Dict<Name, seq<Name>>, k: nat, p: nat) returns (j: nat, i: nat)
    requires k <= |d.keys| && p < |Places(d, k)|
    ensures j < k && i < |d.GetOr(d.keys[j], [])|
    ensures var nets := d.GetOr(d.keys[j], []);
            Places(d, k)[p] == Place(d.keys[j], nets[i], AttrName(|nets|, d.keys[j], nets[i]))
    ensures p == |Places(d, j)| + i
  {
    if p < |Places(d, k - 1)| {
      j, i := PlaceIs(d, k - 1, p);
    } else {
      j, i := k - 1, p - |Places(d, k - 1)|;
    }
  }

  /** A machine has one place on each of its networks. */
  lemma PlaceOnce(t: Topology, p: nat, q: nat)
    requires UniqueNames(t) && SingleMembership(t)
    requires var d := MachinesByNet(t); var places := Places(d, |d.keys|);
             && p < |places| && q < |places|
             && places[p].machine == places[q].machine && places[p].net == places[q].net
    ensures p == q
  {
    var d := MachinesByNet(t);
    var j, i := PlaceIs(d, |d.keys|, p);
    var j2, i2 := PlaceIs(d, |d.keys|, q);
    MachinesByNetKeys(t);
    hide MachinesByNet, Machines, Places;
    assert j == j2;
    ListsAreNumbered(t, d.keys[j]);
    NetsOfDistinct(t, d.keys[j]);
  }

  /** Each place is a machine of the lab on one of its networks, with the attribute that the lookups use. */
  lemma PlaceInLab(t: Topology, data: Data, request: Request, choices: Choices, p: nat)
    requires UniqueNames(t) && SingleMembership(t)
    requires var d := MachinesByNet(t); p < |Places(d, |d.keys|)|
    ensures var d := MachinesByNet(t); var place := Places(d, |d.keys|)[p];
            var env := EnvOf(t, data, request, choices);
            && place.machine in env.ifaces.vals && place.net in env.Row(place.machine).vals
            && Attr(env, place.machine, place.net) == place.attr
            && place.net in NetNames(t)
  {
    var d := MachinesByNet(t);
    var j, i := PlaceIs(d, |d.keys|, p);
    var m := d.keys[j];
    ListsAreNumbered(t, m);
    AssignKeys(t);
    RowsOf(t, m);
    hide MachinesByNet, Places, Assign, NetsOf, Machines;
    assert NetsOf(t, m)[i] in NetsOf(t, m);
  }

  /** In a completely addressed lab with disjoint networks, an attribute belongs to one machine on one
      network. */
  lemma AttrOnce(env: Env, f: Family, m: Name, n: Name, m2: Name, n2: Name)
    requires Addressed(env, f) && DisjointNets(env, f)
    requires m in env.ifaces.vals && n in env.Row(m).vals && n in NetNames(env.topology)
    requires m2 in env.ifaces.vals && n2 in env.Row(m2).vals && n2 in NetNames(env.topology)
    requires Attr(env, m, n) == Attr(env, m2, n2)
    ensures m == m2 && n == n2
  {
  }

  /** Assigned addresses, on disjoint networks, address the lab completely if and only if no two
      places have the same attribute. */
  lemma AddressedExactly(t: Topology, data: Data, request: Request, choices: Choices, f: Family,
                         before: map<Name, Interface>, chosen: seq<Interface>)
    requires UniqueNames(t) && SingleMembership(t)
    requires data.Typed() && f in request.Families()
    requires forall n :: n in NetNames(t) ==> n in data.Nets(f)
    requires DisjointNets(EnvOf(t, data, request, choices), f)
    requires var d := MachinesByNet(t); var places := Places(d, |d.keys|);
             && |chosen| == |places| && ChosenWell(data.Nets(f), places, chosen)
             && data.Ips(f) == Written(before, places, chosen)
    ensures var d := MachinesByNet(t);
            Addressed(EnvOf(t, data, request, choices), f) <==> Unambiguous(Places(d, |d.keys|))
  {
    var env := EnvOf(t, data, request, choices);
    var d := MachinesByNet(t);
    var places := Places(d, |d.keys|);
    hide Addressed, DisjointNets, MachinesByNet, Places, Written, ChosenWell, EnvOf;
    if Unambiguous(places) {
      AssignedIsAddressed(t, data, request, choices, f, before, chosen);
    }
    if Addressed(env, f) {
      forall i, j | 0 <= i < j < |places|
        ensures places[i].attr != places[j].attr
      {
        PlaceInLab(t, data, request, choices, i);
        PlaceInLab(t, data, request, choices, j);
        assert env.topology == t by {
          EnvTopology(t, data, request, choices);
        }
        if places[i].attr == places[j].attr {
          AttrOnce(env, f, places[i].machine, places[i].net, places[j].machine, places[j].net);
          PlaceOnce(t, i, j);
          assert false;
        }
      }
    }
  }

  lemma EnvTopology(t: Topology, data: Data, request: Request, choices: Choices)
    ensures EnvOf(t, data, request, choices).topology == t
  {
  }

  function AmbiguousLab(): Topology {
    [Network("b_c", [Attachment("a", None)]),
     Network("c", [Attachment("a", None), Attachment("a_b", None)]),
     Network("d", [Attachment("a_b", None)])]
  }

  lemma AmbiguousNets()
    ensures NetsOf(AmbiguousLab(), "a") == ["b_c", "c"] && NetsOf(AmbiguousLab(), "a_b") == ["c", "d"]
  {
    var t := AmbiguousLab();
    assert t[0].members[0].machine == "a" && t[1].members[0].machine == "a";
    assert t[1].members[1].machine == "a_b" && t[2].members[0].machine == "a_b";
    assert HasMember(t[0], "a") && HasMember(t[1], "a") && !HasMember(t[2], "a");
    assert !HasMember(t[0], "a_b") && HasMember(t[1], "a_b") && HasMember(t[2], "a_b");
    NetsOfThree(t[0], t[1], t[2], "a");
    NetsOfThree(t[0], t[1], t[2], "a_b");
    assert t == [t[0], t[1], t[2]];
    hide HasMember, NetsOf;
  }

  lemma NetsOfThree(a: Network, b: Network, c: Network, m: Name)
    ensures NetsOf([a, b, c], m) == (if HasMember(a, m) then [a.name] else []) + (if HasMember(b, m) then [b.name] else [])
                                    + (if HasMember(c, m) then [c.name] else [])
  {
    assert NetsOf([], m) == [];
    hide HasMember, NetsOf;
    NetsOfNext([], a, m);
    NetsOfNext([a], b, m);
    NetsOfNext([a, b], c, m);
    assert [] + [a] == [a] && [a] + [b] == [a, b] && [a, b] + [c] == [a, b, c];
  }

  /** A lab whose names are ambiguous: the address of `a` on `b_c` and the one of `a_b` on `c` are the
      attribute `a_b_c`, although machines and networks differ. */
  lemma AmbiguousNames()
    ensures UniqueNames(AmbiguousLab()) && SingleMembership(AmbiguousLab())
    ensures var d := MachinesByNet(AmbiguousLab()); !Unambiguous(Places(d, |d.keys|))
  {
    AmbiguousNets();
    hide NetsOf, Places, MachinesByNet;
    var p := PlaceIn(AmbiguousLab(), "a", "b_c");
    var q := PlaceIn(AmbiguousLab(), "a_b", "c");
    assert AttrName(2, "a", "b_c") == AttrName(2, "a_b", "c");
    assert p != q;
  }

  /** Networks drawn together, one for each name, are disjoint. */
  lemma AllocatedAreDisjoint(env: Env, f: Family, masks: seq<int>, from: Subnet, exclude: seq<Subnet>, private: bool,
                             drawn: seq<Subnet>, index: map<Name, nat>)
    requires Allocated(masks, from, exclude, private, drawn)
    requires forall n :: n in NetNames(env.topology) ==>
               n in index && index[n] < |drawn| && n in env.data.Nets(f) && env.data.Nets(f)[n] == drawn[index[n]]
    requires forall n, n2 :: n in NetNames(env.topology) && n2 in NetNames(env.topology) && n != n2 ==> index[n] != index[n2]
    ensures DisjointNets(env, f)
  {
  }
}
