/**
 The round trip of the interfaces file, for both families, and what it keeps of an entry.
 */
module InterfacesTheorem {
  import opened Wrappers
  import opened IpAddresses
  import opened NetConfigs
  import opened Sorting
  import opened InterfacesFile
  import opened InterfacesStanza
  import opened InterfacesRoundTrip

  // ----- what comes back -----

  function LastOf(routes: seq<Route>): seq<Route> {
    if routes == [] then [] else [routes[|routes| - 1]]
  }

  /** One family of an entry: its last default route first, then its other routes, then the routes of a
      family without address. */
  function Part(e: InterfaceConfig, f: Family, ipv6: bool): Option<InterfaceConfig> {
    if !Kept(e, f, ipv6) then None
    else
      var own := RoutesOf(e.routes, f);
      var extra := if OfFamily(e.addresses, Other(f)) == [] then RoutesOf(e.routes, Other(f)) else [];
      Some(Static(OfFamily(e.addresses, f),
                  LastOf(Defaults(own, f, true)) + (Defaults(own, f, false) + Seen(extra, ipv6))))
  }

  function View(e: InterfaceConfig, ipv6: bool): InterfaceConfig {
    if !e.Static? then e
    else
      var four, six := Part(e, V4, ipv6), Part(e, V6, ipv6);
      if four.None? && six.None? then Unconfigured
      else if !ipv6 then four.value
      else Merged(four, six)
  }

  /** The entries without the unconfigured interfaces */
  function Views(nc: MachineConfig, k: nat, ipv6: bool): MachineConfig
    requires k <= |nc|
  {
    if k == 0 then []
    else Views(nc, k - 1, ipv6) + (if nc[k - 1].Unconfigured? then [] else [View(nc[k - 1], ipv6)])
  }

  function Names(nc: MachineConfig, k: nat): seq<string>
    requires k <= |nc|
  {
    if k == 0 then [] else Names(nc, k - 1) + (if nc[k - 1].Unconfigured? then [] else [Eth(k - 1)])
  }

  lemma FinalizedIs(e: InterfaceConfig, f: Family, ipv6: bool, masks: Netmasks)
    requires Kept(e, f, ipv6)
    ensures Finalized(BucketOf(e, f, ipv6), f, masks) == (Part(e, f, ipv6), 0)
  {
    hide OfFamily, RoutesOf, Defaults;
    var own := OfFamily(e.addresses, f);
    assert [own[0]] + own[1..] == own;
    LastIsDefault(RoutesOf(e.routes, f), f);
  }

  lemma LastIsDefault(routes: seq<Route>, f: Family)
    ensures var gates := Defaults(routes, f, true);
            gates != [] ==> gates[|gates| - 1] == Route(DefaultNet(f), gates[|gates| - 1].hop)
  {
    var gates := Defaults(routes, f, true);
    if gates != [] {
      DefaultsAre(routes, f, true, gates[|gates| - 1]);
    }
  }

  /** The entry that is made of what was recorded under a name */
  lemma EntryComesBack(nc: MachineConfig, n: nat, ipv6: bool, masks: Netmasks)
    requires n < |nc| && !nc[n].Unconfigured?
    ensures EntryOf(After(nc, |nc|, ipv6), Eth(n), ipv6, masks) == (View(nc[n], ipv6), 0)
  {
    hide After, Kept, BucketOf, Finalized, Part, Eth;
    AfterAt(nc, |nc|, n, ipv6);
    var e := nc[n];
    PartIsKept(e, V4, ipv6, masks);
    PartIsKept(e, V6, ipv6, masks);
  }

  lemma PartIsKept(e: InterfaceConfig, f: Family, ipv6: bool, masks: Netmasks)
    ensures Part(e, f, ipv6).Some? <==> Kept(e, f, ipv6)
    ensures Kept(e, f, ipv6) ==> e.Static? && (f == V6 ==> ipv6)
    ensures Kept(e, f, ipv6) ==> Finalized(BucketOf(e, f, ipv6), f, masks) == (Part(e, f, ipv6), 0)
  {
    hide OfFamily, RoutesOf, Defaults, Finalized, BucketOf;
    if Kept(e, f, ipv6) {
      FinalizedIs(e, f, ipv6, masks);
    }
  }

  lemma {:induction false} EntriesComeBack(nc: MachineConfig, k: nat, ipv6: bool, masks: Netmasks)
    requires k <= |nc|
    ensures EntriesOf(After(nc, |nc|, ipv6), Names(nc, k), ipv6, masks) == (Views(nc, k, ipv6), 0)
  {
    hide After, EntryOf, View, Eth;
    if k > 0 {
      EntriesComeBack(nc, k - 1, ipv6, masks);
      if !nc[k - 1].Unconfigured? {
        EntryComesBack(nc, k - 1, ipv6, masks);
        assert Names(nc, k)[..|Names(nc, k)| - 1] == Names(nc, k - 1);
      } else {
        assert Names(nc, k) == Names(nc, k - 1) && Views(nc, k, ipv6) == Views(nc, k - 1, ipv6);
      }
    }
  }

  // ----- the order of the names -----

  ghost predicate Strict(xs: seq<string>, key: string -> int) {
    forall i, j :: 0 <= i < j < |xs| ==> key(xs[i]) < key(xs[j])
  }

  /** A strictly ascending list is the only ascending one with its elements. */
  lemma {:induction false} OnlyOrder(xs: seq<string>, ys: seq<string>, key: string -> int)
    requires Ascending(xs, key) && Strict(ys, key) && multiset(xs) == multiset(ys)
    ensures xs == ys
    decreases |ys|
  {
    SameLength(xs, ys);
    if ys != [] {
      SameLast(xs, ys, key);
      WithoutLast(xs);
      WithoutLast(ys);
      OnlyOrder(xs[..|xs| - 1], ys[..|ys| - 1], key);
    }
  }

  lemma WithoutLast(xs: seq<string>)
    requires xs != []
    ensures multiset(xs[..|xs| - 1]) == multiset(xs) - multiset{xs[|xs| - 1]}
    ensures xs == xs[..|xs| - 1] + [xs[|xs| - 1]]
  {
    assert xs == xs[..|xs| - 1] + [xs[|xs| - 1]];
  }

  lemma SameLength(xs: seq<string>, ys: seq<string>)
    requires multiset(xs) == multiset(ys)
    ensures |xs| == |ys|
  {
    assert |multiset(xs)| == |xs| && |multiset(ys)| == |ys|;
  }

  lemma SameLast(xs: seq<string>, ys: seq<string>, key: string -> int)
    requires Ascending(xs, key) && Strict(ys, key) && multiset(xs) == multiset(ys) && |xs| == |ys| > 0
    ensures xs[|xs| - 1] == ys[|ys| - 1]
  {
    var x, y := xs[|xs| - 1], ys[|ys| - 1];
    assert x in multiset(xs) && y in multiset(ys);
    var i :| 0 <= i < |ys| && ys[i] == x;
    var j :| 0 <= j < |xs| && xs[j] == y;
  }

  lemma {:induction false} NamesAre(nc: MachineConfig, k: nat, name: string)
    requires k <= |nc|
    ensures name in Names(nc, k) <==> exists n :: 0 <= n < k && !nc[n].Unconfigured? && Eth(n) == name
  {
    hide Eth;
    if k > 0 {
      NamesAre(nc, k - 1, name);
    }
  }

  lemma {:induction false} NamesAscend(nc: MachineConfig, k: nat)
    requires k <= |nc|
    ensures Strict(Names(nc, k), EthNumber())
    ensures forall m :: m in Names(nc, k) ==> EthNumber()(m) < k
  {
    hide Eth, EthNumber;
    if k > 0 {
      NamesAscend(nc, k - 1);
      EthIsEth(k - 1);
      var front := Names(nc, k - 1);
      if !nc[k - 1].Unconfigured? {
        StrictMore(front, Eth(k - 1), EthNumber(), k - 1);
      } else {
        assert Names(nc, k) == front;
      }
    }
  }

  lemma StrictMore(xs: seq<string>, x: string, key: string -> int, bound: int)
    requires Strict(xs, key) && (forall m :: m in xs ==> key(m) < bound) && key(x) == bound
    ensures Strict(xs + [x], key) && forall m :: m in xs + [x] ==> key(m) < bound + 1
  {
  }

  /** The interfaces that the parser knows are the configured ones. */
  lemma KnownAre(nc: MachineConfig, ipv6: bool, name: string)
    ensures name in KnownNames(After(nc, |nc|, ipv6)) <==> name in Names(nc, |nc|)
  {
    var p := After(nc, |nc|, ipv6);
    NamesAre(nc, |nc|, name);
    AfterNames(nc, |nc|, name, ipv6);
    if name in Names(nc, |nc|) {
      var n :| 0 <= n < |nc| && !nc[n].Unconfigured? && Eth(n) == name;
      AfterAt(nc, |nc|, n, ipv6);
      EthIsEth(n);
      hide After, Eth, Kept, IsEth, Names;
      assert name in p.auto;
    } else if name in KnownNames(p) {
      NotKnown(nc, ipv6, name);
    }
  }

  lemma NotKnown(nc: MachineConfig, ipv6: bool, name: string)
    requires name in KnownNames(After(nc, |nc|, ipv6))
    ensures name in Names(nc, |nc|)
  {
    hide Names, IsEth;
    var p := After(nc, |nc|, ipv6);
    NamesAre(nc, |nc|, name);
    AfterNames(nc, |nc|, name, ipv6);
    LoIsNotEth();
    assert IsEth(name);
    AfterAt0(nc, ipv6);
    assert name in p.auto || name in p.dhcp || exists f :: Place(name, f) in p.data by {
      hide After;
      if name !in p.auto && name !in p.dhcp {
        var place :| place in p.data && place.name == name;
        assert Place(name, place.family) in p.data;
      }
    }
    hide After, Eth, Kept;
    var n :| 0 <= n < |nc| && Eth(n) == name;
    AfterAt(nc, |nc|, n, ipv6);
    if nc[n].Unconfigured? {
      KeptIsStatic(nc[n], ipv6);
    }
  }

  lemma AfterAt0(nc: MachineConfig, ipv6: bool)
    ensures After(nc, |nc|, ipv6).dyn6 == {}
  {
    if |nc| > 0 {
      AfterAt(nc, |nc|, 0, ipv6);
    }
  }

  lemma LoIsNotEth()
    ensures !IsEth("lo")
  {
  }

  lemma KeptIsStatic(e: InterfaceConfig, ipv6: bool)
    ensures e.Unconfigured? ==> forall f :: !Kept(e, f, ipv6)
  {
  }

  lemma {:induction false} StrictOnce(xs: seq<string>, key: string -> int, x: string)
    requires Strict(xs, key)
    ensures multiset(xs)[x] == if x in xs then 1 else 0
  {
    if xs != [] {
      var front, last := xs[..|xs| - 1], xs[|xs| - 1];
      StrictOnce(front, key, x);
      assert xs == front + [last];
      assert forall i :: 0 <= i < |front| ==> key(xs[i]) < key(last);
    }
  }

  /** Whatever the order of the set, the sorted names are the configured interfaces in order. */
  lemma SortedNames(nc: MachineConfig, ipv6: bool, order: seq<string>)
    requires multiset(order) == multiset(KnownNames(After(nc, |nc|, ipv6)))
    ensures SortBy(order, EthNumber()) == Names(nc, |nc|)
  {
    var known, names := KnownNames(After(nc, |nc|, ipv6)), Names(nc, |nc|);
    hide KnownNames, After, Names, SortBy, EthNumber;
    NamesAscend(nc, |nc|);
    forall name: string
      ensures multiset(known)[name] == multiset(names)[name]
    {
      KnownAre(nc, ipv6, name);
      StrictOnce(names, EthNumber(), name);
    }
    assert multiset(known) == multiset(names);
    SortByIs(order, EthNumber(), 0);
    OnlyOrder(SortBy(order, EthNumber()), names, EthNumber());
  }

  // ----- the theorem -----

  /** Parsing the rendered file gives no error and the configured interfaces, each seen from the families
      that are parsed, for every order of the set of names. */
  lemma ParseRendered(nc: MachineConfig, ipv6: bool, masks: Netmasks, order: seq<string>)
    requires forall e :: e in nc ==> GoodEntry(e)
    ensures Rendered(nc, |nc|).Some?
    ensures var p := Run(Nothing, Rendered(nc, |nc|).value, ipv6);
      && p.errors == 0
      && (multiset(order) == multiset(KnownNames(p)) ==>
            EntriesOf(p, SortBy(order, EthNumber()), ipv6, masks) == (Views(nc, |nc|, ipv6), 0))
  {
    hide GoodEntry, Rendered, Run, KnownNames, EntriesOf, SortBy, After, EthNumber;
    RunRendered(nc, |nc|, ipv6);
    NoErrors(nc, ipv6);
    if multiset(order) == multiset(KnownNames(After(nc, |nc|, ipv6))) {
      SortedNames(nc, ipv6, order);
      EntriesComeBack(nc, |nc|, ipv6, masks);
    }
  }

  lemma NoErrors(nc: MachineConfig, ipv6: bool)
    ensures After(nc, |nc|, ipv6).errors == 0
  {
    if |nc| > 0 {
      AfterAt(nc, |nc|, 0, ipv6);
    }
  }

  // ----- what a view keeps -----

  lemma {:induction false} CountParts(routes: seq<Route>, f: Family, r: Route)
    ensures multiset(RoutesOf(routes, f))[r] == if r.net.family == f then multiset(routes)[r] else 0
  {
    if routes != [] {
      CountParts(routes[..|routes| - 1], f, r);
      assert routes == routes[..|routes| - 1] + [routes[|routes| - 1]];
    }
  }

  lemma {:induction false} CountDefaults(routes: seq<Route>, f: Family, wanted: bool, r: Route)
    ensures multiset(Defaults(routes, f, wanted))[r] == if (r.net == DefaultNet(f)) == wanted then multiset(routes)[r] else 0
  {
    if routes != [] {
      var front, last := routes[..|routes| - 1], routes[|routes| - 1];
      CountDefaults(front, f, wanted, r);
      assert routes == front + [last];
      assert multiset(routes)[r] == multiset(front)[r] + (if last == r then 1 else 0);
      hide DefaultNet;
      if (last.net == DefaultNet(f)) == wanted {
        assert Defaults(routes, f, wanted) == Defaults(front, f, wanted) + [last];
      } else {
        assert Defaults(routes, f, wanted) == Defaults(front, f, wanted);
      }
    }
  }

  lemma {:induction false} CountAddresses(addresses: seq<Interface>, f: Family, i: Interface)
    ensures multiset(OfFamily(addresses, f))[i] == if i.ip.family == f then multiset(addresses)[i] else 0
  {
    if addresses != [] {
      CountAddresses(addresses[..|addresses| - 1], f, i);
      assert addresses == addresses[..|addresses| - 1] + [addresses[|addresses| - 1]];
    }
  }

  /** A family with an address has at most one default route. */
  predicate OneDefault(e: InterfaceConfig) {
    e.Static? ==> forall f :: OfFamily(e.addresses, f) != [] ==> |Defaults(RoutesOf(e.routes, f), f, true)| <= 1
  }

  /** The addresses of an entry are all there when both families are parsed; its routes are all there
      exactly when it has one default route at most for each family with an address. */
  lemma ViewKeeps(e: InterfaceConfig)
    requires GoodEntry(e) && e.Static?
    ensures View(e, true).Static?
    ensures multiset(View(e, true).addresses) == multiset(e.addresses)
    ensures multiset(View(e, true).routes) == multiset(e.routes) <==> OneDefault(e)
  {
    hide OneDefault, View, OfFamily, RoutesOf, Defaults;
    SomeFamily(e.addresses);
    ViewIsStatic(e);
    var v := View(e, true);
    forall i: Interface
      ensures multiset(v.addresses)[i] == multiset(e.addresses)[i]
    {
      AddressCount(e, i);
    }
    assert multiset(v.addresses) == multiset(e.addresses);
    if OneDefault(e) {
      forall r: Route
        ensures multiset(v.routes)[r] == multiset(e.routes)[r]
      {
        RouteCount(e, r);
      }
      assert multiset(v.routes) == multiset(e.routes);
    } else {
      FewerRoutes(e);
      assert |multiset(v.routes)| == |v.routes| && |multiset(e.routes)| == |e.routes|;
    }
  }

  lemma ViewIsStatic(e: InterfaceConfig)
    requires e.Static? && (OfFamily(e.addresses, V4) != [] || OfFamily(e.addresses, V6) != [])
    ensures View(e, true).Static?
  {
    hide OfFamily, RoutesOf, Defaults;
  }

  lemma {:induction false} PartLengths(routes: seq<Route>)
    ensures |RoutesOf(routes, V4)| + |RoutesOf(routes, V6)| == |routes|
  {
    if routes != [] {
      PartLengths(routes[..|routes| - 1]);
    }
  }

  lemma {:induction false} DefaultLengths(routes: seq<Route>, f: Family)
    ensures |Defaults(routes, f, true)| + |Defaults(routes, f, false)| == |routes|
  {
    if routes != [] {
      DefaultLengths(routes[..|routes| - 1], f);
    }
  }

  /** A second default route of a family is lost. */
  lemma FewerRoutes(e: InterfaceConfig)
    requires GoodEntry(e) && e.Static? && !OneDefault(e)
    ensures |View(e, true).routes| < |e.routes|
  {
    hide RoutesOf, Defaults, OfFamily, GoodEntry, Part, OneDefault;
    PartLengths(e.routes);
    var f := TwoDefaults(e);
    PartLength(e, V4);
    PartLength(e, V6);
  }

  lemma TwoDefaults(e: InterfaceConfig) returns (f: Family)
    requires e.Static? && !OneDefault(e)
    ensures OfFamily(e.addresses, f) != [] && |Defaults(RoutesOf(e.routes, f), f, true)| > 1
    ensures f == V4 || f == V6
  {
    f :| OfFamily(e.addresses, f) != [] && |Defaults(RoutesOf(e.routes, f), f, true)| > 1;
  }

  lemma PartLength(e: InterfaceConfig, f: Family)
    requires e.Static?
    ensures Part(e, f, true).Some? <==> OfFamily(e.addresses, f) != []
    ensures Part(e, f, true).Some? ==>
              var own, extra := RoutesOf(e.routes, f), if OfFamily(e.addresses, Other(f)) == [] then RoutesOf(e.routes, Other(f)) else [];
              && Part(e, f, true).value.Static?
              && |Part(e, f, true).value.routes| <= |own| + |extra|
              && (|Defaults(own, f, true)| > 1 ==> |Part(e, f, true).value.routes| < |own| + |extra|)
  {
    DefaultLengths(RoutesOf(e.routes, f), f);
    hide RoutesOf, Defaults, OfFamily;
  }

  lemma {:induction false} SomeFamily(addresses: seq<Interface>)
    ensures addresses != [] ==> OfFamily(addresses, V4) != [] || OfFamily(addresses, V6) != []
  {
    if addresses != [] {
      var last := addresses[|addresses| - 1];
      OfFamilyIs(addresses, last.ip.family, last);
    }
  }

  lemma AddressCount(e: InterfaceConfig, i: Interface)
    requires e.Static? && (OfFamily(e.addresses, V4) != [] || OfFamily(e.addresses, V6) != [])
    ensures multiset(View(e, true).addresses)[i] == multiset(e.addresses)[i]
  {
    CountAddresses(e.addresses, V4, i);
    CountAddresses(e.addresses, V6, i);
    hide OfFamily, Defaults, RoutesOf, LastOf;
  }

  lemma LastOfOne(routes: seq<Route>)
    requires |routes| <= 1
    ensures LastOf(routes) == routes
  {
  }

  /** The routes of one family in a part */
  lemma OwnCount(e: InterfaceConfig, f: Family, r: Route)
    requires e.Static? && OneDefault(e) && OfFamily(e.addresses, f) != []
    ensures var own := RoutesOf(e.routes, f);
      multiset(LastOf(Defaults(own, f, true)))[r] + multiset(Defaults(own, f, false))[r]
      == if r.net.family == f then multiset(e.routes)[r] else 0
  {
    var own := RoutesOf(e.routes, f);
    LastOfOne(Defaults(own, f, true));
    CountDefaults(own, f, true, r);
    CountDefaults(own, f, false, r);
    CountParts(e.routes, f, r);
  }

  lemma RouteCount(e: InterfaceConfig, r: Route)
    requires e.Static? && OneDefault(e) && (OfFamily(e.addresses, V4) != [] || OfFamily(e.addresses, V6) != [])
    ensures multiset(View(e, true).routes)[r] == multiset(e.routes)[r]
  {
    hide OfFamily, Defaults, RoutesOf, LastOf, OneDefault;
    CountParts(e.routes, V4, r);
    CountParts(e.routes, V6, r);
    if OfFamily(e.addresses, V4) != [] {
      OwnCount(e, V4, r);
    }
    if OfFamily(e.addresses, V6) != [] {
      OwnCount(e, V6, r);
    }
  }

  /** When all is IPv4, both ways of parsing agree: the default route comes first, the other routes follow in
      order. */
  lemma ViewOfIpv4(e: InterfaceConfig, ipv6: bool)
    requires GoodEntry(e) && e.Static?
    requires (forall i :: i in e.addresses ==> i.ip.family == V4) && (forall r :: r in e.routes ==> r.net.family == V4)
    ensures View(e, ipv6) == Static(e.addresses, LastOf(Defaults(e.routes, V4, true)) + Defaults(e.routes, V4, false))
  {
    AllAddresses(e.addresses);
    AllRoutes(e.routes);
    assert e.addresses != [];
    hide OfFamily, RoutesOf, Defaults, LastOf, GoodEntry, Merged;
    var plain := Defaults(e.routes, V4, false);
    var routes := LastOf(Defaults(e.routes, V4, true)) + plain;
    assert plain + Seen([], ipv6) == plain;
    assert Part(e, V4, ipv6) == Some(Static(e.addresses, routes)) && Part(e, V6, ipv6) == None;
    MergedAlone(e.addresses, routes);
  }

  lemma MergedAlone(addresses: seq<Interface>, routes: seq<Route>)
    ensures Merged(Some(Static(addresses, routes)), None) == Static(addresses, routes)
  {
    assert addresses + [] == addresses && routes + [] == routes;
  }

  lemma {:induction false} AllAddresses(addresses: seq<Interface>)
    requires forall i :: i in addresses ==> i.ip.family == V4
    ensures OfFamily(addresses, V4) == addresses && OfFamily(addresses, V6) == []
  {
    if addresses != [] {
      AllAddresses(addresses[..|addresses| - 1]);
      assert addresses[|addresses| - 1] in addresses;
      assert addresses == addresses[..|addresses| - 1] + [addresses[|addresses| - 1]];
    }
  }

  lemma {:induction false} AllRoutes(routes: seq<Route>)
    requires forall r :: r in routes ==> r.net.family == V4
    ensures RoutesOf(routes, V4) == routes && RoutesOf(routes, V6) == []
  {
    if routes != [] {
      AllRoutes(routes[..|routes| - 1]);
      assert routes[|routes| - 1] in routes;
      assert routes == routes[..|routes| - 1] + [routes[|routes| - 1]];
    }
  }

  lemma PartsOfTwo(r: Route, r2: Route)
    requires r.net == DefaultNet(V4) && r2.net == DefaultNet(V4)
    ensures RoutesOf([r, r2], V4) == [r, r2] && Defaults([r, r2], V4, true) == [r, r2]
  {
    assert [r, r2][..1] == [r] && [r][..0] == [];
    assert RoutesOf([r], V4) == [r] && Defaults([r], V4, true) == [r];
  }

  /** An entry with two default routes of one family: one of them is lost. */
  lemma SecondDefaultIsLost(i: Interface, h: Address, h2: Address)
    requires i.ip.family == V4 && i.len <= 32 && h.family == V4 && h2.family == V4
    ensures var e := Static([i], [Route(DefaultNet(V4), h), Route(DefaultNet(V4), h2)]);
            GoodEntry(e) && View(e, true).Static? && multiset(View(e, true).routes) != multiset(e.routes)
  {
    var r, r2 := Route(DefaultNet(V4), h), Route(DefaultNet(V4), h2);
    var e := Static([i], [r, r2]);
    hide View, RoutesOf, Defaults;
    assert GoodEntry(e);
    assert !OneDefault(e) by {
      PartsOfTwo(r, r2);
      assert OfFamily([i], V4) == [i];
    }
    hide OneDefault, GoodEntry, OfFamily;
    ViewKeeps(e);
  }
}
