/**
 What a whole rendered entry does to the parser.
 */
module InterfacesStanza {
  import opened Wrappers
  import opened IpAddresses
  import opened NetConfigs
  import opened InterfacesFile
  import opened InterfacesParse

  predicate GoodEntry(e: InterfaceConfig) {
    e.Static? ==> e.addresses != [] && (forall i :: i in e.addresses ==> GoodAddress(i)) && (forall r :: r in e.routes ==> GoodRoute(r))
  }

  /** The routes that the parser of a family sees */
  function Seen(extra: seq<Route>, ipv6: bool): seq<Route> {
    if ipv6 then extra else []
  }

  /** What a stanza fills in */
  function Filled(f: Family, addresses: seq<Interface>, routes: seq<Route>, extra: seq<Route>, ipv6: bool): Bucket
    requires addresses != []
  {
    Bucket(Some(addresses[0]), true, None, addresses[1..], Defaults(routes, f, false) + Seen(extra, ipv6),
           LastHop(Defaults(routes, f, true), None))
  }

  // ----- the parts of a list by family -----

  lemma {:induction false} OfFamilyIs(addresses: seq<Interface>, f: Family, i: Interface)
    ensures i in OfFamily(addresses, f) <==> i in addresses && i.ip.family == f
  {
    if addresses != [] {
      OfFamilyIs(addresses[..|addresses| - 1], f, i);
      assert addresses == addresses[..|addresses| - 1] + [addresses[|addresses| - 1]];
    }
  }

  lemma {:induction false} RoutesOfIs(routes: seq<Route>, f: Family, r: Route)
    ensures r in RoutesOf(routes, f) <==> r in routes && r.net.family == f
  {
    if routes != [] {
      RoutesOfIs(routes[..|routes| - 1], f, r);
      assert routes == routes[..|routes| - 1] + [routes[|routes| - 1]];
    }
  }

  lemma {:induction false} DefaultsAre(routes: seq<Route>, f: Family, wanted: bool, r: Route)
    ensures r in Defaults(routes, f, wanted) <==> r in routes && (r.net == DefaultNet(f)) == wanted
  {
    if routes != [] {
      DefaultsAre(routes[..|routes| - 1], f, wanted, r);
      assert routes == routes[..|routes| - 1] + [routes[|routes| - 1]];
    }
  }

  // ----- a stanza -----

  ghost predicate GoodStanza(f: Family, addresses: seq<Interface>, routes: seq<Route>, extra: seq<Route>) {
    && addresses != []
    && (forall i :: i in addresses ==> GoodAddress(i) && i.ip.family == f)
    && (forall r :: r in routes ==> GoodRoute(r) && r.net.family == f)
    && (forall r :: r in extra ==> GoodRoute(r) && r.net.family == Other(f))
  }

  lemma IfaceStarts(p: Parse, name: string, f: Family, ipv6: bool)
    requires p.current.Some? ==> p.current.value in p.data
    requires Place(name, f) !in p.data && (f == V4 || ipv6)
    ensures Step(p, [Key("iface"), Key(name), InetWord(f), Key("static")], ipv6)
         == p.(current := Some(Place(name, f)), ignored := false, data := p.data[Place(name, f) := NewBucket])
  {
  }

  lemma RunStanza(p: Parse, name: string, f: Family, addresses: seq<Interface>, routes: seq<Route>,
                  extra: seq<Route>, ipv6: bool)
    requires p.current.Some? ==> p.current.value in p.data
    requires GoodStanza(f, addresses, routes, extra) && Place(name, f) !in p.data && (f == V4 || ipv6)
    ensures Run(p, Stanza(name, f, addresses, routes, extra), ipv6)
         == p.(current := Some(Place(name, f)), ignored := false,
               data := p.data[Place(name, f) := Filled(f, addresses, routes, extra, ipv6)])
  {
    hide Step, Run, InetWord, Filled, GoodStanza, GoodAddress, AddressLines, GatewayLines, RouteLines, Defaults;
    var place := Place(name, f);
    var line := [Key("iface"), Key(name), InetWord(f), Key("static")];
    StanzaFacts(f, addresses, routes, extra);
    var p1 := p.(current := Some(place), ignored := false, data := p.data[place := NewBucket]);
    IfaceStarts(p, name, f, ipv6);
    RunOne(p, line, ipv6);
    var b1 := NewBucket.(primary := Some(addresses[0]), hasPrefix := true);
    var first := [Key("address"), Cidr(addresses[0].ip, addresses[0].len)];
    AddressStep(p1, place, NewBucket, addresses[0], ipv6);
    RunOne(p1, first, ipv6);
    RunBody(p1.With(b1), name, f, addresses, routes, extra, ipv6);
    RunAppend(p, [line], [first], ipv6);
    RunAppend(p, [line] + [first], Body(name, f, addresses, routes, extra), ipv6);
    assert Stanza(name, f, addresses, routes, extra) == [line] + [first] + Body(name, f, addresses, routes, extra);
    var filled := Filled(f, addresses, routes, extra, ipv6);
    assert p1.With(b1).With(filled) == p.(current := Some(place), ignored := false, data := p.data[place := filled]);
  }

  /** The lines after the first address */
  function Body(name: string, f: Family, addresses: seq<Interface>, routes: seq<Route>, extra: seq<Route>): seq<Line>
    requires addresses != []
  {
    AddressLines(name, addresses[1..]) + GatewayLines(Defaults(routes, f, true))
    + RouteLines(name, Defaults(routes, f, false)) + RouteLines(name, extra)
  }

  lemma RunBody(p: Parse, name: string, f: Family, addresses: seq<Interface>, routes: seq<Route>, extra: seq<Route>, ipv6: bool)
    requires GoodStanza(f, addresses, routes, extra) && (f == V4 || ipv6)
    requires Active(p, Place(name, f), NewBucket.(primary := Some(addresses[0]), hasPrefix := true))
    ensures Run(p, Body(name, f, addresses, routes, extra), ipv6) == p.With(Filled(f, addresses, routes, extra, ipv6))
  {
    hide Step, Run, GoodStanza, GoodAddress, GoodRoute, AddressLines, GatewayLines, RouteLines, Defaults, LastHop, Seen, Active,
         Parse.With;
    StanzaFacts(f, addresses, routes, extra);
    var place := Place(name, f);
    var b1 := NewBucket.(primary := Some(addresses[0]), hasPrefix := true);
    var gates, plain := Defaults(routes, f, true), Defaults(routes, f, false);
    var c, d, e, g := AddressLines(name, addresses[1..]), GatewayLines(gates), RouteLines(name, plain), RouteLines(name, extra);
    assert [] + addresses[1..] == addresses[1..] && [] + plain == plain;

    RunAddresses(p, place, b1, addresses[1..], name, ipv6);
    var b2 := b1.(extras := addresses[1..]);
    WithTwice(p, place, b1, b2, b2.(gateway := LastHop(gates, None)));

    RunGateways(p.With(b2), place, b2, gates, ipv6);
    var b3 := b2.(gateway := LastHop(gates, None));
    RunAppend(p, c, d, ipv6);
    WithTwice(p, place, b1, b3, b3.(routes := plain));

    RunRoutes(p.With(b3), place, b3, plain, name, ipv6);
    var b4 := b3.(routes := plain);
    RunAppend(p, c + d, e, ipv6);
    WithTwice(p, place, b1, b4, b4.(routes := plain + Seen(extra, ipv6)));

    RunExtra(p.With(b4), place, b4, extra, name, ipv6);
    RunAppend(p, c + d + e, g, ipv6);
  }

  lemma WithTwice(p: Parse, place: Place, b: Bucket, b1: Bucket, b2: Bucket)
    requires Active(p, place, b)
    ensures p.current.Some? && p.current.value in p.data
    ensures Active(p.With(b1), place, b1) && p.With(b1).With(b2) == p.With(b2)
  {
  }

  lemma StanzaFacts(f: Family, addresses: seq<Interface>, routes: seq<Route>, extra: seq<Route>)
    requires GoodStanza(f, addresses, routes, extra)
    ensures addresses != [] && GoodAddress(addresses[0]) && addresses[0].ip.family == f
    ensures forall i :: i in addresses[1..] ==> GoodAddress(i) && i.ip.family == f
    ensures forall r :: r in Defaults(routes, f, true) ==> r.hop.family == f
    ensures forall r :: r in Defaults(routes, f, false) ==> GoodRoute(r) && r.net.family == f
    ensures forall r :: r in extra ==> GoodRoute(r) && r.net.family == Other(f)
  {
    forall r | r in Defaults(routes, f, true)
      ensures r.hop.family == f
    {
      DefaultsAre(routes, f, true, r);
    }
    forall r | r in Defaults(routes, f, false)
      ensures GoodRoute(r) && r.net.family == f
    {
      DefaultsAre(routes, f, false, r);
    }
  }

  lemma RunExtra(p: Parse, place: Place, b: Bucket, extra: seq<Route>, name: string, ipv6: bool)
    requires Active(p, place, b) && (place.family == V4 || ipv6)
    requires forall r :: r in extra ==> GoodRoute(r) && r.net.family == Other(place.family)
    ensures Run(p, RouteLines(name, extra), ipv6) == p.With(b.(routes := b.routes + Seen(extra, ipv6)))
  {
    if ipv6 {
      RunRoutes(p, place, b, extra, name, ipv6);
    } else {
      RunUnseen(p, place, b, extra, name);
      assert b.routes + [] == b.routes && p.With(b) == p;
    }
  }

  // ----- a stanza that is skipped -----

  predicate SkippedOption(line: Line) {
    line == [] || line[0] == Key("address") || line[0] == Key("gateway") || line[0] == Key("post-up")
  }

  lemma {:induction false} RunSkipped(p: Parse, lines: seq<Line>, ipv6: bool)
    requires p.current.None? && p.ignored && forall l :: l in lines ==> SkippedOption(l)
    ensures Run(p, lines, ipv6) == p
  {
    hide Step;
    if lines != [] {
      var last := lines[|lines| - 1];
      assert last in lines;
      RunSkipped(p, lines[..|lines| - 1], ipv6);
      if last == [] {
        BlankStep(p, ipv6);
      } else {
        OptionIs(p, last, ipv6);
      }
    }
  }

  lemma {:induction false} AddressLinesAreOptions(name: string, extras: seq<Interface>)
    ensures forall l :: l in AddressLines(name, extras) ==> SkippedOption(l)
  {
    if extras != [] {
      AddressLinesAreOptions(name, extras[..|extras| - 1]);
    }
  }

  lemma {:induction false} GatewayLinesAreOptions(routes: seq<Route>)
    ensures forall l :: l in GatewayLines(routes) ==> SkippedOption(l)
  {
    if routes != [] {
      GatewayLinesAreOptions(routes[..|routes| - 1]);
    }
  }

  lemma {:induction false} RouteLinesAreOptions(name: string, routes: seq<Route>)
    ensures forall l :: l in RouteLines(name, routes) ==> SkippedOption(l)
  {
    if routes != [] {
      RouteLinesAreOptions(name, routes[..|routes| - 1]);
    }
  }

  lemma RunHidden(p: Parse, name: string, addresses: seq<Interface>, routes: seq<Route>, extra: seq<Route>)
    requires p.current.Some? ==> p.current.value in p.data
    requires addresses != []
    ensures Run(p, Stanza(name, V6, addresses, routes, extra), false) == p.(current := None, ignored := true)
  {
    hide Step, Run, SkippedOption, AddressLines, GatewayLines, RouteLines, Defaults;
    var line := [Key("iface"), Key(name), Key("inet6"), Key("static")];
    var first := [Key("address"), Cidr(addresses[0].ip, addresses[0].len)];
    var body := Body(name, V6, addresses, routes, extra);
    HiddenIface(p, name);
    RunOne(p, line, false);
    BodyIsSkipped(name, addresses, routes, extra);
    RunSkipped(p.(current := None, ignored := true), [first] + body, false);
    RunAppend(p, [line], [first] + body, false);
    assert Stanza(name, V6, addresses, routes, extra) == [line] + ([first] + body);
  }

  lemma BodyIsSkipped(name: string, addresses: seq<Interface>, routes: seq<Route>, extra: seq<Route>)
    requires addresses != []
    ensures var lines := [[Key("address"), Cidr(addresses[0].ip, addresses[0].len)]] + Body(name, V6, addresses, routes, extra);
            forall l :: l in lines ==> SkippedOption(l)
  {
    AddressLinesAreOptions(name, addresses[1..]);
    GatewayLinesAreOptions(Defaults(routes, V6, true));
    RouteLinesAreOptions(name, Defaults(routes, V6, false));
    RouteLinesAreOptions(name, extra);
    hide AddressLines, GatewayLines, RouteLines, Defaults;
  }

  lemma HiddenIface(p: Parse, name: string)
    requires p.current.Some? ==> p.current.value in p.data
    ensures Step(p, [Key("iface"), Key(name), Key("inet6"), Key("static")], false) == p.(current := None, ignored := true)
  {
    assert "inet6" != "inet";
  }
}
