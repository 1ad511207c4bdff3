/**
 What the parser makes of each group of rendered lines.
 */
module InterfacesParse {
  import opened Wrappers
  import opened IpAddresses
  import opened NetConfigs
  import opened InterfacesFile

  lemma {:induction false} RunAppend(p: Parse, a: seq<Line>, b: seq<Line>, ipv6: bool)
    requires p.current.Some? ==> p.current.value in p.data
    ensures Run(p, a + b, ipv6) == Run(Run(p, a, ipv6), b, ipv6)
  {
    hide Step;
    if b == [] {
      assert a + b == a;
    } else {
      assert (a + b)[..|a + b| - 1] == a + b[..|b| - 1];
      RunAppend(p, a, b[..|b| - 1], ipv6);
    }
  }

  lemma RunOne(p: Parse, line: Line, ipv6: bool)
    requires p.current.Some? ==> p.current.value in p.data
    ensures Run(p, [line], ipv6) == Step(p, line, ipv6)
  {
    hide Step;
    assert [line][..0] == [];
    assert Run(p, [], ipv6) == p;
  }

  lemma RunLast(p: Parse, lines: seq<Line>, line: Line, ipv6: bool)
    requires p.current.Some? ==> p.current.value in p.data
    ensures Run(p, lines + [line], ipv6) == Step(Run(p, lines, ipv6), line, ipv6)
  {
    hide Step;
    assert (lines + [line])[..|lines|] == lines;
  }

  // ----- the values that can be written -----

  predicate GoodAddress(i: Interface) {
    i.len <= Width(i.ip.family)
  }

  predicate GoodRoute(r: Route) {
    r.hop.family == r.net.family
  }

  lemma SubnetIsRead(net: Subnet)
    ensures AsNetwork(Cidr(Address(net.family, net.base), net.len)) == Some(net)
  {
  }

  // ----- lines of an active stanza -----

  predicate Active(p: Parse, place: Place, b: Bucket) {
    p.current == Some(place) && place in p.data && p.data[place] == b
  }

  lemma OptionIs(p: Parse, line: Line, ipv6: bool)
    requires p.current.Some? ==> p.current.value in p.data
    requires line != [] && (line[0] == Key("address") || line[0] == Key("gateway") || line[0] == Key("post-up"))
    ensures Step(p, line, ipv6) == OptionStep(p, line, ipv6)
  {
    hide OptionStep;
  }

  lemma AddressStep(p: Parse, place: Place, b: Bucket, i: Interface, ipv6: bool)
    requires Active(p, place, b) && GoodAddress(i) && i.ip.family == place.family
    ensures Step(p, [Key("address"), Cidr(i.ip, i.len)], ipv6) == p.With(b.(primary := Some(i), hasPrefix := true))
  {
    hide Step;
    OptionIs(p, [Key("address"), Cidr(i.ip, i.len)], ipv6);
  }

  lemma GatewayStep(p: Parse, place: Place, b: Bucket, hop: Address, ipv6: bool)
    requires Active(p, place, b) && hop.family == place.family
    ensures Step(p, [Key("gateway"), Bare(hop)], ipv6) == p.With(b.(gateway := Some(hop)))
  {
    hide Step, UpStep, KnownOptions, KnownOptions6;
    OptionIs(p, [Key("gateway"), Bare(hop)], ipv6);
    assert "gateway" != "address" && "gateway" != "netmask";
  }

  lemma UpIs(p: Parse, place: Place, b: Bucket, line: Line, ipv6: bool)
    requires Active(p, place, b) && line != [] && line[0] == Key("post-up")
    ensures Step(p, line, ipv6) == UpStep(p, line, ipv6)
  {
    hide UpStep, Step, KnownOptions, KnownOptions6;
    OptionIs(p, line, ipv6);
    assert "post-up" != "address" && "post-up" != "netmask" && "post-up" != "gateway";
  }

  lemma AddressCommand(p: Parse, line: Line, i: Interface, ipv6: bool)
    requires p.current.Some? && p.current.value in p.data
    requires |line| == 7 && line[1] == Key("ip") && line[2] == Key("addr") && line[3] == Key("add") && line[5] == Key("dev")
    requires AsInterface(line[4]) == Some(i) && (ipv6 || i.ip.family == V4)
    ensures var b := p.data[p.current.value];
            UpStep(p, line, ipv6) == p.With(b.(extras := b.extras + [i]))
  {
    hide AsInterface, AsNetwork;
    assert "addr" != "-4" && "addr" != "-6" && "addr" != "route";
  }

  lemma ExtraStep(p: Parse, place: Place, b: Bucket, i: Interface, name: string, ipv6: bool)
    requires Active(p, place, b) && GoodAddress(i) && (ipv6 || i.ip.family == V4)
    ensures var line := [Key("post-up"), Key("ip"), Key("addr"), Key("add"), Cidr(i.ip, i.len), Key("dev"), Key(name)];
            Step(p, line, ipv6) == p.With(b.(extras := b.extras + [i]))
  {
    hide Step, UpStep;
    var line := [Key("post-up"), Key("ip"), Key("addr"), Key("add"), Cidr(i.ip, i.len), Key("dev"), Key(name)];
    UpIs(p, place, b, line, ipv6);
    AddressCommand(p, line, i, ipv6);
  }

  lemma RouteCommand(p: Parse, line: Line, i: nat, r: Route, ipv6: bool)
    requires p.current.Some? && p.current.value in p.data && GoodRoute(r)
    requires (i == 2 && r.net.family == V4) || (ipv6 && i == 3 && |line| > 2 && line[2] == Key("-6"))
    requires |line| >= i + 5 && line[1] == Key("ip")
    requires line[i] == Key("route") && line[i + 1] == Key("add") && line[i + 3] == Key("via")
    requires AsNetwork(line[i + 2]) == Some(r.net) && line[i + 4] == Bare(r.hop)
    ensures var b := p.data[p.current.value];
            UpStep(p, line, ipv6) == p.With(b.(routes := b.routes + [r]))
  {
    hide AsInterface, AsNetwork, Block.Valid;
    assert "route" != "-4" && "route" != "-6";
  }

  /** What `ip -6` starts is not a route when only IPv4 is parsed. */
  lemma OtherCommand(p: Parse, line: Line)
    requires p.current.Some? && p.current.value in p.data
    requires |line| >= 3 && line[2] == Key("-6")
    ensures UpStep(p, line, false) == p
  {
    assert "-6" != "route" && "-6" != "addr";
  }

  /** A route line is understood, unless it is for IPv6 and only IPv4 is parsed. */
  lemma RouteStep(p: Parse, place: Place, b: Bucket, r: Route, name: string, ipv6: bool)
    requires Active(p, place, b) && GoodRoute(r)
    ensures Step(p, RouteLine(name, r), ipv6) ==
            if ipv6 || r.net.family == V4 then p.With(b.(routes := b.routes + [r])) else p
  {
    hide Step, UpStep, AsNetwork, IsLinkLocal, Block.Valid;
    var line := RouteLine(name, r);
    UpIs(p, place, b, line, ipv6);
    SubnetIsRead(r.net);
    if r.net.family == V4 {
      RouteCommand(p, line, 2, r, ipv6);
    } else if ipv6 {
      RouteCommand(p, line, 3, r, ipv6);
    } else {
      OtherCommand(p, line);
    }
  }

  lemma BlankStep(p: Parse, ipv6: bool)
    requires p.current.Some? ==> p.current.value in p.data
    ensures Step(p, [], ipv6) == p
  {
  }

  // ----- groups of lines -----

  lemma {:induction false} RunAddresses(p: Parse, place: Place, b: Bucket, extras: seq<Interface>, name: string, ipv6: bool)
    requires Active(p, place, b)
    requires forall i :: i in extras ==> GoodAddress(i) && (ipv6 || i.ip.family == V4)
    ensures Run(p, AddressLines(name, extras), ipv6) == p.With(b.(extras := b.extras + extras))
  {
    hide Step;
    if extras == [] {
      assert b.extras + extras == b.extras;
    } else {
      var front, i := extras[..|extras| - 1], extras[|extras| - 1];
      assert i in extras;
      RunAddresses(p, place, b, front, name, ipv6);
      var b1 := b.(extras := b.extras + front);
      ExtraStep(p.With(b1), place, b1, i, name, ipv6);
      RunLast(p, AddressLines(name, front),
              [Key("post-up"), Key("ip"), Key("addr"), Key("add"), Cidr(i.ip, i.len), Key("dev"), Key(name)], ipv6);
      assert b.extras + front + [i] == b.extras + extras;
      assert p.With(b1).With(b1.(extras := b1.extras + [i])) == p.With(b.(extras := b.extras + extras));
    }
  }

  /** The hop of the last route */
  function LastHop(routes: seq<Route>, before: Option<Address>): Option<Address> {
    if routes == [] then before else Some(routes[|routes| - 1].hop)
  }

  lemma {:induction false} RunGateways(p: Parse, place: Place, b: Bucket, routes: seq<Route>, ipv6: bool)
    requires Active(p, place, b) && forall r :: r in routes ==> r.hop.family == place.family
    ensures Run(p, GatewayLines(routes), ipv6) == p.With(b.(gateway := LastHop(routes, b.gateway)))
  {
    hide Step;
    if routes == [] {
      assert p.With(b) == p;
    } else {
      var front, r := routes[..|routes| - 1], routes[|routes| - 1];
      assert r in routes;
      RunGateways(p, place, b, front, ipv6);
      var b1 := b.(gateway := LastHop(front, b.gateway));
      GatewayStep(p.With(b1), place, b1, r.hop, ipv6);
      RunLast(p, GatewayLines(front), [Key("gateway"), Bare(r.hop)], ipv6);
      assert p.With(b1).With(b1.(gateway := Some(r.hop))) == p.With(b.(gateway := Some(r.hop)));
    }
  }

  lemma {:induction false} RunRoutes(p: Parse, place: Place, b: Bucket, routes: seq<Route>, name: string, ipv6: bool)
    requires Active(p, place, b)
    requires forall r :: r in routes ==> GoodRoute(r) && (ipv6 || r.net.family == V4)
    ensures Run(p, RouteLines(name, routes), ipv6) == p.With(b.(routes := b.routes + routes))
  {
    hide Step, RouteLine;
    if routes == [] {
      assert b.routes + routes == b.routes;
    } else {
      var front, r := routes[..|routes| - 1], routes[|routes| - 1];
      assert r in routes;
      RunRoutes(p, place, b, front, name, ipv6);
      var b1 := b.(routes := b.routes + front);
      RouteStep(p.With(b1), place, b1, r, name, ipv6);
      RunLast(p, RouteLines(name, front), RouteLine(name, r), ipv6);
      assert b.routes + front + [r] == b.routes + routes;
      assert p.With(b1).With(b1.(routes := b1.routes + [r])) == p.With(b.(routes := b.routes + routes));
    }
  }

  lemma {:induction false} RunUnseen(p: Parse, place: Place, b: Bucket, routes: seq<Route>, name: string)
    requires Active(p, place, b) && forall r :: r in routes ==> GoodRoute(r) && r.net.family == V6
    ensures Run(p, RouteLines(name, routes), false) == p
  {
    hide Step, RouteLine;
    if routes != [] {
      var front, r := routes[..|routes| - 1], routes[|routes| - 1];
      assert r in routes;
      RunUnseen(p, place, b, front, name);
      RouteStep(p, place, b, r, name, false);
      RunLast(p, RouteLines(name, front), RouteLine(name, r), false);
    }
  }
}
