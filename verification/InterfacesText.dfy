/**
 The lines of a rendered interfaces file, listed in order.
 */
module InterfacesText {
  import opened Wrappers
  import opened IpAddresses
  import opened NetConfigs
  import opened Texts
  import opened InterfacesFile

  // ----- selecting and mapping -----

  function Select<T>(xs: seq<T>, keep: T -> bool): seq<T> {
    if xs == [] then [] else (if keep(xs[0]) then [xs[0]] else []) + Select(xs[1..], keep)
  }

  lemma {:induction false} SelectLast<T>(xs: seq<T>, x: T, keep: T -> bool)
    ensures Select(xs + [x], keep) == Select(xs, keep) + (if keep(x) then [x] else [])
  {
    if xs == [] {
      assert xs + [x] == [x] && [x][1..] == [];
      assert Select([x], keep) == (if keep(x) then [x] else []) + Select([], keep);
    } else {
      SelectLast(xs[1..], x, keep);
      assert (xs + [x])[0] == xs[0] && (xs + [x])[1..] == xs[1..] + [x];
      var first, last := if keep(xs[0]) then [xs[0]] else [], if keep(x) then [x] else [];
      assert first + (Select(xs[1..], keep) + last) == first + Select(xs[1..], keep) + last;
    }
  }

  /** A line for each */
  function Each<T>(xs: seq<T>, line: T -> Line): (r: seq<Line>)
    ensures |r| == |xs| && forall i :: 0 <= i < |xs| ==> r[i] == line(xs[i])
  {
    seq(|xs|, i requires 0 <= i < |xs| => line(xs[i]))
  }

  lemma EachLast<T>(xs: seq<T>, line: T -> Line)
    requires xs != []
    ensures Each(xs, line) == Each(xs[..|xs| - 1], line) + [line(xs[|xs| - 1])]
  {
  }

  // ----- what is to be written -----

  function Extra(name: string): Interface -> Line {
    (i: Interface) => [Key("post-up"), Key("ip"), Key("addr"), Key("add"), Cidr(i.ip, i.len), Key("dev"), Key(name)]
  }

  function Gateway(): Route -> Line {
    (r: Route) => [Key("gateway"), Bare(r.hop)]
  }

  /** Between `fe80::` and `febf:ffff:..`, so that the next hop alone does not tell the interface */
  predicate NeedsDevice(a: Address) {
    a.family == V6 && 0xFE80 * Pow2(112) <= a.value < 0xFEC0 * Pow2(112)
  }

  function Added(name: string): Route -> Line {
    (r: Route) =>
      [Key("post-up"), Key("ip")] + (if r.net.family == V6 then [Key("-6")] else [])
      + [Key("route"), Key("add"), Cidr(Address(r.net.family, r.net.base), r.net.len), Key("via"), Bare(r.hop)]
      + (if r.net.family == V6 && NeedsDevice(r.hop) then [Key("dev"), Key(name)] else [])
  }

  function Own(f: Family): Interface -> bool {
    (i: Interface) => i.ip.family == f
  }

  /** The routes of a family, without or with a prefix */
  function Toward(f: Family, all: bool): Route -> bool {
    (r: Route) => r.net.family == f && (r.net.len == 0) == all
  }

  function OfOther(f: Family): Route -> bool {
    (r: Route) => r.net.family != f
  }

  /** The stanza of one family: nothing without an address; else the first address, the other ones, a gateway for
      each default route, the other routes, and the routes of the other family if that has no address. */
  function FamilyLines(name: string, f: Family, addresses: seq<Interface>, routes: seq<Route>): seq<Line> {
    var own := Select(addresses, Own(f));
    if own == [] then []
    else
      [[Key("iface"), Key(name), Key(if f == V4 then "inet" else "inet6"), Key("static")],
       [Key("address"), Cidr(own[0].ip, own[0].len)]]
      + Each(own[1..], Extra(name))
      + Each(Select(routes, Toward(f, true)), Gateway())
      + Each(Select(routes, Toward(f, false)), Added(name))
      + (if exists i :: i in addresses && i.ip.family != f then [] else Each(Select(routes, OfOther(f)), Added(name)))
      + [[]]
  }

  function Listed(n: nat, e: InterfaceConfig): seq<Line> {
    match e
    case Unconfigured => []
    case Dhcp => [[Key("auto"), Key("eth" + Digits(n))], [Key("iface"), Key("eth" + Digits(n)), Key("inet"), Key("dhcp")], []]
    case Static(addresses, routes) =>
      [[Key("auto"), Key("eth" + Digits(n))]]
      + FamilyLines("eth" + Digits(n), V4, addresses, routes)
      + FamilyLines("eth" + Digits(n), V6, addresses, routes)
  }

  function AllListed(nc: MachineConfig): seq<Line> {
    if nc == [] then [[Key("auto"), Key("lo")], [Key("iface"), Key("lo"), Key("inet"), Key("loopback")], []]
    else AllListed(nc[..|nc| - 1]) + Listed(|nc| - 1, nc[|nc| - 1])
  }

  // ----- is written -----

  lemma {:induction false} OfFamilyAre(addresses: seq<Interface>, f: Family)
    ensures OfFamily(addresses, f) == Select(addresses, Own(f))
  {
    if addresses != [] {
      var front, last := addresses[..|addresses| - 1], addresses[|addresses| - 1];
      OfFamilyAre(front, f);
      SelectLast(front, last, Own(f));
      assert addresses == front + [last];
    }
  }

  lemma {:induction false} RoutesOfAre(routes: seq<Route>, f: Family)
    ensures RoutesOf(routes, Other(f)) == Select(routes, OfOther(f))
  {
    if routes != [] {
      var front, last := routes[..|routes| - 1], routes[|routes| - 1];
      RoutesOfAre(front, f);
      SelectLast(front, last, OfOther(f));
      assert routes == front + [last];
    }
  }

  lemma DefaultsAppend(routes: seq<Route>, r: Route, f: Family, wanted: bool)
    ensures Defaults(routes + [r], f, wanted) == Defaults(routes, f, wanted) + (if (r.net == DefaultNet(f)) == wanted then [r] else [])
  {
    assert (routes + [r])[..|routes|] == routes;
  }

  lemma {:induction false} DefaultsAreSelected(routes: seq<Route>, f: Family, wanted: bool)
    ensures Defaults(RoutesOf(routes, f), f, wanted) == Select(routes, Toward(f, wanted))
  {
    if routes != [] {
      var front, last := routes[..|routes| - 1], routes[|routes| - 1];
      DefaultsAreSelected(front, f, wanted);
      SelectLast(front, last, Toward(f, wanted));
      assert routes == front + [last];
      TowardIs(last, f, wanted);
      RoutesAppend(front, last, f);
      DefaultsAppend(RoutesOf(front, f), last, f, wanted);
      hide *;
      var chosen := Select(front, Toward(f, wanted));
      assert chosen + [] == chosen;
    }
  }

  lemma RoutesAppend(routes: seq<Route>, r: Route, f: Family)
    ensures RoutesOf(routes + [r], f) == if r.net.family == f then RoutesOf(routes, f) + [r] else RoutesOf(routes, f)
  {
    assert (routes + [r])[..|routes|] == routes;
    assert RoutesOf(routes, f) + [] == RoutesOf(routes, f);
  }

  lemma TowardIs(r: Route, f: Family, wanted: bool)
    ensures Toward(f, wanted)(r) <==> r.net.family == f && (r.net == DefaultNet(f)) == wanted
  {
    if r.net.len == 0 {
      EmptyPrefixIsDefault(r.net);
    }
  }

  lemma {:induction false} NoneSelected(addresses: seq<Interface>, f: Family)
    ensures OfFamily(addresses, Other(f)) == [] <==> !exists i :: i in addresses && i.ip.family != f
  {
    if addresses != [] {
      NoneSelected(addresses[..|addresses| - 1], f);
      assert addresses == addresses[..|addresses| - 1] + [addresses[|addresses| - 1]];
    }
  }

  lemma Pow118()
    ensures Pow2(118) == 64 * Pow2(112)
  {
    assert Pow2(114) == 2 * (2 * Pow2(112));
    assert Pow2(116) == 2 * (2 * Pow2(114));
    assert Pow2(118) == 2 * (2 * Pow2(116));
  }

  lemma LinkLocalIs(a: Address)
    ensures IsLinkLocal(a) <==> NeedsDevice(a)
  {
    Pow118();
    Block118(a.value, Pow2(118));
    hide Pow2;
  }

  lemma Block118(v: nat, size: nat)
    requires size >= 1
    ensures v / size == 0x3FA <==> 0x3FA * size <= v < 0x3FB * size
  {
    var q := v / size;
    assert v == q * size + v % size;
    if q < 0x3FA {
      MulMonotone(q + 1, 0x3FA, size);
      assert (q + 1) * size == q * size + size;
    } else if q > 0x3FA {
      MulMonotone(0x3FB, q, size);
    }
  }

  lemma RouteLineIs(name: string, r: Route)
    ensures RouteLine(name, r) == Added(name)(r)
  {
    LinkLocalIs(r.hop);
    hide IsLinkLocal, NeedsDevice;
    assert [Key("post-up"), Key("ip")] + [Key("-6")] == [Key("post-up"), Key("ip"), Key("-6")];
  }

  lemma {:induction false} RouteLinesAre(name: string, routes: seq<Route>)
    ensures RouteLines(name, routes) == Each(routes, Added(name))
  {
    hide RouteLine;
    if routes != [] {
      RouteLinesAre(name, routes[..|routes| - 1]);
      RouteLineIs(name, routes[|routes| - 1]);
      hide Added;
      EachLast(routes, Added(name));
    }
  }

  lemma {:induction false} GatewayLinesAre(routes: seq<Route>)
    ensures GatewayLines(routes) == Each(routes, Gateway())
  {
    if routes != [] {
      GatewayLinesAre(routes[..|routes| - 1]);
      EachLast(routes, Gateway());
    }
  }

  lemma {:induction false} AddressLinesAre(name: string, extras: seq<Interface>)
    ensures AddressLines(name, extras) == Each(extras, Extra(name))
  {
    if extras != [] {
      AddressLinesAre(name, extras[..|extras| - 1]);
      EachLast(extras, Extra(name));
    }
  }

  lemma StanzaIs(name: string, f: Family, addresses: seq<Interface>, routes: seq<Route>)
    ensures StanzaOf(name, f, addresses, routes) == FamilyLines(name, f, addresses, routes)
  {
    var own := OfFamily(addresses, f);
    OfFamilyAre(addresses, f);
    NoneSelected(addresses, f);
    RoutesOfAre(routes, f);
    DefaultsAreSelected(routes, f, true);
    DefaultsAreSelected(routes, f, false);
    GatewayLinesAre(Select(routes, Toward(f, true)));
    RouteLinesAre(name, Select(routes, Toward(f, false)));
    RouteLinesAre(name, Select(routes, OfOther(f)));
    RouteLinesAre(name, []);
    assert Each([], Added(name)) == [];
    hide Select, Defaults, GatewayLines, RouteLines, AddressLines, OfFamily, RoutesOf, Own, Toward, OfOther, Added, Gateway, Extra;
    if own != [] {
      AddressLinesAre(name, own[1..]);
      hide *;
      StanzaParts(name, f, addresses, routes);
      FamilyParts(name, f, addresses, routes);
    }
  }

  lemma StanzaParts(name: string, f: Family, addresses: seq<Interface>, routes: seq<Route>)
    requires OfFamily(addresses, f) != []
    ensures var own, of := OfFamily(addresses, f), RoutesOf(routes, f);
            StanzaOf(name, f, addresses, routes) ==
              [[Key("iface"), Key(name), Key(if f == V4 then "inet" else "inet6"), Key("static")]]
              + [[Key("address"), Cidr(own[0].ip, own[0].len)]]
              + AddressLines(name, own[1..])
              + GatewayLines(Defaults(of, f, true))
              + RouteLines(name, Defaults(of, f, false))
              + RouteLines(name, if OfFamily(addresses, Other(f)) == [] then RoutesOf(routes, Other(f)) else [])
              + [[]]
  {
    hide Defaults, GatewayLines, RouteLines, AddressLines, OfFamily, RoutesOf;
  }

  lemma FamilyParts(name: string, f: Family, addresses: seq<Interface>, routes: seq<Route>)
    requires Select(addresses, Own(f)) != []
    ensures var own := Select(addresses, Own(f));
            FamilyLines(name, f, addresses, routes) ==
              [[Key("iface"), Key(name), Key(if f == V4 then "inet" else "inet6"), Key("static")]]
              + [[Key("address"), Cidr(own[0].ip, own[0].len)]]
              + Each(own[1..], Extra(name))
              + Each(Select(routes, Toward(f, true)), Gateway())
              + Each(Select(routes, Toward(f, false)), Added(name))
              + (if exists i :: i in addresses && i.ip.family != f then [] else Each(Select(routes, OfOther(f)), Added(name)))
              + [[]]
  {
    hide Select, Own, Toward, OfOther, Added, Gateway, Extra;
  }

  lemma EntryIs(n: nat, e: InterfaceConfig)
    ensures EntryLines(n, e) == if e.Static? && e.addresses == [] then None else Some(Listed(n, e))
  {
    hide StanzaOf, FamilyLines, Digits;
    if e.Static? {
      StanzaIs(Eth(n), V4, e.addresses, e.routes);
      StanzaIs(Eth(n), V6, e.addresses, e.routes);
    }
  }

  /** The renderer raises exactly for an entry without address; else it writes the loopback interface and then
      the entries in order. */
  lemma {:induction false} RenderedIs(nc: MachineConfig)
    ensures Rendered(nc, |nc|) ==
            if exists e :: e in nc && e.Static? && e.addresses == [] then None else Some(AllListed(nc))
  {
    hide EntryLines, Listed;
    if nc != [] {
      var front, last := nc[..|nc| - 1], nc[|nc| - 1];
      RenderedIs(front);
      EntryIs(|nc| - 1, last);
      RenderedFront(nc, |nc| - 1);
      assert nc == front + [last];
    }
  }

  lemma {:induction false} RenderedFront(nc: MachineConfig, k: nat)
    requires k <= |nc| - 1
    ensures Rendered(nc[..|nc| - 1], k) == Rendered(nc, k)
  {
    hide EntryLines;
    if k > 0 {
      RenderedFront(nc, k - 1);
    }
  }
}
