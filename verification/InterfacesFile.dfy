/**
 `/etc/network/interfaces`: its renderer, and the parser of what a student wrote, at the level of words.
 Words that are addresses or prefixes are given as values.
 */
module InterfacesFile {
  import opened Wrappers
  import opened Texts
  import opened IpAddresses
  import opened NetConfigs
  import opened Sorting

  datatype Word = Key(text: string) | Bare(address: Address) | Cidr(address: Address, len: nat)

  type Line = seq<Word>

  // ----- interface names -----

  function Eth(n: nat): string {
    "eth" + Digits(n)
  }

  predicate IsEth(name: string) {
    |name| >= 3 && name[..3] == "eth" && IsDigits(name[3..])
  }

  function EthNumber(): string -> int {
    name => if |name| >= 3 then Decimal(name[3..]) else 0
  }

  // ----- render_persistent_net_config_entry -----

  function OfFamily(addresses: seq<Interface>, f: Family): seq<Interface> {
    if addresses == [] then []
    else OfFamily(addresses[..|addresses| - 1], f)
         + (if addresses[|addresses| - 1].ip.family == f then [addresses[|addresses| - 1]] else [])
  }

  function RoutesOf(routes: seq<Route>, f: Family): seq<Route> {
    if routes == [] then []
    else RoutesOf(routes[..|routes| - 1], f)
         + (if routes[|routes| - 1].net.family == f then [routes[|routes| - 1]] else [])
  }

  /** The default routes of a family, or the others */
  function Defaults(routes: seq<Route>, f: Family, wanted: bool): seq<Route> {
    if routes == [] then []
    else Defaults(routes[..|routes| - 1], f, wanted)
         + (if (routes[|routes| - 1].net == DefaultNet(f)) == wanted then [routes[|routes| - 1]] else [])
  }

  function InetWord(f: Family): Word {
    Key(if f == V4 then "inet" else "inet6")
  }

  /** `fe80::/10` */
  predicate IsLinkLocal(a: Address) {
    a.family == V6 && a.value / Pow2(118) == 0x3FA
  }

  function RouteLine(name: string, r: Route): Line {
    var net := Cidr(Address(r.net.family, r.net.base), r.net.len);
    if r.net.family == V6 then
      [Key("post-up"), Key("ip"), Key("-6"), Key("route"), Key("add"), net, Key("via"), Bare(r.hop)]
      + (if IsLinkLocal(r.hop) then [Key("dev"), Key(name)] else [])
    else [Key("post-up"), Key("ip"), Key("route"), Key("add"), net, Key("via"), Bare(r.hop)]
  }

  function RouteLines(name: string, routes: seq<Route>): seq<Line> {
    if routes == [] then [] else RouteLines(name, routes[..|routes| - 1]) + [RouteLine(name, routes[|routes| - 1])]
  }

  function GatewayLines(routes: seq<Route>): seq<Line> {
    if routes == [] then [] else GatewayLines(routes[..|routes| - 1]) + [[Key("gateway"), Bare(routes[|routes| - 1].hop)]]
  }

  function AddressLines(name: string, extras: seq<Interface>): seq<Line> {
    if extras == [] then []
    else
      var i := extras[|extras| - 1];
      AddressLines(name, extras[..|extras| - 1])
      + [[Key("post-up"), Key("ip"), Key("addr"), Key("add"), Cidr(i.ip, i.len), Key("dev"), Key(name)]]
  }

  /** `_static_stanza` */
  function Stanza(name: string, f: Family, addresses: seq<Interface>, routes: seq<Route>, extra: seq<Route>): seq<Line>
    requires addresses != []
  {
    [[Key("iface"), Key(name), InetWord(f), Key("static")]]
    + [[Key("address"), Cidr(addresses[0].ip, addresses[0].len)]]
    + AddressLines(name, addresses[1..])
    + GatewayLines(Defaults(routes, f, true))
    + RouteLines(name, Defaults(routes, f, false))
    + RouteLines(name, extra)
  }

  function Other(f: Family): Family {
    if f == V4 then V6 else V4
  }

  function StanzaOf(name: string, f: Family, addresses: seq<Interface>, routes: seq<Route>): seq<Line> {
    if OfFamily(addresses, f) == [] then []
    else Stanza(name, f, OfFamily(addresses, f), RoutesOf(routes, f),
                if OfFamily(addresses, Other(f)) == [] then RoutesOf(routes, Other(f)) else []) + [[]]
  }

  /** The lines of one interface; `None` where the renderer raises */
  function EntryLines(n: nat, e: InterfaceConfig): Option<seq<Line>> {
    match e
    case Unconfigured => Some([])
    case Dhcp => Some([[Key("auto"), Key(Eth(n))], [Key("iface"), Key(Eth(n)), Key("inet"), Key("dhcp")], []])
    case Static(addresses, routes) =>
      if addresses == [] then None
      else Some([[Key("auto"), Key(Eth(n))]] + StanzaOf(Eth(n), V4, addresses, routes) + StanzaOf(Eth(n), V6, addresses, routes))
  }

  const Loopback: seq<Line> := [[Key("auto"), Key("lo")], [Key("iface"), Key("lo"), Key("inet"), Key("loopback")], []]

  function Rendered(nc: MachineConfig, k: nat): Option<seq<Line>>
    requires k <= |nc|
  {
    if k == 0 then Some(Loopback)
    else
      var before, entry := Rendered(nc, k - 1), EntryLines(k - 1, nc[k - 1]);
      if before.None? || entry.None? then None else Some(before.value + entry.value)
  }

  method RenderInterfaces(nc: MachineConfig) returns (r: Option<seq<Line>>)
    ensures r == Rendered(nc, |nc|)
  {
    r := Some(Loopback);
    for k := 0 to |nc|
      invariant r == Rendered(nc, k)
    {
      var entry := EntryLines(k, nc[k]);
      r := if r.None? || entry.None? then None else Some(r.value + entry.value);
    }
  }

  // ----- get_persistent_net_config_entry -----

  datatype Bucket = Bucket(primary: Option<Interface>, hasPrefix: bool, netmask: Option<Word>, extras: seq<Interface>,
                           routes: seq<Route>, gateway: Option<Address>)

  const NewBucket: Bucket := Bucket(None, false, None, [], [], None)

  datatype Place = Place(name: string, family: Family)

  datatype Parse = Parse(data: map<Place, Bucket>, dhcp: set<string>, dyn6: set<string>, auto: set<string>,
                         current: Option<Place>, ignored: bool, errors: nat) {
    function Error(): Parse {
      this.(errors := errors + 1)
    }

    function With(b: Bucket): Parse
      requires current.Some?
    {
      this.(data := data[current.value := b])
    }
  }

  const Nothing: Parse := Parse(map[], {}, {}, {}, None, false, 0)

  /** `IPv4Interface(word)`, `IPv6Interface(word)` */
  function AsInterface(w: Word): Option<Interface> {
    match w
    case Key(_) => None
    case Bare(a) => Some(Interface(a, Width(a.family)))
    case Cidr(a, len) => if len <= Width(a.family) then Some(Interface(a, len)) else None
  }

  /** The first address of the aligned block of a size that holds an address */
  function Aligned(value: nat, size: nat): (base: nat)
    requires size >= 1
    ensures value % size == 0 ==> base == value
  {
    AtMost(value, size);
    value - value % size
  }

  lemma AtMost(value: nat, size: nat)
    requires size >= 1
    ensures value % size <= value
  {
    var q := value / size;
    assert value == q * size + value % size && q * size >= 0;
  }

  /** `ip_network(word, strict=False)`: the host bits are dropped. */
  function AsNetwork(w: Word): Option<Block> {
    match AsInterface(w)
    case None => None
    case Some(i) => Some(Block(i.ip.family, Aligned(i.ip.value, Pow2(Width(i.ip.family) - i.len)), i.len))
  }

  function AsAddress(w: Word): Option<Address> {
    if w.Bare? then Some(w.address) else None
  }

  predicate KeyAt(line: Line, i: nat, text: string) {
    i < |line| && line[i] == Key(text)
  }

  const KnownOptions: set<string> :=
    {"address", "netmask", "broadcast", "network", "gateway", "metric", "hwaddress", "mtu", "scope",
     "pre-up", "up", "post-up", "down", "pre-down", "post-down", "dns-nameservers", "dns-search", "dns-domain",
     "vlan-raw-device", "bridge_ports", "bridge_stp", "bridge_fd", "bond-master", "bond-slaves", "bond-mode",
     "bond-miimon", "wpa-ssid", "wpa-psk", "wpa-conf"}

  const KnownOptions6: set<string> :=
    KnownOptions + {"accept_ra", "autoconf", "privext", "dad-attempts", "dad-interval", "preferred-lifetime", "media"}

  function IfaceStep(p: Parse, line: Line, ipv6: bool): (r: Parse)
    ensures r.current.Some? ==> r.current.value in r.data
  {
    if |line| < 4 then p.Error().(current := None, ignored := false)
    else
      var name := if line[1].Key? then line[1].text else "";
      var inet, inet6 := line[2] == Key("inet"), ipv6 && line[2] == Key("inet6");
      if line[3] == Key("static") && (inet || inet6) then
        var place := Place(name, if inet then V4 else V6);
        p.(current := Some(place), ignored := false,
           data := if place in p.data then p.data else p.data[place := NewBucket])
      else if inet && line[3] == Key("dhcp") then p.(dhcp := p.dhcp + {name}, current := None, ignored := true)
      else if inet6 && (line[3] == Key("dhcp") || line[3] == Key("auto")) then
        p.(dyn6 := p.dyn6 + {name}, current := None, ignored := true)
      else p.(current := None, ignored := true)
  }

  function AutoStep(p: Parse, line: Line): Parse {
    p.(auto := p.auto + set i | 1 <= i < |line| && line[i].Key? :: line[i].text)
  }

  /** Where the command of an `up` line goes on after `ip`: the option for a family may be skipped. */
  function AfterIp(line: Line, ipv6: bool): nat {
    if ipv6 && (KeyAt(line, 2, "-4") || KeyAt(line, 2, "-6")) then 3 else 2
  }

  /** `post-up` and `up` lines: added routes and addresses count, everything else is skipped. */
  function UpStep(p: Parse, line: Line, ipv6: bool): (r: Parse)
    requires p.current.Some? && p.current.value in p.data
    ensures r == p.(data := r.data, errors := r.errors) && r.data.Keys == p.data.Keys
  {
    var b := p.data[p.current.value];
    var i := AfterIp(line, ipv6);
    if !KeyAt(line, 1, "ip") || |line| < i + 5 then p
    else if KeyAt(line, i, "route") && KeyAt(line, i + 1, "add") && KeyAt(line, i + 3, "via") then
      var net, hop := AsNetwork(line[i + 2]), AsAddress(line[i + 4]);
      if net.None? || hop.None? || net.value.family != hop.value.family || !net.value.Valid()
         || (!ipv6 && net.value.family != V4) then p.Error()
      else p.With(b.(routes := b.routes + [Route(net.value, hop.value)]))
    else if KeyAt(line, i, "addr") && KeyAt(line, i + 1, "add") && KeyAt(line, i + 3, "dev") then
      var a := AsInterface(line[i + 2]);
      if a.None? || (!ipv6 && a.value.ip.family != V4) then p.Error()
      else p.With(b.(extras := b.extras + [a.value]))
    else p
  }

  function OptionStep(p: Parse, line: Line, ipv6: bool): (r: Parse)
    requires line != []
    requires p.current.Some? ==> p.current.value in p.data
    ensures r == p.(data := r.data, errors := r.errors) && r.data.Keys == p.data.Keys
  {
    if p.current.None? then (if p.ignored then p else p.Error())
    else
      var b, f := p.data[p.current.value], p.current.value.family;
      if line[0] == Key("address") then
        if |line| < 2 || AsInterface(line[1]).None? || AsInterface(line[1]).value.ip.family != f then p.Error()
        else p.With(b.(primary := AsInterface(line[1]), hasPrefix := line[1].Cidr?))
      else if line[0] == Key("netmask") then
        if |line| < 2 then p.Error() else p.With(b.(netmask := Some(line[1])))
      else if line[0] == Key("gateway") then
        if |line| < 2 || AsAddress(line[1]).None? || AsAddress(line[1]).value.family != f then p.Error()
        else p.With(b.(gateway := AsAddress(line[1])))
      else if line[0] == Key("post-up") || line[0] == Key("up") then UpStep(p, line, ipv6)
      else if line[0].Key? && line[0].text in (if f == V6 then KnownOptions6 else KnownOptions) then p
      else p.Error()
  }

  predicate Skipped(line: Line) {
    line == [] || (line[0].Key? && line[0].text != "" && line[0].text[0] == '#')
  }

  predicate Directive(w: Word) {
    w in {Key("source"), Key("source-directory"), Key("mapping"), Key("no-auto-down"), Key("no-scripts")}
  }

  function Step(p: Parse, line: Line, ipv6: bool): (r: Parse)
    requires p.current.Some? ==> p.current.value in p.data
    ensures r.current.Some? ==> r.current.value in r.data
  {
    hide IfaceStep, OptionStep;
    if Skipped(line) then p
    else if line[0] == Key("iface") then IfaceStep(p, line, ipv6)
    else if line[0] in {Key("auto"), Key("allow-hotplug"), Key("allow-auto")} then AutoStep(p, line)
    else if Directive(line[0]) then p
    else OptionStep(p, line, ipv6)
  }

  function Run(p: Parse, lines: seq<Line>, ipv6: bool): (r: Parse)
    requires p.current.Some? ==> p.current.value in p.data
    ensures r.current.Some? ==> r.current.value in r.data
  {
    if lines == [] then p else Step(Run(p, lines[..|lines| - 1], ipv6), lines[|lines| - 1], ipv6)
  }

  /** The prefix length of a netmask, as `ipaddress` reads it */
  type Netmasks = (Word, Family) -> Option<nat>

  /** `_finalize`: the entry of a bucket, and the errors found */
  function Finalized(b: Bucket, f: Family, masks: Netmasks): (Option<InterfaceConfig>, nat) {
    if b.primary.None? then (None, 0)
    else
      var masked := !b.hasPrefix && b.netmask.Some?;
      var len := if masked then masks(b.netmask.value, f) else None;
      var primary := if len.Some? then Interface(b.primary.value.ip, len.value) else b.primary.value;
      var gateway := if b.gateway.Some? then [Route(DefaultNet(f), b.gateway.value)] else [];
      (Some(Static([primary] + b.extras, gateway + b.routes)), if masked && len.None? then 1 else 0)
  }

  /** The entry of one interface */
  function EntryOf(p: Parse, name: string, ipv6: bool, masks: Netmasks): (InterfaceConfig, nat) {
    var four := if name in p.dhcp || Place(name, V4) !in p.data then (None, 0) else Finalized(p.data[Place(name, V4)], V4, masks);
    if !ipv6 then (if name in p.dhcp then Dhcp else if four.0.None? then Unconfigured else four.0.value, four.1)
    else
      var six := if name in p.dyn6 || Place(name, V6) !in p.data then (None, 0) else Finalized(p.data[Place(name, V6)], V6, masks);
      var errors := four.1 + six.1;
      if four.0.None? && six.0.None? then (if name in p.dhcp || name in p.dyn6 then Dhcp else Unconfigured, errors)
      else (Merged(four.0, six.0), errors)
  }

  function Merged(a: Option<InterfaceConfig>, b: Option<InterfaceConfig>): InterfaceConfig {
    Static(AddressesOf(a) + AddressesOf(b), RoutesIn(a) + RoutesIn(b))
  }

  function AddressesOf(e: Option<InterfaceConfig>): seq<Interface> {
    if e.Some? && e.value.Static? then e.value.addresses else []
  }

  function RoutesIn(e: Option<InterfaceConfig>): seq<Route> {
    if e.Some? && e.value.Static? then e.value.routes else []
  }

  /** The names of the interfaces that the file tells something about */
  function KnownNames(p: Parse): set<string> {
    (set place | place in p.data && IsEth(place.name) :: place.name)
    + (set name | name in p.dhcp + p.dyn6 + p.auto && IsEth(name))
  }

  function EntriesOf(p: Parse, names: seq<string>, ipv6: bool, masks: Netmasks): (MachineConfig, nat) {
    if names == [] then ([], 0)
    else
      var front, last := EntriesOf(p, names[..|names| - 1], ipv6, masks), EntryOf(p, names[|names| - 1], ipv6, masks);
      (front.0 + [last.0], front.1 + last.1)
  }

  /** The lines of the main file, and of the included directory when the file names it. The order in which
      Python yields the known names is arbitrary. */
  method ParseInterfaces(lines: seq<Line>, ipv6: bool, masks: Netmasks, order: seq<string>)
    returns (nc: MachineConfig, errors: nat)
    requires multiset(order) == multiset(KnownNames(Run(Nothing, lines, ipv6)))
    ensures var p := Run(Nothing, lines, ipv6);
            var r := EntriesOf(p, SortBy(order, EthNumber()), ipv6, masks);
            nc == r.0 && errors == p.errors + r.1
  {
    hide Step, EntryOf, SortBy;
    var p := Nothing;
    for i := 0 to |lines|
      invariant p == Run(Nothing, lines[..i], ipv6)
      invariant p.current.Some? ==> p.current.value in p.data
    {
      assert lines[..i + 1][..i] == lines[..i];
      p := Step(p, lines[i], ipv6);
    }
    assert lines[..|lines|] == lines;
    var names := SortBy(order, EthNumber());
    nc := [];
    errors := p.errors;
    for i := 0 to |names|
      invariant nc == EntriesOf(p, names[..i], ipv6, masks).0
      invariant errors == p.errors + EntriesOf(p, names[..i], ipv6, masks).1
    {
      assert names[..i + 1][..i] == names[..i];
      var e := EntryOf(p, names[i], ipv6, masks);
      nc := nc + [e.0];
      errors := errors + e.1;
    }
    assert names[..|names|] == names;
  }
}
