/**
 What a file of interfaces says, whatever a student wrote: stated for all lines at once, without the state that
 the parser carries from line to line.
 */
module InterfacesMeaning {
  import opened Wrappers
  import opened IpAddresses
  import opened NetConfigs
  import opened InterfacesFile

  // ----- lines -----

  predicate Blank(line: Line) {
    line == [] || (line[0].Key? && line[0].text != "" && line[0].text[0] == '#')
  }

  predicate StartsWith(line: Line, text: string) {
    line != [] && line[0] == Key(text)
  }

  predicate IsIface(line: Line) {
    StartsWith(line, "iface")
  }

  predicate IsAuto(line: Line) {
    StartsWith(line, "auto") || StartsWith(line, "allow-hotplug") || StartsWith(line, "allow-auto")
  }

  predicate IsDirective(line: Line) {
    || StartsWith(line, "source") || StartsWith(line, "source-directory") || StartsWith(line, "mapping")
    || StartsWith(line, "no-auto-down") || StartsWith(line, "no-scripts")
  }

  predicate IsOption(line: Line) {
    !Blank(line) && !IsIface(line) && !IsAuto(line) && !IsDirective(line)
  }

  function NameOf(w: Word): string {
    if w.Key? then w.text else ""
  }

  /** `iface <name> inet|inet6 <method>` */
  predicate Declares(line: Line, name: string, f: Family, method_: string) {
    && IsIface(line) && |line| >= 4 && NameOf(line[1]) == name
    && line[2] == Key(if f == V4 then "inet" else "inet6") && line[3] == Key(method_)
  }

  /** A static stanza of a family that is parsed */
  predicate Opens(line: Line, place: Place, ipv6: bool) {
    Declares(line, place.name, place.family, "static") && (place.family == V6 ==> ipv6)
  }

  // ----- stanzas -----

  /** Line `j` is the last one before place `i` that declares an interface. */
  ghost predicate Heads(lines: seq<Line>, j: nat, i: nat) {
    j < i <= |lines| && IsIface(lines[j]) && forall k :: j < k < i ==> !IsIface(lines[k])
  }

  /** Place `i` belongs to a static stanza for `place`. */
  ghost predicate Within(lines: seq<Line>, i: nat, place: Place, ipv6: bool) {
    exists j: nat :: Heads(lines, j, i) && Opens(lines[j], place, ipv6)
  }

  /** Place `i` belongs to no stanza, or to one whose first line is too short. */
  ghost predicate Outside(lines: seq<Line>, i: nat) {
    forall j: nat :: Heads(lines, j, i) ==> |lines[j]| < 4
  }

  // ----- options -----

  /** An address with a prefix length, all bits without one */
  function InterfaceIn(w: Word): Option<Interface> {
    match w
    case Key(_) => None
    case Bare(a) => Some(Interface(a, if a.family == V4 then 32 else 128))
    case Cidr(a, len) => if len <= (if a.family == V4 then 32 else 128) then Some(Interface(a, len)) else None
  }

  /** The network that a route is for: the aligned block of its length that holds the address, host bits dropped */
  lemma NetworkIs(w: Word)
    ensures AsNetwork(w).Some? <==> InterfaceIn(w).Some?
    ensures AsNetwork(w).Some? ==>
              var net, i := AsNetwork(w).value, InterfaceIn(w).value;
              && net.family == i.ip.family && net.len == i.len && net.base % net.Size() == 0
              && net.base <= i.ip.value < net.base + net.Size()
  {
    if InterfaceIn(w).Some? {
      var i := InterfaceIn(w).value;
      AlignedIs(i.ip.value, Pow2(Width(i.ip.family) - i.len));
    }
    hide Pow2, Aligned;
  }

  lemma AlignedIs(value: nat, size: nat)
    requires size >= 1
    ensures Aligned(value, size) % size == 0 && Aligned(value, size) <= value < Aligned(value, size) + size
  {
    var q := value / size;
    assert value == q * size + value % size;
    MultipleMod(q, size);
  }

  function AddressIn(line: Line, f: Family): Option<Interface> {
    if StartsWith(line, "address") && |line| >= 2 && InterfaceIn(line[1]).Some? && InterfaceIn(line[1]).value.ip.family == f
    then InterfaceIn(line[1])
    else None
  }

  function PrefixIn(line: Line, f: Family): Option<bool> {
    if AddressIn(line, f).Some? then Some(line[1].Cidr?) else None
  }

  function NetmaskIn(line: Line): Option<Word> {
    if StartsWith(line, "netmask") && |line| >= 2 then Some(line[1]) else None
  }

  function GatewayIn(line: Line, f: Family): Option<Address> {
    if StartsWith(line, "gateway") && |line| >= 2 && line[1].Bare? && line[1].address.family == f then Some(line[1].address) else None
  }

  predicate IsUp(line: Line) {
    StartsWith(line, "up") || StartsWith(line, "post-up")
  }

  /** The words of an `ip` command, after the option for a family if both families are parsed */
  function Command(line: Line, ipv6: bool): seq<Word> {
    if !IsUp(line) || |line| < 2 || line[1] != Key("ip") then []
    else if ipv6 && |line| > 2 && (line[2] == Key("-4") || line[2] == Key("-6")) then line[3..]
    else line[2..]
  }

  predicate AddsRoute(line: Line, ipv6: bool) {
    var c := Command(line, ipv6);
    |c| >= 5 && c[0] == Key("route") && c[1] == Key("add") && c[3] == Key("via")
  }

  predicate AddsAddress(line: Line, ipv6: bool) {
    var c := Command(line, ipv6);
    |c| >= 5 && c[0] == Key("addr") && c[1] == Key("add") && c[3] == Key("dev")
  }

  /** The network of an address, its host bits dropped, with a next hop of the same family */
  function RouteIn(line: Line, ipv6: bool): Option<Route> {
    if !AddsRoute(line, ipv6) then None
    else
      var net, hop := AsNetwork(Command(line, ipv6)[2]), Command(line, ipv6)[4];
      if net.None? || !net.value.Valid() || !hop.Bare? || hop.address.family != net.value.family
         || (net.value.family == V6 && !ipv6) then None
      else Some(Route(net.value, hop.address))
  }

  function ExtraIn(line: Line, ipv6: bool): Option<Interface> {
    if !AddsAddress(line, ipv6) then None
    else
      var i := InterfaceIn(Command(line, ipv6)[2]);
      if i.Some? && i.value.ip.family == V6 && !ipv6 then None else i
  }

  /** The options of ifupdown, and those of its `inet6` stanzas */
  predicate Known(text: string, f: Family) {
    || text in ["broadcast", "network", "metric", "hwaddress", "mtu", "scope", "pre-up", "down", "pre-down", "post-down"]
    || text in ["dns-nameservers", "dns-search", "dns-domain", "vlan-raw-device", "bridge_ports", "bridge_stp", "bridge_fd"]
    || text in ["bond-master", "bond-slaves", "bond-mode", "bond-miimon", "wpa-ssid", "wpa-psk", "wpa-conf"]
    || (f == V6 && text in ["accept_ra", "autoconf", "privext", "dad-attempts", "dad-interval", "preferred-lifetime", "media"])
  }

  /** An option that a static stanza of a family cannot hold */
  predicate BadOption(line: Line, f: Family, ipv6: bool) {
    if StartsWith(line, "address") then AddressIn(line, f).None?
    else if StartsWith(line, "netmask") then NetmaskIn(line).None?
    else if StartsWith(line, "gateway") then GatewayIn(line, f).None?
    else if IsUp(line) then
      (AddsRoute(line, ipv6) && RouteIn(line, ipv6).None?) || (AddsAddress(line, ipv6) && ExtraIn(line, ipv6).None?)
    else line != [] && !(line[0].Key? && Known(line[0].text, f))
  }

  // ----- the meaning of a file -----

  /** What the last line of the stanzas of a place says that says anything */
  ghost function Latest<T>(lines: seq<Line>, n: nat, place: Place, ipv6: bool, pick: Line -> Option<T>): Option<T>
    requires n <= |lines|
  {
    if n == 0 then None
    else if Within(lines, n - 1, place, ipv6) && pick(lines[n - 1]).Some? then pick(lines[n - 1])
    else Latest(lines, n - 1, place, ipv6, pick)
  }

  /** What all lines of the stanzas of a place say, in order */
  ghost function Collected<T>(lines: seq<Line>, n: nat, place: Place, ipv6: bool, pick: Line -> Option<T>): seq<T>
    requires n <= |lines|
  {
    if n == 0 then []
    else
      Collected(lines, n - 1, place, ipv6, pick)
      + (if Within(lines, n - 1, place, ipv6) && pick(lines[n - 1]).Some? then [pick(lines[n - 1]).value] else [])
  }

  ghost function Recorded(lines: seq<Line>, place: Place, ipv6: bool): Bucket {
    var n, f := |lines|, place.family;
    Bucket(Latest(lines, n, place, ipv6, (l: Line) => AddressIn(l, f)),
           Latest(lines, n, place, ipv6, (l: Line) => PrefixIn(l, f)) == Some(true),
           Latest(lines, n, place, ipv6, (l: Line) => NetmaskIn(l)),
           Collected(lines, n, place, ipv6, (l: Line) => ExtraIn(l, ipv6)),
           Collected(lines, n, place, ipv6, (l: Line) => RouteIn(l, ipv6)),
           Latest(lines, n, place, ipv6, (l: Line) => GatewayIn(l, f)))
  }

  /** A line that declares an interface without a family or a method, an option outside any stanza, or one that
      its stanza cannot hold */
  ghost predicate Wrong(lines: seq<Line>, i: nat, ipv6: bool) {
    && i < |lines|
    && (|| (IsIface(lines[i]) && |lines[i]| < 4)
        || (IsOption(lines[i]) && Outside(lines, i))
        || (IsOption(lines[i]) && exists place :: Within(lines, i, place, ipv6) && BadOption(lines[i], place.family, ipv6)))
  }

  ghost function WrongLines(lines: seq<Line>, n: nat, ipv6: bool): nat {
    if n == 0 then 0 else WrongLines(lines, n - 1, ipv6) + (if Wrong(lines, n - 1, ipv6) then 1 else 0)
  }

  /** The names declared with a method */
  ghost function Declared(lines: seq<Line>, f: Family, method_: string): set<string> {
    set j | 0 <= j < |lines| && |lines[j]| >= 4 && Declares(lines[j], NameOf(lines[j][1]), f, method_) :: NameOf(lines[j][1])
  }

  ghost function Automatic(lines: seq<Line>): set<string> {
    set j, k | 0 <= j < |lines| && IsAuto(lines[j]) && 1 <= k < |lines[j]| && lines[j][k].Key? :: lines[j][k].text
  }

  // ----- one more line -----

  lemma HeadsLast(lines: seq<Line>, line: Line, j: nat)
    ensures Heads(lines + [line], j, |lines| + 1) <==> if IsIface(line) then j == |lines| else Heads(lines, j, |lines|)
  {
    var all := lines + [line];
    assert all[|lines|] == line;
    hide IsIface;
    if Heads(lines, j, |lines|) && !IsIface(line) {
      assert forall k :: j < k < |all| ==> !IsIface(all[k]);
    }
    if Heads(all, j, |all|) && !IsIface(line) {
      assert forall k :: j < k < |lines| ==> lines[k] == all[k];
    }
  }

  lemma HeadsBefore(lines: seq<Line>, line: Line, j: nat, i: nat)
    requires i <= |lines|
    ensures Heads(lines + [line], j, i) <==> Heads(lines, j, i)
  {
    hide IsIface;
    assert forall k :: 0 <= k < |lines| ==> (lines + [line])[k] == lines[k];
  }

  lemma WithinLast(lines: seq<Line>, line: Line, place: Place, ipv6: bool)
    ensures Within(lines + [line], |lines| + 1, place, ipv6) <==>
            if IsIface(line) then Opens(line, place, ipv6) else Within(lines, |lines|, place, ipv6)
  {
    var all := lines + [line];
    HeadsLast(lines, line, |lines|);
    hide IsIface, Opens, Heads;
    if IsIface(line) && Opens(line, place, ipv6) {
      assert Heads(all, |lines|, |all|) && Opens(all[|lines|], place, ipv6);
    }
    if !IsIface(line) && Within(lines, |lines|, place, ipv6) {
      var j: nat :| Heads(lines, j, |lines|) && Opens(lines[j], place, ipv6);
      HeadsLast(lines, line, j);
      HeadsIn(lines, j, |lines|);
      assert all[j] == lines[j];
    }
    if Within(all, |all|, place, ipv6) {
      var j: nat :| Heads(all, j, |all|) && Opens(all[j], place, ipv6);
      HeadsLast(lines, line, j);
      HeadsIn(all, j, |all|);
      if !IsIface(line) {
        HeadsIn(lines, j, |lines|);
        assert all[j] == lines[j];
      }
    }
  }

  lemma HeadsIn(lines: seq<Line>, j: nat, i: nat)
    requires Heads(lines, j, i)
    ensures j < i <= |lines|
  {
  }

  lemma WithinBefore(lines: seq<Line>, line: Line, i: nat, place: Place, ipv6: bool)
    requires i <= |lines|
    ensures Within(lines + [line], i, place, ipv6) <==> Within(lines, i, place, ipv6)
  {
    var all := lines + [line];
    hide IsIface, Opens;
    if Within(lines, i, place, ipv6) {
      var j: nat :| Heads(lines, j, i) && Opens(lines[j], place, ipv6);
      HeadsBefore(lines, line, j, i);
      HeadsIn(lines, j, i);
      assert all[j] == lines[j];
    }
    if Within(all, i, place, ipv6) {
      var j: nat :| Heads(all, j, i) && Opens(all[j], place, ipv6);
      HeadsBefore(lines, line, j, i);
      HeadsIn(lines, j, i);
      assert all[j] == lines[j];
    }
  }

  lemma OutsideLast(lines: seq<Line>, line: Line)
    ensures Outside(lines + [line], |lines| + 1) <==> if IsIface(line) then |line| < 4 else Outside(lines, |lines|)
  {
    var all := lines + [line];
    HeadsLast(lines, line, |lines|);
    hide IsIface, Heads;
    forall j: nat
      ensures Heads(all, j, |all|) <==> if IsIface(line) then j == |lines| else Heads(lines, j, |lines|)
      ensures Heads(lines, j, |lines|) ==> j < |lines| && all[j] == lines[j]
    {
      HeadsLast(lines, line, j);
      if Heads(lines, j, |lines|) {
        HeadsIn(lines, j, |lines|);
      }
    }
  }

  lemma OutsideBefore(lines: seq<Line>, line: Line, i: nat)
    requires i <= |lines|
    ensures Outside(lines + [line], i) <==> Outside(lines, i)
  {
    var all := lines + [line];
    hide IsIface, Heads;
    forall j: nat
      ensures Heads(all, j, i) <==> Heads(lines, j, i)
      ensures Heads(lines, j, i) ==> j < |lines| && all[j] == lines[j]
    {
      HeadsBefore(lines, line, j, i);
      if Heads(lines, j, i) {
        HeadsIn(lines, j, i);
      }
    }
  }

  lemma {:induction false} LatestBefore<T>(lines: seq<Line>, line: Line, n: nat, place: Place, ipv6: bool, pick: Line -> Option<T>)
    requires n <= |lines|
    ensures Latest(lines + [line], n, place, ipv6, pick) == Latest(lines, n, place, ipv6, pick)
  {
    hide Within;
    if n > 0 {
      LatestBefore(lines, line, n - 1, place, ipv6, pick);
      WithinBefore(lines, line, n - 1, place, ipv6);
      assert (lines + [line])[n - 1] == lines[n - 1];
    }
  }

  lemma {:induction false} CollectedBefore<T>(lines: seq<Line>, line: Line, n: nat, place: Place, ipv6: bool, pick: Line -> Option<T>)
    requires n <= |lines|
    ensures Collected(lines + [line], n, place, ipv6, pick) == Collected(lines, n, place, ipv6, pick)
  {
    hide Within;
    if n > 0 {
      CollectedBefore(lines, line, n - 1, place, ipv6, pick);
      WithinBefore(lines, line, n - 1, place, ipv6);
      assert (lines + [line])[n - 1] == lines[n - 1];
    }
  }

  lemma WrongBefore(lines: seq<Line>, line: Line, i: nat, ipv6: bool)
    requires i < |lines|
    ensures Wrong(lines + [line], i, ipv6) <==> Wrong(lines, i, ipv6)
  {
    hide IsIface, IsOption, BadOption, Within, Outside;
    assert (lines + [line])[i] == lines[i];
    OutsideBefore(lines, line, i);
    forall place
      ensures Within(lines + [line], i, place, ipv6) <==> Within(lines, i, place, ipv6)
    {
      WithinBefore(lines, line, i, place, ipv6);
    }
  }

  lemma {:induction false} WrongLinesBefore(lines: seq<Line>, line: Line, n: nat, ipv6: bool)
    requires n <= |lines|
    ensures WrongLines(lines + [line], n, ipv6) == WrongLines(lines, n, ipv6)
  {
    hide Wrong;
    if n > 0 {
      WrongLinesBefore(lines, line, n - 1, ipv6);
      WrongBefore(lines, line, n - 1, ipv6);
    }
  }
}
