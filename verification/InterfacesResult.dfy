/**
 The result of parsing the interfaces file, from what its lines say.
 */
module InterfacesResult {
  import opened Wrappers
  import opened Texts
  import opened IpAddresses
  import opened NetConfigs
  import opened Sorting
  import opened InterfacesFile
  import opened InterfacesMeaning
  import opened InterfacesParsed

  /** A netmask counts when the address came without a prefix length. */
  predicate Masked(b: Bucket) {
    b.primary.Some? && !b.hasPrefix && b.netmask.Some?
  }

  /** The addresses of one family: the one of the last `address` line, with the netmask if that is understood, and
      those that commands add */
  ghost function Addresses(lines: seq<Line>, place: Place, ipv6: bool, masks: Netmasks): seq<Interface> {
    var b := Recorded(lines, place, ipv6);
    if b.primary.None? then []
    else if Masked(b) && masks(b.netmask.value, place.family).Some?
    then [Interface(b.primary.value.ip, masks(b.netmask.value, place.family).value)] + b.extras
    else [b.primary.value] + b.extras
  }

  /** Its routes: the gateway, and those that commands add; none without an address */
  ghost function Routes(lines: seq<Line>, place: Place, ipv6: bool): seq<Route> {
    var b := Recorded(lines, place, ipv6);
    if b.primary.None? then []
    else if b.gateway.Some? then [Route(Block(place.family, 0, 0), b.gateway.value)] + b.routes
    else b.routes
  }

  /** Whether an interface is dynamic in a family that is parsed */
  ghost predicate Dynamic(lines: seq<Line>, name: string, f: Family, ipv6: bool) {
    if f == V4 then name in Declared(lines, V4, "dhcp")
    else ipv6 && (name in Declared(lines, V6, "dhcp") || name in Declared(lines, V6, "auto"))
  }

  /** Whether its static stanzas of a family count */
  ghost predicate Counts(lines: seq<Line>, name: string, f: Family, ipv6: bool) {
    !Dynamic(lines, name, f, ipv6) && (f == V6 ==> ipv6)
  }

  ghost function CountedAddresses(lines: seq<Line>, name: string, f: Family, ipv6: bool, masks: Netmasks): seq<Interface> {
    if Counts(lines, name, f, ipv6) then Addresses(lines, Place(name, f), ipv6, masks) else []
  }

  ghost function CountedRoutes(lines: seq<Line>, name: string, f: Family, ipv6: bool): seq<Route> {
    if Counts(lines, name, f, ipv6) then Routes(lines, Place(name, f), ipv6) else []
  }

  /** Static with an address in a family that is not dynamic, IPv4 first; else dynamic, or not configured */
  ghost function Entry(lines: seq<Line>, name: string, ipv6: bool, masks: Netmasks): InterfaceConfig {
    var addresses := CountedAddresses(lines, name, V4, ipv6, masks) + CountedAddresses(lines, name, V6, ipv6, masks);
    if addresses != [] then Static(addresses, CountedRoutes(lines, name, V4, ipv6) + CountedRoutes(lines, name, V6, ipv6))
    else if Dynamic(lines, name, V4, ipv6) || Dynamic(lines, name, V6, ipv6) then Dhcp
    else Unconfigured
  }

  ghost predicate BadMask(lines: seq<Line>, name: string, f: Family, ipv6: bool, masks: Netmasks) {
    var b := Recorded(lines, Place(name, f), ipv6);
    Counts(lines, name, f, ipv6) && Masked(b) && masks(b.netmask.value, f).None?
  }

  ghost function BadMasks(lines: seq<Line>, name: string, ipv6: bool, masks: Netmasks): nat {
    (if BadMask(lines, name, V4, ipv6, masks) then 1 else 0) + (if BadMask(lines, name, V6, ipv6, masks) then 1 else 0)
  }

  lemma FinalizedIs(lines: seq<Line>, place: Place, ipv6: bool, masks: Netmasks)
    ensures var b := Recorded(lines, place, ipv6); var r := Finalized(b, place.family, masks);
      && (r.0.None? <==> b.primary.None?) && (r.0.Some? ==> r.0.value.Static?)
      && AddressesOf(r.0) == Addresses(lines, place, ipv6, masks)
      && RoutesIn(r.0) == Routes(lines, place, ipv6)
      && r.1 == if Masked(b) && masks(b.netmask.value, place.family).None? then 1 else 0
  {
    hide Recorded;
    var b := Recorded(lines, place, ipv6);
    assert [] + b.routes == b.routes;
  }

  /** What a bucket that is there is made into, and nothing for one that is not */
  lemma PartIs(lines: seq<Line>, place: Place, ipv6: bool, masks: Netmasks)
    ensures var p := Run(Nothing, lines, ipv6);
            var r := if place in p.data then Finalized(p.data[place], place.family, masks) else (None, 0);
      && r == Finalized(Recorded(lines, place, ipv6), place.family, masks)
  {
    BucketsAre(lines, ipv6, place);
    hide Run, Recorded;
  }

  type Part = (Option<InterfaceConfig>, nat)

  function PartAt(p: Parse, place: Place, masks: Netmasks): Part {
    if place in p.data then Finalized(p.data[place], place.family, masks) else (None, 0)
  }

  lemma IsStatic(p: Parse, place: Place, masks: Netmasks)
    ensures var part := PartAt(p, place, masks).0; part.Some? ==> part.value.Static?
  {
  }

  /** The entry made of the parts of both families that count */
  lemma EntryParts(p: Parse, name: string, ipv6: bool, masks: Netmasks)
    ensures var dyn4, dyn6 := name in p.dhcp, ipv6 && name in p.dyn6;
            var four, six := PartUsed(p, name, V4, ipv6, masks), PartUsed(p, name, V6, ipv6, masks);
            EntryOf(p, name, ipv6, masks) ==
              (if four.0.Some? || six.0.Some? then
                 Static(AddressesOf(four.0) + AddressesOf(six.0), RoutesIn(four.0) + RoutesIn(six.0))
               else if dyn4 || dyn6 then Dhcp else Unconfigured, four.1 + six.1)
  {
    var four := PartAt(p, Place(name, V4), masks);
    assert AddressesOf(None) == [] && RoutesIn(None) == [];
    IsStatic(p, Place(name, V4), masks);
    IsStatic(p, Place(name, V6), masks);
    assert AddressesOf(four.0) + [] == AddressesOf(four.0) && RoutesIn(four.0) + [] == RoutesIn(four.0);
    hide Finalized;
  }

  lemma PartMeans(lines: seq<Line>, place: Place, ipv6: bool, masks: Netmasks)
    ensures var part := PartAt(Run(Nothing, lines, ipv6), place, masks); var b := Recorded(lines, place, ipv6);
      && (part.0.Some? ==> part.0.value.Static?)
      && (part.0.Some? <==> Addresses(lines, place, ipv6, masks) != [])
      && AddressesOf(part.0) == Addresses(lines, place, ipv6, masks)
      && RoutesIn(part.0) == Routes(lines, place, ipv6)
      && part.1 == if Masked(b) && masks(b.netmask.value, place.family).None? then 1 else 0
  {
    PartIs(lines, place, ipv6, masks);
    FinalizedIs(lines, place, ipv6, masks);
    NothingStatic(lines, place, ipv6, masks);
    hide Run, Recorded, Finalized, Addresses, Routes, Masked, AddressesOf, RoutesIn;
  }

  /** The part of a family that counts */
  function PartUsed(p: Parse, name: string, f: Family, ipv6: bool, masks: Netmasks): Part {
    if (if f == V4 then name in p.dhcp else !ipv6 || name in p.dyn6) then (None, 0) else PartAt(p, Place(name, f), masks)
  }

  lemma UsedMeans(lines: seq<Line>, name: string, f: Family, ipv6: bool, masks: Netmasks)
    ensures var part := PartUsed(Run(Nothing, lines, ipv6), name, f, ipv6, masks);
      && (part.0.Some? <==> CountedAddresses(lines, name, f, ipv6, masks) != [])
      && AddressesOf(part.0) == CountedAddresses(lines, name, f, ipv6, masks)
      && RoutesIn(part.0) == CountedRoutes(lines, name, f, ipv6)
      && part.1 == if BadMask(lines, name, f, ipv6, masks) then 1 else 0
  {
    NamesAre(lines, ipv6);
    PartMeans(lines, Place(name, f), ipv6, masks);
    assert AddressesOf(None) == [] && RoutesIn(None) == [];
    hide PartAt, Run, Recorded, Declared, Addresses, Routes, Masked, AddressesOf, RoutesIn;
  }

  lemma EntryIs(lines: seq<Line>, name: string, ipv6: bool, masks: Netmasks)
    ensures EntryOf(Run(Nothing, lines, ipv6), name, ipv6, masks) == (Entry(lines, name, ipv6, masks), BadMasks(lines, name, ipv6, masks))
  {
    assert Nothing.current.None?;
    hide *;
    var p := Run(Nothing, lines, ipv6);
    EntryParts(p, name, ipv6, masks);
    PartsMean(lines, name, ipv6, masks);
    EntryUnfolds(lines, name, ipv6, masks);
  }

  /** What the two parts that count amount to */
  lemma PartsMean(lines: seq<Line>, name: string, ipv6: bool, masks: Netmasks)
    ensures var p := Run(Nothing, lines, ipv6);
            var four, six := PartUsed(p, name, V4, ipv6, masks), PartUsed(p, name, V6, ipv6, masks);
            var a, b := CountedAddresses(lines, name, V4, ipv6, masks), CountedAddresses(lines, name, V6, ipv6, masks);
      && (four.0.Some? <==> a != []) && (six.0.Some? <==> b != [])
      && AddressesOf(four.0) + AddressesOf(six.0) == a + b
      && RoutesIn(four.0) + RoutesIn(six.0) == CountedRoutes(lines, name, V4, ipv6) + CountedRoutes(lines, name, V6, ipv6)
      && four.1 + six.1 == (if BadMask(lines, name, V4, ipv6, masks) then 1 else 0)
                           + (if BadMask(lines, name, V6, ipv6, masks) then 1 else 0)
      && (name in p.dhcp || (ipv6 && name in p.dyn6) <==> Dynamic(lines, name, V4, ipv6) || Dynamic(lines, name, V6, ipv6))
  {
    assert Nothing.current.None?;
    hide *;
    DynamicIs(lines, name, ipv6);
    UsedMeans(lines, name, V4, ipv6, masks);
    UsedMeans(lines, name, V6, ipv6, masks);
  }

  lemma DynamicIs(lines: seq<Line>, name: string, ipv6: bool)
    ensures var p := Run(Nothing, lines, ipv6);
            (name in p.dhcp <==> Dynamic(lines, name, V4, ipv6)) && (ipv6 && name in p.dyn6 <==> Dynamic(lines, name, V6, ipv6))
  {
    NamesAre(lines, ipv6);
    hide Run, Declared;
  }

  lemma EntryUnfolds(lines: seq<Line>, name: string, ipv6: bool, masks: Netmasks)
    ensures var a, b := CountedAddresses(lines, name, V4, ipv6, masks), CountedAddresses(lines, name, V6, ipv6, masks);
            Entry(lines, name, ipv6, masks) ==
              if a != [] || b != [] then Static(a + b, CountedRoutes(lines, name, V4, ipv6) + CountedRoutes(lines, name, V6, ipv6))
              else if Dynamic(lines, name, V4, ipv6) || Dynamic(lines, name, V6, ipv6) then Dhcp
              else Unconfigured
    ensures BadMasks(lines, name, ipv6, masks) ==
            (if BadMask(lines, name, V4, ipv6, masks) then 1 else 0) + (if BadMask(lines, name, V6, ipv6, masks) then 1 else 0)
  {
    hide CountedAddresses, CountedRoutes, Dynamic, BadMask;
  }

  lemma NothingStatic(lines: seq<Line>, place: Place, ipv6: bool, masks: Netmasks)
    ensures Addresses(lines, place, ipv6, masks) == [] <==> Recorded(lines, place, ipv6).primary.None?
    ensures Recorded(lines, place, ipv6).primary.None? ==> Routes(lines, place, ipv6) == []
  {
    hide Recorded;
  }

  /** An interface that a file tells something about */
  ghost predicate Mentioned(lines: seq<Line>, name: string, ipv6: bool) {
    || (exists j, f :: 0 <= j < |lines| && Opens(lines[j], Place(name, f), ipv6))
    || Dynamic(lines, name, V4, ipv6) || Dynamic(lines, name, V6, ipv6)
    || name in Automatic(lines)
  }

  lemma KnownIs(lines: seq<Line>, ipv6: bool, name: string)
    ensures name in KnownNames(Run(Nothing, lines, ipv6)) <==>
            |name| > 3 && name[..3] == "eth" && (forall i :: 3 <= i < |name| ==> '0' <= name[i] <= '9') && Mentioned(lines, name, ipv6)
  {
    NamesAre(lines, ipv6);
    PlacesAre(lines, ipv6, Place(name, V4));
    PlacesAre(lines, ipv6, Place(name, V6));
    EthIs(name);
    InEither(Run(Nothing, lines, ipv6), name);
    OpensEither(lines, name, ipv6);
    hide Run, Declared, Automatic, Opens, IsEth;
  }

  lemma InEither(p: Parse, name: string)
    ensures name in (set place | place in p.data && IsEth(place.name) :: place.name) <==>
            IsEth(name) && (Place(name, V4) in p.data || Place(name, V6) in p.data)
  {
    hide IsEth;
    forall place | place in p.data && place.name == name
      ensures Place(name, V4) in p.data || Place(name, V6) in p.data
    {
      match place.family {
        case V4 => assert place == Place(name, V4);
        case V6 => assert place == Place(name, V6);
      }
    }
    assert Place(name, V4).name == name && Place(name, V6).name == name;
  }

  lemma OpensEither(lines: seq<Line>, name: string, ipv6: bool)
    ensures (exists j, f :: 0 <= j < |lines| && Opens(lines[j], Place(name, f), ipv6)) <==>
            || (exists j :: 0 <= j < |lines| && Opens(lines[j], Place(name, V4), ipv6))
            || (exists j :: 0 <= j < |lines| && Opens(lines[j], Place(name, V6), ipv6))
  {
    hide Opens;
    if j, f :| 0 <= j < |lines| && Opens(lines[j], Place(name, f), ipv6) {
      assert f == V4 || f == V6;
    }
  }

  lemma EthIs(name: string)
    ensures IsEth(name) <==> |name| > 3 && name[..3] == "eth" && forall i :: 3 <= i < |name| ==> '0' <= name[i] <= '9'
  {
    if |name| >= 3 {
      var s := name[3..];
      assert forall i :: 0 <= i < |s| ==> s[i] == name[3 + i];
      assert forall i :: 3 <= i < |name| ==> name[i] == s[i - 3];
    }
  }

  ghost function Total(lines: seq<Line>, names: seq<string>, ipv6: bool, masks: Netmasks): nat {
    if names == [] then 0
    else Total(lines, names[..|names| - 1], ipv6, masks) + BadMasks(lines, names[|names| - 1], ipv6, masks)
  }

  lemma {:induction false} EntriesAre(lines: seq<Line>, names: seq<string>, ipv6: bool, masks: Netmasks)
    ensures var r := EntriesOf(Run(Nothing, lines, ipv6), names, ipv6, masks);
      && |r.0| == |names| && (forall i :: 0 <= i < |names| ==> r.0[i] == Entry(lines, names[i], ipv6, masks))
      && r.1 == Total(lines, names, ipv6, masks)
  {
    hide Run, EntryOf, Entry, BadMasks;
    if names != [] {
      EntriesAre(lines, names[..|names| - 1], ipv6, masks);
      EntryIs(lines, names[|names| - 1], ipv6, masks);
    }
  }

  /** Of any file the parser returns one entry for each interface `eth<N>` that it mentions, by number, each as its
      lines say, and as errors the wrong lines and the netmasks that are not understood. */
  lemma FileMeans(lines: seq<Line>, ipv6: bool, masks: Netmasks, order: seq<string>)
    requires multiset(order) == multiset(KnownNames(Run(Nothing, lines, ipv6)))
    ensures var p := Run(Nothing, lines, ipv6);
            var names := SortBy(order, EthNumber());
            var r := EntriesOf(p, names, ipv6, masks);
      && multiset(names) == multiset(KnownNames(p))
      && (forall name :: name in names ==> |name| > 3)
      && (forall i, j :: 0 <= i < j < |names| ==> Decimal(names[i][3..]) <= Decimal(names[j][3..]))
      && |r.0| == |names| && (forall i :: 0 <= i < |names| ==> r.0[i] == Entry(lines, names[i], ipv6, masks))
      && p.errors + r.1 == WrongLines(lines, |lines|, ipv6) + Total(lines, names, ipv6, masks)
  {
    hide Run, Entry, WrongLines, EntriesOf, SortBy, KnownNames, Decimal, Mentioned;
    SortByIs(order, EthNumber(), 0);
    var names := SortBy(order, EthNumber());
    forall name | name in names
      ensures |name| > 3
    {
      assert name in multiset(names);
      KnownIs(lines, ipv6, name);
    }
    EntriesAre(lines, SortBy(order, EthNumber()), ipv6, masks);
    ErrorsAre(lines, ipv6);
  }
}
