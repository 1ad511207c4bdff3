/**
 A rendered interfaces file is parsed back into the configured interfaces, without errors.
 */
module InterfacesRoundTrip {
  import opened Wrappers
  import opened Texts
  import opened IpAddresses
  import opened NetConfigs
  import opened InterfacesFile
  import opened InterfacesParse
  import opened InterfacesStanza

  // ----- names -----

  lemma EthIsEth(n: nat)
    ensures IsEth(Eth(n)) && EthNumber()(Eth(n)) == n && Eth(n) != "lo"
  {
    DecimalOfDigits(n);
    assert Eth(n)[3..] == Digits(n);
  }

  // ----- the state after some entries -----

  function StanzaEffect(p: Parse, name: string, f: Family, addresses: seq<Interface>, routes: seq<Route>, ipv6: bool): Parse {
    var own := OfFamily(addresses, f);
    var extra := if OfFamily(addresses, Other(f)) == [] then RoutesOf(routes, Other(f)) else [];
    if own == [] then p
    else if f == V6 && !ipv6 then p.(current := None, ignored := true)
    else p.(current := Some(Place(name, f)), ignored := false,
            data := p.data[Place(name, f) := Filled(f, own, RoutesOf(routes, f), extra, ipv6)])
  }

  function Effect(p: Parse, n: nat, e: InterfaceConfig, ipv6: bool): Parse {
    match e
    case Unconfigured => p
    case Dhcp => p.(auto := p.auto + {Eth(n)}, dhcp := p.dhcp + {Eth(n)}, current := None, ignored := true)
    case Static(addresses, routes) =>
      var started := p.(auto := p.auto + {Eth(n)});
      StanzaEffect(StanzaEffect(started, Eth(n), V4, addresses, routes, ipv6), Eth(n), V6, addresses, routes, ipv6)
  }

  const AfterLoopback: Parse := Parse(map[], {}, {}, {"lo"}, None, true, 0)

  function After(nc: MachineConfig, k: nat, ipv6: bool): Parse
    requires k <= |nc|
  {
    if k == 0 then AfterLoopback else Effect(After(nc, k - 1, ipv6), k - 1, nc[k - 1], ipv6)
  }

  lemma RunLoopback(ipv6: bool)
    ensures Run(Nothing, Loopback, ipv6) == AfterLoopback
  {
    AutoRun(Nothing, "lo", ipv6);
    var p := Nothing.(auto := {"lo"});
    assert {} + {"lo"} == {"lo"};
    var a, b := [Key("auto"), Key("lo")], [Key("iface"), Key("lo"), Key("inet"), Key("loopback")];
    LoopbackIface(p, ipv6);
    hide Step, Run;
    RunThree(Nothing, a, b, [], ipv6);
    BlankStep(AfterLoopback, ipv6);
  }

  lemma RunThree(p: Parse, a: Line, b: Line, c: Line, ipv6: bool)
    requires p.current.Some? ==> p.current.value in p.data
    ensures Run(p, [a, b, c], ipv6) == Step(Step(Step(p, a, ipv6), b, ipv6), c, ipv6)
  {
    hide Step, Run;
    RunOne(p, a, ipv6);
    RunLast(p, [a], b, ipv6);
    RunLast(p, [a] + [b], c, ipv6);
    assert [a] + [b] + [c] == [a, b, c];
  }

  lemma AutoRun(p: Parse, name: string, ipv6: bool)
    requires p.current.Some? ==> p.current.value in p.data
    ensures Step(p, [Key("auto"), Key(name)], ipv6) == p.(auto := p.auto + {name})
  {
    var line := [Key("auto"), Key(name)];
    assert (set i | 1 <= i < |line| && line[i].Key? :: line[i].text) == {name} by {
      assert line[1].text == name;
    }
  }

  lemma LoopbackIface(p: Parse, ipv6: bool)
    requires p.current.Some? ==> p.current.value in p.data
    ensures Step(p, [Key("iface"), Key("lo"), Key("inet"), Key("loopback")], ipv6) == p.(current := None, ignored := true)
  {
    assert "loopback" != "static" && "loopback" != "dhcp" && "loopback" != "auto";
  }

  lemma DhcpIface(p: Parse, name: string, ipv6: bool)
    requires p.current.Some? ==> p.current.value in p.data
    ensures Step(p, [Key("iface"), Key(name), Key("inet"), Key("dhcp")], ipv6)
         == p.(dhcp := p.dhcp + {name}, current := None, ignored := true)
  {
    assert "dhcp" != "static";
  }

  // ----- running one entry -----

  lemma StanzaIsGood(e: InterfaceConfig, f: Family)
    requires GoodEntry(e) && e.Static? && OfFamily(e.addresses, f) != []
    ensures GoodStanza(f, OfFamily(e.addresses, f), RoutesOf(e.routes, f),
                       if OfFamily(e.addresses, Other(f)) == [] then RoutesOf(e.routes, Other(f)) else [])
  {
    forall i | i in OfFamily(e.addresses, f)
      ensures GoodAddress(i) && i.ip.family == f
    {
      OfFamilyIs(e.addresses, f, i);
    }
    forall r, g | r in RoutesOf(e.routes, g)
      ensures GoodRoute(r) && r.net.family == g
    {
      RoutesOfIs(e.routes, g, r);
    }
  }

  lemma RunStanzaOf(p: Parse, name: string, f: Family, e: InterfaceConfig, ipv6: bool)
    requires p.current.Some? ==> p.current.value in p.data
    requires GoodEntry(e) && e.Static? && Place(name, f) !in p.data
    ensures Run(p, StanzaOf(name, f, e.addresses, e.routes), ipv6)
         == StanzaEffect(p, name, f, e.addresses, e.routes, ipv6)
  {
    var own := OfFamily(e.addresses, f);
    if own != [] {
      StanzaIsGood(e, f);
      hide Step, Run, Stanza, Filled, GoodStanza, GoodEntry, OfFamily, RoutesOf;
      var extra := if OfFamily(e.addresses, Other(f)) == [] then RoutesOf(e.routes, Other(f)) else [];
      var lines := Stanza(name, f, own, RoutesOf(e.routes, f), extra);
      if f == V6 && !ipv6 {
        RunHidden(p, name, own, RoutesOf(e.routes, f), extra);
      } else {
        RunStanza(p, name, f, own, RoutesOf(e.routes, f), extra, ipv6);
      }
      RunLast(p, lines, [], ipv6);
      BlankStep(Run(p, lines, ipv6), ipv6);
    }
  }

  lemma RunEntry(p: Parse, n: nat, e: InterfaceConfig, ipv6: bool)
    requires p.current.Some? ==> p.current.value in p.data
    requires GoodEntry(e) && Place(Eth(n), V4) !in p.data && Place(Eth(n), V6) !in p.data
    ensures EntryLines(n, e).Some?
    ensures Run(p, EntryLines(n, e).value, ipv6) == Effect(p, n, e, ipv6)
  {
    var name := Eth(n);
    AutoRun(p, name, ipv6);
    match e
    case Unconfigured =>
    case Dhcp =>
      var started := p.(auto := p.auto + {name});
      DhcpIface(started, name, ipv6);
      hide Step, Run;
      RunThree(p, [Key("auto"), Key(name)], [Key("iface"), Key(name), Key("inet"), Key("dhcp")], [], ipv6);
      BlankStep(started.(dhcp := p.dhcp + {name}, current := None, ignored := true), ipv6);
    case Static(addresses, routes) =>
      hide Step, Run, StanzaOf, GoodEntry, OfFamily, RoutesOf, Filled;
      var started := p.(auto := p.auto + {name});
      var first := [Key("auto"), Key(name)];
      RunOne(p, first, ipv6);
      RunStanzaOf(started, name, V4, e, ipv6);
      var four := StanzaEffect(started, name, V4, addresses, routes, ipv6);
      RunStanzaOf(four, name, V6, e, ipv6);
      RunAppend(p, [first], StanzaOf(name, V4, addresses, routes), ipv6);
      RunAppend(p, [first] + StanzaOf(name, V4, addresses, routes), StanzaOf(name, V6, addresses, routes), ipv6);
  }

  // ----- running all -----

  /** Which stanza the parser keeps */
  predicate Kept(e: InterfaceConfig, f: Family, ipv6: bool) {
    e.Static? && OfFamily(e.addresses, f) != [] && (f == V4 || ipv6)
  }

  function BucketOf(e: InterfaceConfig, f: Family, ipv6: bool): Bucket
    requires Kept(e, f, ipv6)
  {
    Filled(f, OfFamily(e.addresses, f), RoutesOf(e.routes, f),
           if OfFamily(e.addresses, Other(f)) == [] then RoutesOf(e.routes, Other(f)) else [], ipv6)
  }

  /** What one entry changes */
  lemma EffectIs(p: Parse, n: nat, e: InterfaceConfig, ipv6: bool)
    ensures var q := Effect(p, n, e, ipv6);
      && q.errors == p.errors && q.dyn6 == p.dyn6
      && q.dhcp == (if e.Dhcp? then p.dhcp + {Eth(n)} else p.dhcp)
      && q.auto == (if e.Unconfigured? then p.auto else p.auto + {Eth(n)})
      && (forall place :: place in q.data <==>
            place in p.data || (place.name == Eth(n) && Kept(e, place.family, ipv6)))
      && (forall place :: place in q.data ==>
            q.data[place] == if place.name == Eth(n) && Kept(e, place.family, ipv6)
                             then BucketOf(e, place.family, ipv6) else p.data[place])
  {
    hide Eth, Filled, OfFamily, RoutesOf;
  }

  /** Each entry is recorded under its own name. */
  lemma {:induction false} AfterAt(nc: MachineConfig, k: nat, n: nat, ipv6: bool)
    requires k <= |nc| && n < |nc|
    ensures var p := After(nc, k, ipv6);
      && p.errors == 0 && p.dyn6 == {}
      && (Eth(n) in p.dhcp <==> n < k && nc[n].Dhcp?)
      && (Eth(n) in p.auto <==> n < k && !nc[n].Unconfigured?)
      && (forall f :: Place(Eth(n), f) in p.data <==> n < k && Kept(nc[n], f, ipv6))
      && (forall f :: n < k && Kept(nc[n], f, ipv6) ==> p.data[Place(Eth(n), f)] == BucketOf(nc[n], f, ipv6))
  {
    hide Effect, Eth, EthNumber, IsEth, Kept, BucketOf;
    EthIsEth(n);
    if k > 0 {
      AfterAt(nc, k - 1, n, ipv6);
      EffectIs(After(nc, k - 1, ipv6), k - 1, nc[k - 1], ipv6);
      EthIsEth(k - 1);
    }
  }

  lemma {:induction false} AfterNames(nc: MachineConfig, k: nat, name: string, ipv6: bool)
    requires k <= |nc|
    ensures var p := After(nc, k, ipv6);
      (name in p.auto || name in p.dhcp || exists f :: Place(name, f) in p.data) ==>
        name == "lo" || exists n :: 0 <= n < k && Eth(n) == name
  {
    if k > 0 {
      AfterNames(nc, k - 1, name, ipv6);
      EffectIs(After(nc, k - 1, ipv6), k - 1, nc[k - 1], ipv6);
      hide Effect, Eth, Kept, BucketOf;
    }
  }

  lemma AfterIsClosed(nc: MachineConfig, k: nat, ipv6: bool)
    requires k <= |nc|
    ensures var p := After(nc, k, ipv6); p.current.Some? ==> p.current.value in p.data
  {
    hide Eth, Filled, OfFamily, RoutesOf;
    if k > 0 {
      AfterIsClosed(nc, k - 1, ipv6);
    }
  }

  lemma NewPlace(nc: MachineConfig, k: nat, ipv6: bool)
    requires 0 < k <= |nc|
    ensures var p := After(nc, k - 1, ipv6); Place(Eth(k - 1), V4) !in p.data && Place(Eth(k - 1), V6) !in p.data
  {
    hide Eth, Kept, BucketOf, After;
    AfterAt(nc, k - 1, k - 1, ipv6);
  }

  lemma {:induction false} RunRendered(nc: MachineConfig, k: nat, ipv6: bool)
    requires k <= |nc| && forall e :: e in nc ==> GoodEntry(e)
    ensures Rendered(nc, k).Some?
    ensures Run(Nothing, Rendered(nc, k).value, ipv6) == After(nc, k, ipv6)
  {
    hide Run, Effect, GoodEntry, EntryLines, Eth, Step;
    if k == 0 {
      RunLoopback(ipv6);
    } else {
      RunRendered(nc, k - 1, ipv6);
      NewPlace(nc, k, ipv6);
      AfterIsClosed(nc, k - 1, ipv6);
      assert nc[k - 1] in nc;
      RunEntry(After(nc, k - 1, ipv6), k - 1, nc[k - 1], ipv6);
      RunAppend(Nothing, Rendered(nc, k - 1).value, EntryLines(k - 1, nc[k - 1]).value, ipv6);
    }
  }
}
