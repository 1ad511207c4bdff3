/**
 The parser of the interfaces file against what a file says: its state after any lines is the meaning of these
 lines, and its count of errors the number of wrong ones.
 */
module InterfacesParsed {
  import opened Wrappers
  import opened IpAddresses
  import opened InterfacesFile
  import opened InterfacesMeaning

  lemma StepIs(p: Parse, line: Line, ipv6: bool)
    requires p.current.Some? ==> p.current.value in p.data
    ensures Blank(line) || IsDirective(line) ==> Step(p, line, ipv6) == p
    ensures IsIface(line) ==> Step(p, line, ipv6) == IfaceStep(p, line, ipv6)
    ensures IsAuto(line) ==> Step(p, line, ipv6) == AutoStep(p, line)
    ensures IsOption(line) ==> Step(p, line, ipv6) == OptionStep(p, line, ipv6)
  {
    hide IfaceStep, AutoStep, OptionStep;
  }

  lemma RunNext(lines: seq<Line>, line: Line, ipv6: bool)
    ensures Run(Nothing, lines + [line], ipv6) == Step(Run(Nothing, lines, ipv6), line, ipv6)
  {
    hide Step;
    assert (lines + [line])[..|lines|] == lines;
  }

  lemma NothingRun(ipv6: bool)
    ensures Run(Nothing, [], ipv6) == Nothing
  {
  }

  // ----- the current stanza -----

  lemma IfaceCurrent(p: Parse, line: Line, ipv6: bool)
    requires IsIface(line)
    ensures forall place :: IfaceStep(p, line, ipv6).current == Some(place) <==> Opens(line, place, ipv6)
    ensures IfaceStep(p, line, ipv6).current.None? && !IfaceStep(p, line, ipv6).ignored <==> |line| < 4
  {
    assert "inet" != "inet6" && "static" != "dhcp" && "static" != "auto";
  }

  /** What a line that declares nothing leaves as it is */
  lemma OtherKeeps(p: Parse, line: Line, ipv6: bool)
    requires !IsIface(line) && (p.current.Some? ==> p.current.value in p.data)
    ensures var r := Step(p, line, ipv6);
      && r.current == p.current && r.data.Keys == p.data.Keys
      && r.ignored == p.ignored && r.dhcp == p.dhcp && r.dyn6 == p.dyn6
      && (!IsAuto(line) ==> r.auto == p.auto)
  {
    StepIs(p, line, ipv6);
    hide Step, OptionStep;
    assert IsOption(line) ==> line != [];
  }

  lemma NothingHeads()
    ensures Outside([], 0) && forall place, ipv6 :: !Within([], 0, place, ipv6)
  {
  }

  /** The stanza that the parser is in */
  lemma {:induction false} CurrentIs(lines: seq<Line>, ipv6: bool)
    ensures var p := Run(Nothing, lines, ipv6);
      && (forall place :: p.current == Some(place) <==> Within(lines, |lines|, place, ipv6))
      && (p.current.None? && !p.ignored <==> Outside(lines, |lines|))
  {
    NothingRun(ipv6);
    NothingHeads();
    hide Within, Outside, Opens, Step, IfaceStep, Run;
    if lines != [] {
      var front, line := lines[..|lines| - 1], lines[|lines| - 1];
      assert lines == front + [line];
      CurrentIs(front, ipv6);
      var p := Run(Nothing, front, ipv6);
      RunNext(front, line, ipv6);
      StepIs(p, line, ipv6);
      OutsideLast(front, line);
      forall place
        ensures Within(lines, |lines|, place, ipv6) <==>
                if IsIface(line) then Opens(line, place, ipv6) else Within(front, |front|, place, ipv6)
      {
        WithinLast(front, line, place, ipv6);
      }
      if IsIface(line) {
        IfaceCurrent(p, line, ipv6);
      } else {
        OtherKeeps(p, line, ipv6);
      }
    }
  }

  // ----- the names -----

  function NamedBy(line: Line, f: Family, method_: string): set<string> {
    if |line| >= 4 && Declares(line, NameOf(line[1]), f, method_) then {NameOf(line[1])} else {}
  }

  lemma DeclaredNext(lines: seq<Line>, line: Line, f: Family, method_: string)
    ensures Declared(lines + [line], f, method_) ==
            Declared(lines, f, method_) +
            NamedBy(line, f, method_)
  {
    var all := lines + [line];
    hide Declares, NameOf;
    forall name
      ensures name in Declared(all, f, method_) <==>
              name in Declared(lines, f, method_)
              || (|line| >= 4 && Declares(line, NameOf(line[1]), f, method_) && name == NameOf(line[1]))
    {
      if name in Declared(lines, f, method_) {
        var j :| 0 <= j < |lines| && |lines[j]| >= 4 && Declares(lines[j], NameOf(lines[j][1]), f, method_) && name == NameOf(lines[j][1]);
        assert all[j] == lines[j];
      }
      if |line| >= 4 && Declares(line, NameOf(line[1]), f, method_) && name == NameOf(line[1]) {
        assert all[|lines|] == line;
      }
    }
  }

  function AutoNames(line: Line): set<string> {
    if IsAuto(line) then set k | 1 <= k < |line| && line[k].Key? :: line[k].text else {}
  }

  lemma AutomaticNext(lines: seq<Line>, line: Line)
    ensures Automatic(lines + [line]) ==
            Automatic(lines) + AutoNames(line)
  {
    var all := lines + [line];
    hide IsAuto;
    forall name
      ensures name in Automatic(all) <==>
              name in Automatic(lines) || (IsAuto(line) && exists k :: 1 <= k < |line| && line[k].Key? && line[k].text == name)
    {
      if name in Automatic(lines) {
        var j, k :| 0 <= j < |lines| && IsAuto(lines[j]) && 1 <= k < |lines[j]| && lines[j][k].Key? && lines[j][k].text == name;
        assert all[j] == lines[j];
      }
      if IsAuto(line) && exists k :: 1 <= k < |line| && line[k].Key? && line[k].text == name {
        assert all[|lines|] == line;
      }
    }
  }

  lemma IfaceNames(p: Parse, line: Line, ipv6: bool)
    requires IsIface(line)
    ensures var r := IfaceStep(p, line, ipv6);
      && r.auto == p.auto
      && r.dhcp == p.dhcp + NamedBy(line, V4, "dhcp")
      && r.dyn6 == p.dyn6 + (if ipv6 then NamedBy(line, V6, "dhcp") + NamedBy(line, V6, "auto") else {})
  {
    assert "inet" != "inet6" && "static" != "dhcp" && "static" != "auto";
  }

  lemma NotDeclared(line: Line, f: Family, method_: string)
    requires !IsIface(line)
    ensures NamedBy(line, f, method_) == {}
  {
  }

  lemma NotIface(line: Line)
    requires IsAuto(line)
    ensures !IsIface(line)
  {
  }

  /** The names that one line adds */
  lemma NamesNext(p: Parse, line: Line, ipv6: bool)
    requires p.current.Some? ==> p.current.value in p.data
    ensures var r := Step(p, line, ipv6);
      && r.auto == p.auto + AutoNames(line)
      && r.dhcp == p.dhcp + NamedBy(line, V4, "dhcp")
      && r.dyn6 == p.dyn6 + (if ipv6 then NamedBy(line, V6, "dhcp") + NamedBy(line, V6, "auto") else {})
  {
    StepIs(p, line, ipv6);
    hide Step, IfaceStep, OptionStep, NamedBy, IsIface, IsAuto, IsOption, IsDirective, Blank;
    if IsIface(line) {
      IfaceNames(p, line, ipv6);
      if IsAuto(line) {
        NotIface(line);
      }
    } else {
      OtherKeeps(p, line, ipv6);
      NotDeclared(line, V4, "dhcp");
      NotDeclared(line, V6, "dhcp");
      NotDeclared(line, V6, "auto");
    }
  }

  lemma NoNames()
    ensures Automatic([]) == {} && forall f, method_ :: Declared([], f, method_) == {}
  {
  }

  /** The names that the parser collects */
  lemma {:induction false} NamesAre(lines: seq<Line>, ipv6: bool)
    ensures var p := Run(Nothing, lines, ipv6);
      && p.auto == Automatic(lines)
      && p.dhcp == Declared(lines, V4, "dhcp")
      && p.dyn6 == if ipv6 then Declared(lines, V6, "dhcp") + Declared(lines, V6, "auto") else {}
  {
    NothingRun(ipv6);
    NoNames();
    hide Step, Run, Declared, Automatic, NamedBy, AutoNames;
    if lines != [] {
      var front, line := lines[..|lines| - 1], lines[|lines| - 1];
      assert lines == front + [line];
      NamesAre(front, ipv6);
      RunNext(front, line, ipv6);
      NamesNext(Run(Nothing, front, ipv6), line, ipv6);
      DeclaredNext(front, line, V4, "dhcp");
      DeclaredNext(front, line, V6, "dhcp");
      DeclaredNext(front, line, V6, "auto");
      AutomaticNext(front, line);
    }
  }

  lemma IfacePlaces(p: Parse, line: Line, ipv6: bool, place: Place)
    requires IsIface(line)
    ensures place in IfaceStep(p, line, ipv6).data <==> place in p.data || Opens(line, place, ipv6)
    ensures BucketAt(IfaceStep(p, line, ipv6), place) == BucketAt(p, place)
  {
    assert "inet" != "inet6" && "static" != "dhcp" && "static" != "auto";
  }

  /** The places with a bucket are those with a static stanza. */
  lemma {:induction false} PlacesAre(lines: seq<Line>, ipv6: bool, place: Place)
    ensures place in Run(Nothing, lines, ipv6).data <==> exists j :: 0 <= j < |lines| && Opens(lines[j], place, ipv6)
  {
    NothingRun(ipv6);
    hide Step, IfaceStep, Run, IsIface, Opens;
    if lines != [] {
      var front, line := lines[..|lines| - 1], lines[|lines| - 1];
      assert lines == front + [line];
      PlacesAre(front, ipv6, place);
      var p := Run(Nothing, front, ipv6);
      RunNext(front, line, ipv6);
      StepIs(p, line, ipv6);
      StaticIsIface(line, place, ipv6);
      if IsIface(line) {
        IfacePlaces(p, line, ipv6, place);
      } else {
        OtherKeeps(p, line, ipv6);
      }
      assert (exists j :: 0 <= j < |lines| && Opens(lines[j], place, ipv6)) <==>
             (exists j :: 0 <= j < |front| && Opens(front[j], place, ipv6)) || Opens(line, place, ipv6) by {
        LastOrBefore(front, line, place, ipv6);
      }
    }
  }

  lemma LastOrBefore(front: seq<Line>, line: Line, place: Place, ipv6: bool)
    ensures (exists j :: 0 <= j < |front| + 1 && Opens((front + [line])[j], place, ipv6)) <==>
            (exists j :: 0 <= j < |front| && Opens(front[j], place, ipv6)) || Opens(line, place, ipv6)
  {
    var all := front + [line];
    hide Opens;
    assert all[|front|] == line && forall j :: 0 <= j < |front| ==> all[j] == front[j];
  }

  lemma StaticIsIface(line: Line, place: Place, ipv6: bool)
    ensures Opens(line, place, ipv6) ==> IsIface(line)
  {
  }

  // ----- the buckets -----

  function BucketAt(p: Parse, place: Place): Bucket {
    if place in p.data then p.data[place] else NewBucket
  }

  /** What a line adds to a bucket */
  function Updated(b: Bucket, line: Line, f: Family, ipv6: bool): Bucket {
    Bucket(if AddressIn(line, f).Some? then AddressIn(line, f) else b.primary,
           if PrefixIn(line, f).Some? then PrefixIn(line, f).value else b.hasPrefix,
           if NetmaskIn(line).Some? then NetmaskIn(line) else b.netmask,
           b.extras + (if ExtraIn(line, ipv6).Some? then [ExtraIn(line, ipv6).value] else []),
           b.routes + (if RouteIn(line, ipv6).Some? then [RouteIn(line, ipv6).value] else []),
           if GatewayIn(line, f).Some? then GatewayIn(line, f) else b.gateway)
  }

  lemma OnlyOptionsUpdate(b: Bucket, line: Line, f: Family, ipv6: bool)
    requires !IsOption(line)
    ensures Updated(b, line, f, ipv6) == b
  {
    assert !StartsWith(line, "address") && !StartsWith(line, "netmask") && !StartsWith(line, "gateway") && !IsUp(line);
    assert b.extras + [] == b.extras && b.routes + [] == b.routes;
  }

  lemma RecordedNext(lines: seq<Line>, line: Line, place: Place, ipv6: bool)
    ensures Recorded(lines + [line], place, ipv6) ==
            if Within(lines, |lines|, place, ipv6) then Updated(Recorded(lines, place, ipv6), line, place.family, ipv6)
            else Recorded(lines, place, ipv6)
  {
    var f := place.family;
    WithinBefore(lines, line, |lines|, place, ipv6);
    LatestNext(lines, line, place, ipv6, (l: Line) => AddressIn(l, f));
    LatestNext(lines, line, place, ipv6, (l: Line) => PrefixIn(l, f));
    LatestNext(lines, line, place, ipv6, (l: Line) => NetmaskIn(l));
    LatestNext(lines, line, place, ipv6, (l: Line) => GatewayIn(l, f));
    CollectedNext(lines, line, place, ipv6, (l: Line) => ExtraIn(l, ipv6));
    CollectedNext(lines, line, place, ipv6, (l: Line) => RouteIn(l, ipv6));
    hide Within, Latest, Collected, AddressIn, PrefixIn, NetmaskIn, GatewayIn, ExtraIn, RouteIn;
  }

  lemma LatestNext<T>(lines: seq<Line>, line: Line, place: Place, ipv6: bool, pick: Line -> Option<T>)
    ensures Latest(lines + [line], |lines| + 1, place, ipv6, pick) ==
            if Within(lines, |lines|, place, ipv6) && pick(line).Some? then pick(line)
            else Latest(lines, |lines|, place, ipv6, pick)
  {
    LatestBefore(lines, line, |lines|, place, ipv6, pick);
    WithinBefore(lines, line, |lines|, place, ipv6);
    hide Within;
    assert (lines + [line])[|lines|] == line;
  }

  lemma CollectedNext<T>(lines: seq<Line>, line: Line, place: Place, ipv6: bool, pick: Line -> Option<T>)
    ensures Collected(lines + [line], |lines| + 1, place, ipv6, pick) ==
            Collected(lines, |lines|, place, ipv6, pick)
            + (if Within(lines, |lines|, place, ipv6) && pick(line).Some? then [pick(line).value] else [])
  {
    CollectedBefore(lines, line, |lines|, place, ipv6, pick);
    WithinBefore(lines, line, |lines|, place, ipv6);
    hide Within;
    assert (lines + [line])[|lines|] == line;
  }

  lemma AsInterfaceIs(w: Word)
    ensures AsInterface(w) == InterfaceIn(w)
  {
  }

  lemma CommandIs(line: Line, ipv6: bool)
    requires IsUp(line)
    ensures var i := AfterIp(line, ipv6); var c := Command(line, ipv6);
      && ((!KeyAt(line, 1, "ip") || |line| < i + 5) ==> |c| < 5)
      && (!(!KeyAt(line, 1, "ip") || |line| < i + 5) ==> c == line[i..])
  {
  }

  lemma CommandWords(line: Line, ipv6: bool)
    requires IsUp(line) && KeyAt(line, 1, "ip") && |line| >= AfterIp(line, ipv6) + 5
    ensures var i := AfterIp(line, ipv6);
      && (AddsRoute(line, ipv6) <==> KeyAt(line, i, "route") && KeyAt(line, i + 1, "add") && KeyAt(line, i + 3, "via"))
      && (AddsAddress(line, ipv6) <==> KeyAt(line, i, "addr") && KeyAt(line, i + 1, "add") && KeyAt(line, i + 3, "dev"))
      && |Command(line, ipv6)| >= 5 && Command(line, ipv6)[2] == line[i + 2] && Command(line, ipv6)[4] == line[i + 4]
  {
    CommandIs(line, ipv6);
    hide Command, IsUp, AfterIp;
    var i := AfterIp(line, ipv6);
    var c := Command(line, ipv6);
    assert c == line[i..] && c[0] == line[i] && c[1] == line[i + 1] && c[3] == line[i + 3];
  }

  lemma NoCommand(line: Line, ipv6: bool)
    requires !IsUp(line) || !KeyAt(line, 1, "ip") || |line| < AfterIp(line, ipv6) + 5
    ensures !AddsRoute(line, ipv6) && !AddsAddress(line, ipv6)
    ensures RouteIn(line, ipv6).None? && ExtraIn(line, ipv6).None?
  {
    if IsUp(line) {
      CommandIs(line, ipv6);
    }
    hide AfterIp;
  }

  lemma NotBoth(line: Line, ipv6: bool)
    ensures AddsRoute(line, ipv6) ==> !AddsAddress(line, ipv6) && ExtraIn(line, ipv6).None?
    ensures !AddsRoute(line, ipv6) ==> RouteIn(line, ipv6).None?
    ensures !AddsAddress(line, ipv6) ==> ExtraIn(line, ipv6).None?
  {
    hide Command, AsNetwork, Block.Valid;
    assert "route" != "addr";
  }

  /** What an `up` line adds, and whether it is an error */
  predicate UpDone(p: Parse, line: Line, ipv6: bool)
    requires p.current.Some? && p.current.value in p.data
  {
    var b, r := p.data[p.current.value], UpStep(p, line, ipv6);
    var extra, route := ExtraIn(line, ipv6), RouteIn(line, ipv6);
    && r.data == p.data[p.current.value := b.(extras := b.extras + (if extra.Some? then [extra.value] else []),
                                               routes := b.routes + (if route.Some? then [route.value] else []))]
    && r.errors == p.errors + (if (AddsRoute(line, ipv6) && route.None?) || (AddsAddress(line, ipv6) && extra.None?) then 1 else 0)
  }

  /** What an `up` line does */
  lemma UpMeans(p: Parse, line: Line, ipv6: bool)
    requires p.current.Some? && p.current.value in p.data && IsUp(line)
    ensures UpDone(p, line, ipv6)
  {
    NotBoth(line, ipv6);
    if !KeyAt(line, 1, "ip") || |line| < AfterIp(line, ipv6) + 5 {
      var b := p.data[p.current.value];
      assert b.extras + [] == b.extras && b.routes + [] == b.routes;
      NoCommand(line, ipv6);
      hide AfterIp, Command, AddsRoute, AddsAddress, RouteIn, ExtraIn;
    } else {
      hide UpStep, AfterIp, Command, AddsRoute, AddsAddress, RouteIn, ExtraIn, KeyAt;
      CommandMeans(p, line, ipv6);
    }
  }

  lemma CommandMeans(p: Parse, line: Line, ipv6: bool)
    requires p.current.Some? && p.current.value in p.data && IsUp(line)
    requires KeyAt(line, 1, "ip") && |line| >= AfterIp(line, ipv6) + 5
    ensures UpDone(p, line, ipv6)
  {
    var b := p.data[p.current.value];
    assert b.extras + [] == b.extras && b.routes + [] == b.routes;
    NotBoth(line, ipv6);
    CommandWords(line, ipv6);
    AsInterfaceIs(line[AfterIp(line, ipv6) + 2]);
    hide AfterIp, Command, AddsRoute, AddsAddress, AsNetwork, AsInterface, InterfaceIn, Block.Valid, IsUp, KeyAt;
  }

  lemma KnownIs(text: string, f: Family)
    ensures (text in if f == V6 then KnownOptions6 else KnownOptions) <==>
            Known(text, f) || text in {"address", "netmask", "gateway", "up", "post-up"}
  {
  }

  predicate OptionIs(p: Parse, line: Line, ipv6: bool)
    requires p.current.Some? && p.current.value in p.data && line != []
  {
    var place, r := p.current.value, OptionStep(p, line, ipv6);
    && r.data == p.data[place := Updated(p.data[place], line, place.family, ipv6)]
    && r.errors == p.errors + (if BadOption(line, place.family, ipv6) then 1 else 0)
  }

  lemma AddressOption(p: Parse, line: Line, ipv6: bool)
    requires p.current.Some? && p.current.value in p.data && StartsWith(line, "address")
    ensures OptionIs(p, line, ipv6)
  {
    var b := p.data[p.current.value];
    assert b.extras + [] == b.extras && b.routes + [] == b.routes;
    assert !IsUp(line) && NetmaskIn(line).None? && GatewayIn(line, p.current.value.family).None?;
    NoCommand(line, ipv6);
    if |line| >= 2 {
      AsInterfaceIs(line[1]);
    }
    hide AsInterface, InterfaceIn, ExtraIn, RouteIn, UpStep, NetmaskIn, GatewayIn, KnownOptions, KnownOptions6, Known;
  }

  lemma NetmaskOption(p: Parse, line: Line, ipv6: bool)
    requires p.current.Some? && p.current.value in p.data && StartsWith(line, "netmask")
    ensures OptionIs(p, line, ipv6)
  {
    var b, f := p.data[p.current.value], p.current.value.family;
    assert b.extras + [] == b.extras && b.routes + [] == b.routes;
    assert !IsUp(line) && AddressIn(line, f).None? && PrefixIn(line, f).None? && GatewayIn(line, f).None?;
    assert !StartsWith(line, "address");
    NoCommand(line, ipv6);
    hide ExtraIn, RouteIn, UpStep, AddressIn, PrefixIn, GatewayIn, KnownOptions, KnownOptions6, Known;
  }

  lemma GatewayOption(p: Parse, line: Line, ipv6: bool)
    requires p.current.Some? && p.current.value in p.data && StartsWith(line, "gateway")
    ensures OptionIs(p, line, ipv6)
  {
    var b, f := p.data[p.current.value], p.current.value.family;
    assert b.extras + [] == b.extras && b.routes + [] == b.routes;
    assert !IsUp(line) && AddressIn(line, f).None? && PrefixIn(line, f).None? && NetmaskIn(line).None?;
    assert !StartsWith(line, "address") && !StartsWith(line, "netmask");
    NoCommand(line, ipv6);
    hide ExtraIn, RouteIn, UpStep, AddressIn, PrefixIn, NetmaskIn, KnownOptions, KnownOptions6, Known;
  }

  lemma UpOption(p: Parse, line: Line, ipv6: bool)
    requires p.current.Some? && p.current.value in p.data && IsUp(line)
    ensures OptionIs(p, line, ipv6)
  {
    UpMeans(p, line, ipv6);
    UpOnly(line, p.current.value.family);
    assert OptionStep(p, line, ipv6) == UpStep(p, line, ipv6) by {
      hide UpStep, AsInterface, KnownOptions, KnownOptions6;
    }
    hide UpStep, OptionStep, Known, AddressIn, PrefixIn, NetmaskIn, GatewayIn, ExtraIn, RouteIn, AddsRoute, AddsAddress, StartsWith;
  }

  lemma UpOnly(line: Line, f: Family)
    requires IsUp(line)
    ensures AddressIn(line, f).None? && PrefixIn(line, f).None? && NetmaskIn(line).None? && GatewayIn(line, f).None?
    ensures !StartsWith(line, "address") && !StartsWith(line, "netmask") && !StartsWith(line, "gateway")
    ensures line != []
  {
  }

  lemma OtherOption(p: Parse, line: Line, ipv6: bool)
    requires p.current.Some? && p.current.value in p.data && line != []
    requires !StartsWith(line, "address") && !StartsWith(line, "netmask") && !StartsWith(line, "gateway") && !IsUp(line)
    ensures OptionIs(p, line, ipv6)
  {
    var b, f := p.data[p.current.value], p.current.value.family;
    assert b.extras + [] == b.extras && b.routes + [] == b.routes;
    assert AddressIn(line, f).None? && PrefixIn(line, f).None? && NetmaskIn(line).None? && GatewayIn(line, f).None?;
    NoCommand(line, ipv6);
    if line[0].Key? {
      KnownIs(line[0].text, f);
    }
    hide ExtraIn, RouteIn, UpStep, AddressIn, PrefixIn, NetmaskIn, GatewayIn, KnownOptions, KnownOptions6, Known, AsInterface;
  }

  /** What an option does in a stanza, and what makes it an error */
  lemma OptionMeans(p: Parse, line: Line, ipv6: bool)
    requires p.current.Some? && p.current.value in p.data && IsOption(line)
    ensures var place, r := p.current.value, OptionStep(p, line, ipv6);
      && r.data == p.data[place := Updated(p.data[place], line, place.family, ipv6)]
      && r.errors == p.errors + (if BadOption(line, place.family, ipv6) then 1 else 0)
  {
    assert line != [];
    hide StartsWith, IsUp, OptionStep, Updated, BadOption, IsOption;
    if StartsWith(line, "address") {
      AddressOption(p, line, ipv6);
    } else if StartsWith(line, "netmask") {
      NetmaskOption(p, line, ipv6);
    } else if StartsWith(line, "gateway") {
      GatewayOption(p, line, ipv6);
    } else if IsUp(line) {
      UpOption(p, line, ipv6);
    } else {
      OtherOption(p, line, ipv6);
    }
  }

  /** Every bucket holds what the lines of its stanzas say. */
  lemma {:induction false} BucketsAre(lines: seq<Line>, ipv6: bool, place: Place)
    ensures BucketAt(Run(Nothing, lines, ipv6), place) == Recorded(lines, place, ipv6)
  {
    NothingRun(ipv6);
    NothingRecorded(place, ipv6);
    hide Step, Run, Within, Outside, Recorded, Updated, IsOption;
    if lines != [] {
      hide BucketAt;
      var front, line := lines[..|lines| - 1], lines[|lines| - 1];
      assert lines == front + [line];
      BucketsAre(front, ipv6, place);
      var p := Run(Nothing, front, ipv6);
      RunNext(front, line, ipv6);
      CurrentIs(front, ipv6);
      RecordedNext(front, line, place, ipv6);
      BucketNext(p, line, ipv6, place);
      if !IsOption(line) {
        OnlyOptionsUpdate(Recorded(front, place, ipv6), line, place.family, ipv6);
      }
    }
  }

  lemma NothingRecorded(place: Place, ipv6: bool)
    ensures Recorded([], place, ipv6) == NewBucket
  {
  }

  lemma BucketNext(p: Parse, line: Line, ipv6: bool, place: Place)
    requires p.current.Some? ==> p.current.value in p.data
    ensures BucketAt(Step(p, line, ipv6), place) ==
            if IsOption(line) && p.current == Some(place) then Updated(BucketAt(p, place), line, place.family, ipv6)
            else BucketAt(p, place)
  {
    StepIs(p, line, ipv6);
    hide Step, OptionStep, IfaceStep, Updated, Blank, IsDirective;
    if IsOption(line) {
      if p.current.Some? {
        OptionMeans(p, line, ipv6);
      } else {
        OutsideStanza(p, line, ipv6);
      }
    } else if IsIface(line) {
      IfacePlaces(p, line, ipv6, place);
    } else {
      KindOf(line);
    }
  }

  lemma KindOf(line: Line)
    ensures Blank(line) || IsDirective(line) || IsIface(line) || IsAuto(line) || IsOption(line)
  {
  }

  lemma OutsideStanza(p: Parse, line: Line, ipv6: bool)
    requires p.current.None? && IsOption(line)
    ensures OptionStep(p, line, ipv6) == if p.ignored then p else p.Error()
  {
  }

  lemma ErrorsNext(p: Parse, line: Line, ipv6: bool)
    requires p.current.Some? ==> p.current.value in p.data
    ensures Step(p, line, ipv6).errors == p.errors +
            (if IsIface(line) then (if |line| < 4 then 1 else 0)
             else if IsOption(line) && p.current.None? then (if p.ignored then 0 else 1)
             else if IsOption(line) then (if BadOption(line, p.current.value.family, ipv6) then 1 else 0)
             else 0)
  {
    StepIs(p, line, ipv6);
    hide Step, OptionStep, Updated, Blank, IsDirective, BadOption;
    if IsIface(line) {
      assert !IsOption(line);
    } else if IsOption(line) {
      if p.current.Some? {
        OptionMeans(p, line, ipv6);
      } else {
        OutsideStanza(p, line, ipv6);
      }
    } else {
      KindOf(line);
    }
  }

  lemma WrongIs(lines: seq<Line>, ipv6: bool, p: Parse)
    requires lines != []
    requires var front := lines[..|lines| - 1];
      && (forall place :: p.current == Some(place) <==> Within(front, |front|, place, ipv6))
      && (p.current.None? && !p.ignored <==> Outside(front, |front|))
    ensures var line := lines[|lines| - 1];
            Wrong(lines, |lines| - 1, ipv6) <==>
              || (IsIface(line) && |line| < 4)
              || (IsOption(line) && p.current.None? && !p.ignored)
              || (IsOption(line) && p.current.Some? && BadOption(line, p.current.value.family, ipv6))
  {
    var front, line := lines[..|lines| - 1], lines[|lines| - 1];
    assert lines == front + [line];
    OutsideBefore(front, line, |front|);
    forall place
      ensures Within(lines, |front|, place, ipv6) <==> Within(front, |front|, place, ipv6)
    {
      WithinBefore(front, line, |front|, place, ipv6);
    }
    hide Within, Outside, IsIface, IsOption, BadOption;
  }

  /** The errors are the wrong lines. */
  lemma {:induction false} ErrorsAre(lines: seq<Line>, ipv6: bool)
    ensures Run(Nothing, lines, ipv6).errors == WrongLines(lines, |lines|, ipv6)
  {
    if lines != [] {
      var front, line := lines[..|lines| - 1], lines[|lines| - 1];
      assert lines == front + [line];
      ErrorsAre(front, ipv6);
      var p := Run(Nothing, front, ipv6);
      RunNext(front, line, ipv6);
      CurrentIs(front, ipv6);
      ErrorsNext(p, line, ipv6);
      WrongIs(lines, ipv6, p);
      WrongLinesBefore(front, line, |front|, ipv6);
      IfaceIsNoOption(line);
      hide Step, Run, Within, Outside, Wrong, IsIface, IsOption, BadOption;
    }
  }

  lemma IfaceIsNoOption(line: Line)
    ensures IsIface(line) ==> !IsOption(line)
  {
  }

  /** The parser takes from any file what its lines say. */
  lemma RunMeans(lines: seq<Line>, ipv6: bool)
    ensures var p := Run(Nothing, lines, ipv6);
      && p.errors == WrongLines(lines, |lines|, ipv6)
      && p.auto == Automatic(lines)
      && p.dhcp == Declared(lines, V4, "dhcp")
      && p.dyn6 == (if ipv6 then Declared(lines, V6, "dhcp") + Declared(lines, V6, "auto") else {})
      && (forall place :: place in p.data <==> exists j :: 0 <= j < |lines| && Opens(lines[j], place, ipv6))
      && (forall place :: place in p.data ==> p.data[place] == Recorded(lines, place, ipv6))
  {
    ErrorsAre(lines, ipv6);
    NamesAre(lines, ipv6);
    forall place
      ensures place in Run(Nothing, lines, ipv6).data <==> exists j :: 0 <= j < |lines| && Opens(lines[j], place, ipv6)
      ensures BucketAt(Run(Nothing, lines, ipv6), place) == Recorded(lines, place, ipv6)
    {
      PlacesAre(lines, ipv6, place);
      BucketsAre(lines, ipv6, place);
    }
    hide Run, WrongLines, Automatic, Declared, Opens, Recorded;
  }
}
