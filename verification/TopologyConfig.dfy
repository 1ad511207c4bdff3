/**
 `get_net_config_from_topology`: the routes of every machine, computed machine by machine, the
 redundant ones dropped, grouped by interface.
 */
module TopologyConfig {
  import opened Wrappers
  import opened Dicts
  import opened Topologies
  import opened RoutingGraph
  import opened FirstHops
  import opened ShortestPaths
  import opened IpAddresses
  import opened NetConfigs

  /** The named networks and addresses of a lab (`data.nets`, `data.ips`, `data.nets6`, `data.ips6`). */
  datatype Data = Data(nets: map<Name, Subnet>, ips: map<Name, Interface>,
                       nets6: map<Name, Subnet>, ips6: map<Name, Interface>) {

    function Nets(f: Family): map<Name, Subnet> {
      if f == V4 then nets else nets6
    }

    function Ips(f: Family): map<Name, Interface> {
      if f == V4 then ips else ips6
    }

    /** The containers only hold values of their own family. */
    ghost predicate Typed() {
      && (forall f, n :: n in Nets(f) ==> Nets(f)[n].family == f)
      && (forall f, n :: n in Ips(f) ==> Ips(f)[n].ip.family == f)
    }
  }

  /** The parameters; an external hop is given as a bare address. */
  datatype Request = Request(ipv4: bool, ipv6: bool, gateway: Option<Name>,
                             external4: Option<Address>, external6: Option<Address>) {

    function External(f: Family): Option<Address> {
      if f == V4 then external4 else external6
    }

    function Families(): seq<Family> {
      (if ipv4 then [V4] else []) + (if ipv6 then [V6] else [])
    }
  }

  datatype Error = NoFamily | MissingAddress(name: Name) | MissingNetwork(name: Name)

  /** The order in which Python yields the networks of a machine's set, and the network it takes
      out of those shared with the gateway: arbitrary. */
  datatype Choices = Choices(order: map<Name, seq<Name>>, shared: map<Name, Name>)

  /** What the closures of the function see. */
  datatype Env = Env(topology: Topology, ifaces: Interfaces, graph: Graph, data: Data,
                     request: Request, choices: Choices) {

    function Row(m: Name): Dict<Name, nat>
      requires m in ifaces.vals
    {
      ifaces.vals[m]
    }

    /** `machine_nets.get(m, [])` as a set */
    function NetSet(m: Name): set<Name> {
      if m in ifaces.vals then SetOf(ifaces.vals[m].keys) else {}
    }

    ghost predicate Valid() {
      && OnTopology(topology, ifaces)
      && graph == GraphOf(topology, ifaces)
      && (forall m :: m in ifaces.vals ==>
            && ifaces.vals[m].Valid() && ifaces.vals[m].keys != []
            && m in choices.order
            && Distinct(choices.order[m])
            && SetOf(choices.order[m]) == NetSet(m))
      && (forall m, g :: m in ifaces.vals && request.gateway == Some(g) && NetSet(m) * NetSet(g) != {} ==>
            m in choices.shared && choices.shared[m] in NetSet(m) * NetSet(g))
    }
  }

  // ----- lookups in the data -----

  /** The attribute holding the address of machine `m` on network `n`. */
  function AttrName(count: nat, m: Name, n: Name): Name {
    if count == 1 then m else m + "_" + n
  }

  /** `get_ip`; `None` when IPv6 is only added to IPv4 and the machine has no address there. */
  function GetIp(env: Env, m: Name, n: Name, f: Family): Result<Option<Interface>, Error>
    requires m in env.ifaces.vals
  {
    var attr := AttrName(|env.Row(m).keys|, m, n);
    if attr in env.data.Ips(f) then Success(Some(env.data.Ips(f)[attr]))
    else if f == V6 && env.request.ipv4 then Success(None)
    else Failure(MissingAddress(attr))
  }

  /** `net_has` */
  predicate NetHas(env: Env, n: Name, f: Family) {
    f == V4 || !env.request.ipv4 || n in env.data.nets6
  }

  function GetNet(env: Env, n: Name, f: Family): Result<Subnet, Error> {
    if n in env.data.Nets(f) then Success(env.data.Nets(f)[n]) else Failure(MissingNetwork(n))
  }

  // ----- the hops that the search returns can be looked up -----

  lemma GraphClosed(env: Env)
    requires env.Valid()
    ensures Closed(env.graph)
  {
    forall n, e | n in env.graph && e in env.graph[n]
      ensures e.net in env.graph
    {
      GraphEdges(env.topology, env.ifaces, n, e);
    }
  }

  /** A hop found by the search leaves by a network of the machine and reaches another machine of that
      network. */
  lemma HopUsable(env: Env, m: Name, targets: set<Name>)
    requires env.Valid() && m in env.ifaces.vals && Closed(env.graph)
    ensures var r := FirstHop(env.graph, env.choices.order[m], targets);
            r.Some? ==> && r.value.via in env.Row(m).vals
                        && r.value.router in env.ifaces.vals && r.value.router != m
                        && r.value.via in env.Row(r.value.router).vals
  {
    var start := env.choices.order[m];
    FirstHopExact(env.graph, start, targets);
    var r := FirstHop(env.graph, start, targets);
    if r.Some? {
      var n, d :| n in targets && n !in SetOf(start) && StartsPath(env.graph, SetOf(start), r.value, n, d);
      var next :| Edge(next, r.value.router) in StepsOf(env.graph, r.value.via) && next !in SetOf(start);
      GraphEdges(env.topology, env.ifaces, r.value.via, Edge(next, r.value.router));
      assert r.value.via in env.NetSet(m);
    }
  }

  // ----- candidate routes of one machine -----

  /** A candidate route: destination, interface number, next hop. */
  datatype Triple = Triple(net: Subnet, eth: nat, hop: Address)

  /** `first_hop_to_net` */
  function HopToNet(env: Env, m: Name, target: Name): Option<Hop>
    requires env.Valid() && m in env.ifaces.vals
  {
    GraphClosed(env);
    if target in env.choices.order[m] then None
    else FirstHop(env.graph, env.choices.order[m], {target})
  }

  /** `first_hop_to_machine` */
  function HopToMachine(env: Env, m: Name, target: Name): Option<Hop>
    requires env.Valid() && m in env.ifaces.vals
    requires env.request.gateway == Some(target)
  {
    GraphClosed(env);
    if env.NetSet(m) * env.NetSet(target) != {} then Some(Hop(env.choices.shared[m], target))
    else FirstHop(env.graph, env.choices.order[m], env.NetSet(target))
  }

  /** The route that `m` takes toward a network that is not its own. */
  function RouteTo(env: Env, m: Name, f: Family, target: Name): Result<seq<Triple>, Error>
    requires env.Valid() && m in env.ifaces.vals
  {
    if target in env.choices.order[m] || !NetHas(env, target, f) then Success([])
    else
      GraphClosed(env);
      HopUsable(env, m, {target});
      match HopToNet(env, m, target)
      case None => Success([])
      case Some(hop) =>
        if !NetHas(env, hop.via, f) then Success([])
        else
          var ip :- GetIp(env, hop.router, hop.via, f);
          if ip.None? then Success([])
          else
            var net :- GetNet(env, target, f);
            Success([Triple(net, env.Row(m).vals[hop.via], ip.value.ip)])
  }

  function RoutesTo(env: Env, m: Name, f: Family, targets: seq<Name>): Result<seq<Triple>, Error>
    requires env.Valid() && m in env.ifaces.vals
  {
    if targets == [] then Success([])
    else
      var before :- RoutesTo(env, m, f, targets[..|targets| - 1]);
      var last :- RouteTo(env, m, f, targets[|targets| - 1]);
      Success(before + last)
  }

  /** Networks by interface number (`sorted(start_nets, key=net_to_eth.get)`). */
  function InsertByEth(row: Dict<Name, nat>, sorted: seq<Name>, n: Name): (r: seq<Name>)
    requires n in row.vals && forall x :: x in sorted ==> x in row.vals
    ensures multiset(r) == multiset(sorted) + multiset{n}
  {
    if sorted == [] then [n]
    else if row.vals[n] < row.vals[sorted[0]] then [n] + sorted
    else
      assert sorted == [sorted[0]] + sorted[1..];
      [sorted[0]] + InsertByEth(row, sorted[1..], n)
  }

  function SortByEth(row: Dict<Name, nat>, nets: seq<Name>): (r: seq<Name>)
    requires forall x :: x in nets ==> x in row.vals
    ensures multiset(r) == multiset(nets)
  {
    if nets == [] then []
    else
      var sorted := SortByEth(row, nets[..|nets| - 1]);
      assert forall x :: x in sorted ==> x in multiset(sorted);
      assert nets == nets[..|nets| - 1] + [nets[|nets| - 1]];
      InsertByEth(row, sorted, nets[|nets| - 1])
  }

  /** The first of `nets` whose prefix holds the external hop. */
  function FirstHolding(env: Env, f: Family, hop: Address, nets: seq<Name>): Result<Option<Name>, Error> {
    if nets == [] then Success(None)
    else if !NetHas(env, nets[0], f) then FirstHolding(env, f, hop, nets[1..])
    else
      var net :- GetNet(env, nets[0], f);
      if net.Contains(hop) then Success(Some(nets[0]))
      else FirstHolding(env, f, hop, nets[1..])
  }

  function MinOf(s: seq<nat>): (m: nat)
    requires s != []
    ensures m in s && forall x :: x in s ==> m <= x
  {
    if |s| == 1 then s[0]
    else
      var rest := MinOf(s[1..]);
      assert s == [s[0]] + s[1..];
      if s[0] < rest then s[0] else rest
  }

  function Numbers(row: Dict<Name, nat>): (s: seq<nat>)
    requires row.Valid()
    ensures |s| == |row.keys| && forall i :: 0 <= i < |s| ==> s[i] == row.vals[row.keys[i]]
  {
    seq(|row.keys|, i requires 0 <= i < |row.keys| => row.vals[row.keys[i]])
  }

  lemma {:induction false} FirstHoldingIn(env: Env, f: Family, hop: Address, nets: seq<Name>)
    ensures var r := FirstHolding(env, f, hop, nets);
            r.Success? && r.value.Some? ==>
              && r.value.value in nets
              && r.value.value in env.data.Nets(f)
              && env.data.Nets(f)[r.value.value].Contains(hop)
  {
    if nets != [] {
      FirstHoldingIn(env, f, hop, nets[1..]);
    }
  }

  /** The gateway's own default route, toward the outside. */
  function ExternalRoute(env: Env, m: Name, f: Family): Result<seq<Triple>, Error>
    requires env.Valid() && m in env.ifaces.vals
  {
    match env.request.External(f)
    case None => Success([])
    case Some(hop) =>
      var eth :- ExternalEth(env, m, f, hop);
      Success([Triple(DefaultNet(f), eth, hop)])
  }

  /** The interface on the network that holds the hop, else the lowest one. */
  function ExternalEth(env: Env, m: Name, f: Family, hop: Address): (r: Result<nat, Error>)
    requires env.Valid() && m in env.ifaces.vals
    ensures r.Success? ==> r.value in env.Row(m).vals.Values
  {
    var row := env.Row(m);
    assert forall x :: x in env.choices.order[m] ==> x in SetOf(env.choices.order[m]);
    var sorted := SortByEth(row, env.choices.order[m]);
    var holding :- FirstHolding(env, f, hop, sorted);
    FirstHoldingIn(env, f, hop, sorted);
    MinOfNumbers(row);
    assert holding.Some? ==> holding.value in multiset(sorted);
    Success(if holding.Some? then row.vals[holding.value] else MinOf(Numbers(row)))
  }

  /** The default route of a machine that is not the gateway, toward the gateway. */
  function RouteToGateway(env: Env, m: Name, f: Family, gateway: Name): Result<seq<Triple>, Error>
    requires env.Valid() && m in env.ifaces.vals
    requires env.request.gateway == Some(gateway)
  {
    GraphClosed(env);
    HopUsable(env, m, env.NetSet(gateway));
    match HopToMachine(env, m, gateway)
    case None => Success([])
    case Some(hop) =>
      assert hop.via in env.Row(m).vals && hop.router in env.ifaces.vals;
      if !NetHas(env, hop.via, f) then Success([])
      else
        var ip :- GetIp(env, hop.router, hop.via, f);
        if ip.None? then Success([])
        else Success([Triple(DefaultNet(f), env.Row(m).vals[hop.via], ip.value.ip)])
  }

  /** The default route of `m`. */
  function DefaultRoute(env: Env, m: Name, f: Family): Result<seq<Triple>, Error>
    requires env.Valid() && m in env.ifaces.vals
  {
    match env.request.gateway
    case None => Success([])
    case Some(gateway) =>
      if m == gateway then ExternalRoute(env, m, f) else RouteToGateway(env, m, f, gateway)
  }

  /** `any(net_has(n) and get_ip(m, n) is not None for n in start_nets)` */
  function HasAddress(env: Env, m: Name, f: Family, nets: seq<Name>): Result<bool, Error>
    requires m in env.ifaces.vals
  {
    if nets == [] then Success(false)
    else if !NetHas(env, nets[0], f) then HasAddress(env, m, f, nets[1..])
    else
      var ip :- GetIp(env, m, nets[0], f);
      if ip.Some? then Success(true) else HasAddress(env, m, f, nets[1..])
  }

  function FamilyRoutes(env: Env, m: Name, f: Family): Result<seq<Triple>, Error>
    requires env.Valid() && m in env.ifaces.vals
  {
    var has :- HasAddress(env, m, f, env.choices.order[m]);
    if !has then Success([])
    else
      var specific :- RoutesTo(env, m, f, NetNames(env.topology));
      var default :- DefaultRoute(env, m, f);
      Success(specific + default)
  }

  function Candidates(env: Env, m: Name, families: seq<Family>): Result<seq<Triple>, Error>
    requires env.Valid() && m in env.ifaces.vals
  {
    if families == [] then Success([])
    else
      var before :- Candidates(env, m, families[..|families| - 1]);
      var last :- FamilyRoutes(env, m, families[|families| - 1]);
      Success(before + last)
  }

  // ----- dropping redundant routes -----

  /** Another route with the same next hop covers `net` (`_is_redundant`). */
  predicate IsRedundant(routes: seq<Triple>, net: Subnet, hop: Address) {
    exists i :: 0 <= i < |routes| && routes[i].net != net && routes[i].net.family == net.family
                && net.SubnetOf(routes[i].net) && hop == routes[i].hop
  }

  /** The routes among the first `k` that survive and leave by `eth`. */
  function KeptOn(routes: seq<Triple>, k: nat, eth: nat): seq<Route>
    requires k <= |routes|
  {
    if k == 0 then []
    else
      var r := routes[k - 1];
      KeptOn(routes, k - 1, eth)
      + (if r.eth == eth && !IsRedundant(routes, r.net, r.hop) then [Route(r.net, r.hop)] else [])
  }

  method GroupKept(routes: seq<Triple>, eths: set<nat>) returns (byEth: map<nat, seq<Route>>)
    requires forall r :: r in routes ==> r.eth in eths
    ensures byEth == map e | e in eths :: KeptOn(routes, |routes|, e)
  {
    hide IsRedundant;
    byEth := map e | e in eths :: [];
    for k := 0 to |routes|
      invariant byEth.Keys == eths
      invariant forall e :: e in eths ==> byEth[e] == KeptOn(routes, k, e)
    {
      var r := routes[k];
      assert r in routes;
      if !IsRedundant(routes, r.net, r.hop) {
        byEth := byEth[r.eth := byEth[r.eth] + [Route(r.net, r.hop)]];
      }
    }
  }

  // ----- one machine -----

  /** The addresses of `m` on network `n`, family by family. */
  function AddressesOn(env: Env, m: Name, n: Name, families: seq<Family>): Result<seq<Interface>, Error>
    requires m in env.ifaces.vals
  {
    if families == [] then Success([])
    else
      var before :- AddressesOn(env, m, n, families[..|families| - 1]);
      var f := families[|families| - 1];
      if !NetHas(env, n, f) then Success(before)
      else
        var ip :- GetIp(env, m, n, f);
        Success(before + (if ip.Some? then [ip.value] else []))
  }

  /** The entries of the first `k` networks of `m` filled in, over `nc`. */
  function Filled(env: Env, m: Name, routes: seq<Triple>, nc: MachineConfig, k: nat): (r: Result<MachineConfig, Error>)
    requires m in env.ifaces.vals && env.Row(m).Valid() && k <= |env.Row(m).keys|
    requires forall n :: n in env.Row(m).vals ==> env.Row(m).vals[n] < |nc|
    ensures r.Success? ==> |r.value| == |nc|
  {
    if k == 0 then Success(nc)
    else
      var before :- Filled(env, m, routes, nc, k - 1);
      var n := env.Row(m).keys[k - 1];
      var addresses :- AddressesOn(env, m, n, env.request.Families());
      var eth := env.Row(m).vals[n];
      Success(before[eth := Static(addresses, KeptOn(routes, |routes|, eth))])
  }

  function MaxOf(s: seq<nat>): (m: nat)
    requires s != []
    ensures m in s && forall x :: x in s ==> x <= m
  {
    if |s| == 1 then s[0]
    else
      var rest := MaxOf(s[1..]);
      assert s == [s[0]] + s[1..];
      if s[0] > rest then s[0] else rest
  }

  lemma NumberBound(row: Dict<Name, nat>, n: Name)
    requires row.Valid() && n in row.vals
    ensures row.vals[n] in Numbers(row)
  {
    assert n in row.keys;
    var i :| 0 <= i < |row.keys| && row.keys[i] == n;
    assert Numbers(row)[i] == row.vals[n];
  }

  /** `[None] * size` */
  function EmptyConfig(size: nat): (nc: MachineConfig)
    ensures |nc| == size && forall e :: 0 <= e < size ==> nc[e] == Unconfigured
  {
    seq(size, _ => Unconfigured)
  }

  function ConfigOf(env: Env, m: Name): Result<MachineConfig, Error>
    requires env.Valid() && m in env.ifaces.vals
  {
    var row := env.Row(m);
    var routes :- Candidates(env, m, env.request.Families());
    var empty := EmptyConfig(MaxOf(Numbers(row)) + 1);
    assert forall n :: n in row.vals ==> row.vals[n] < |empty| by {
      forall n | n in row.vals ensures row.vals[n] < |empty| {
        NumberBound(row, n);
      }
    }
    Filled(env, m, routes, empty, |row.keys|)
  }

  /** The configurations of the first `k` machines. */
  function ConfigsOf(env: Env, k: nat): Result<map<Name, MachineConfig>, Error>
    requires env.Valid() && k <= |env.ifaces.keys|
  {
    if k == 0 then Success(map[])
    else
      var before :- ConfigsOf(env, k - 1);
      var m := env.ifaces.keys[k - 1];
      var nc :- ConfigOf(env, m);
      Success(before[m := nc])
  }

  // ----- the whole function -----

  function EnvOf(t: Topology, data: Data, request: Request, choices: Choices): Env {
    AssignKeys(t);
    var ifaces := Assign(t).ifaces;
    Env(t, ifaces, GraphOf(t, ifaces), data, request, choices)
  }

  /** `choices` orders the networks of every machine, and shares a network where there is one. */
  ghost predicate ChoicesFit(t: Topology, request: Request, choices: Choices) {
    && (forall m :: NetsOf(t, m) != [] ==>
          m in choices.order && Distinct(choices.order[m]) && SetOf(choices.order[m]) == SetOf(NetsOf(t, m)))
    && (forall m, g :: request.gateway == Some(g) && SetOf(NetsOf(t, m)) * SetOf(NetsOf(t, g)) != {} ==>
          m in choices.shared && choices.shared[m] in SetOf(NetsOf(t, m)) * SetOf(NetsOf(t, g)))
  }

  lemma RowsOf(t: Topology, m: Name)
    requires UniqueNames(t)
    ensures m in Assign(t).ifaces.vals <==> NetsOf(t, m) != []
    ensures m in Assign(t).ifaces.vals ==>
              Assign(t).ifaces.vals[m].Valid() && Assign(t).ifaces.vals[m].keys == NetsOf(t, m)
    ensures forall n :: n in NetsOf(t, m) ==> n in NetNames(t)
  {
    AssignRow(t, m);
    NetsOfMembers(t, m);
    forall n | n in NetsOf(t, m)
      ensures n in NetNames(t)
    {
      var k :| 0 <= k < |t| && t[k].name == n && HasMember(t[k], m);
      assert NetNames(t)[k] == n;
    }
  }

  lemma SharedExist(t: Topology, machines: set<Name>, g: set<Name>) returns (shared: map<Name, Name>)
    requires forall m :: m in machines <==> NetsOf(t, m) != []
    ensures forall m :: SetOf(NetsOf(t, m)) * g != {} ==> m in shared && shared[m] in SetOf(NetsOf(t, m)) * g
  {
    NothingOfNone();
    hide SetOf, NetsOf;
    shared := map m | m in machines && SetOf(NetsOf(t, m)) * g != {} :: Element(SetOf(NetsOf(t, m)) * g);
  }

  /** Every topology has such choices. */
  lemma ChoicesExist(t: Topology, request: Request) returns (choices: Choices)
    requires UniqueNames(t)
    ensures ChoicesFit(t, request, choices)
  {
    hide Distinct, SetOf;
    var machines := Assign(t).ifaces.vals.Keys;
    forall m
      ensures m in machines <==> NetsOf(t, m) != []
      ensures Distinct(NetsOf(t, m))
    {
      RowsOf(t, m);
      NetsOfDistinct(t, m);
    }
    hide Assign, NetsOf;
    var shared := map[];
    if request.gateway.Some? {
      shared := SharedExist(t, machines, SetOf(NetsOf(t, request.gateway.value)));
    }
    choices := Choices(map m | m in machines :: NetsOf(t, m), shared);
  }

  lemma NothingOfNone()
    ensures SetOf([]) == {}
  {
  }

  ghost function Element(s: set<Name>): (x: Name)
    requires s != {}
    ensures x in s
  {
    var x :| x in s;
    x
  }

  lemma EnvIsValid(t: Topology, data: Data, request: Request, choices: Choices)
    requires UniqueNames(t) && ChoicesFit(t, request, choices)
    ensures EnvOf(t, data, request, choices).Valid()
  {
    hide Assign, NetsOf, Machines;
    AssignKeys(t);
    var env := EnvOf(t, data, request, choices);
    forall m
      ensures m in env.ifaces.vals <==> NetsOf(t, m) != []
      ensures m in env.ifaces.vals ==>
                env.ifaces.vals[m].Valid() && env.ifaces.vals[m].keys == NetsOf(t, m)
      ensures env.NetSet(m) == SetOf(NetsOf(t, m))
      ensures forall n :: n in NetsOf(t, m) ==> n in NetNames(t)
    {
      RowsOf(t, m);
    }
  }

  /** The configurations that `get_net_config_from_topology` returns or the exception it raises. */
  function NetConfigOf(t: Topology, data: Data, request: Request, choices: Choices)
    : Result<map<Name, MachineConfig>, Error>
    requires UniqueNames(t) && ChoicesFit(t, request, choices)
  {
    if !request.ipv4 && !request.ipv6 then Failure(NoFamily)
    else
      EnvIsValid(t, data, request, choices);
      var env := EnvOf(t, data, request, choices);
      ConfigsOf(env, |env.ifaces.keys|)
  }

  /** Every candidate route leaves by an interface of the machine. */
  lemma {:induction false} CandidateNumbers(env: Env, m: Name, families: seq<Family>)
    requires env.Valid() && m in env.ifaces.vals
    ensures var r := Candidates(env, m, families);
            r.Success? ==> forall x :: x in r.value ==> x.eth in env.Row(m).vals.Values
  {
    if families != [] && Candidates(env, m, families).Success? {
      CandidateNumbers(env, m, families[..|families| - 1]);
      var f := families[|families| - 1];
      RouteNumbers(env, m, f, NetNames(env.topology));
      DefaultNumbers(env, m, f);
    }
  }

  lemma {:induction false} RouteNumbers(env: Env, m: Name, f: Family, targets: seq<Name>)
    requires env.Valid() && m in env.ifaces.vals
    ensures var r := RoutesTo(env, m, f, targets);
            r.Success? ==> forall x :: x in r.value ==> x.eth in env.Row(m).vals.Values
  {
    hide RouteTo, Env.Valid;
    if targets != [] && RoutesTo(env, m, f, targets).Success? {
      RouteNumbers(env, m, f, targets[..|targets| - 1]);
      RouteNumber(env, m, f, targets[|targets| - 1]);
    }
  }

  lemma RouteNumber(env: Env, m: Name, f: Family, target: Name)
    requires env.Valid() && m in env.ifaces.vals && RouteTo(env, m, f, target).Success?
    ensures forall x :: x in RouteTo(env, m, f, target).value ==> x.eth in env.Row(m).vals.Values
  {
    hide Env.Valid, FirstHop, GetIp, GetNet, NetHas;
    GraphClosed(env);
    HopUsable(env, m, {target});
  }

  lemma DefaultNumbers(env: Env, m: Name, f: Family)
    requires env.Valid() && m in env.ifaces.vals
    ensures var r := DefaultRoute(env, m, f);
            r.Success? ==> forall x :: x in r.value ==> x.eth in env.Row(m).vals.Values
  {
    ExternalNumbers(env, m, f);
    if env.request.gateway.Some? && env.request.gateway != Some(m) {
      GatewayNumbers(env, m, f, env.request.gateway.value);
    }
  }

  lemma TowardMachine(env: Env, m: Name, gateway: Name)
    requires env.Valid() && m in env.ifaces.vals && env.request.gateway == Some(gateway)
    ensures var h := HopToMachine(env, m, gateway);
            h.Some? ==> h.value.via in env.Row(m).vals && h.value.router in env.ifaces.vals
  {
    assert env.NetSet(m) * env.NetSet(gateway) != {} ==> env.choices.shared[m] in env.NetSet(m) * env.NetSet(gateway);
    hide FirstHop, Env.Valid;
    GraphClosed(env);
    HopUsable(env, m, env.NetSet(gateway));
  }

  lemma GatewayNumbers(env: Env, m: Name, f: Family, gateway: Name)
    requires env.Valid() && m in env.ifaces.vals
    requires env.request.gateway == Some(gateway)
    ensures var r := RouteToGateway(env, m, f, gateway);
            r.Success? ==> forall x :: x in r.value ==> x.eth in env.Row(m).vals.Values
  {
    hide HopToMachine, Env.Valid, GetIp, NetHas;
    TowardMachine(env, m, gateway);
  }

  lemma MinOfNumbers(row: Dict<Name, nat>)
    requires row.Valid() && row.keys != []
    ensures MinOf(Numbers(row)) in row.vals.Values
  {
    var numbers := Numbers(row);
    assert |numbers| == |row.keys|;
    var i :| 0 <= i < |numbers| && numbers[i] == MinOf(numbers);
    assert row.keys[i] in row.keys;
  }

  lemma ExternalNumbers(env: Env, m: Name, f: Family)
    requires env.Valid() && m in env.ifaces.vals
    ensures var r := ExternalRoute(env, m, f);
            r.Success? ==> forall x :: x in r.value ==> x.eth in env.Row(m).vals.Values
  {
    hide ExternalEth, Env.Valid;
  }
}
