/**
 `stubby.yml`: its renderer and its parser.
 */
module Stubby {
  import opened Wrappers
  import opened Texts
  import opened SimpleYaml
  import opened YamlLines

  // ----- render_stubby_yml -----

  datatype Config = Config(upstream: string, authName: string, caFile: string, pinset: seq<string>, listen: seq<string>,
                           port: nat, strict: bool)

  function Entry(indent: nat, name: string, value: string): Line {
    Line(indent, name + ": " + value)
  }

  function Opening(indent: nat, name: string): Line {
    Line(indent, name + ":")
  }

  function ItemLine(indent: nat, item: string): Line {
    Line(indent, "- " + item)
  }

  function InQuotes(s: string): string {
    "\"" + s + "\""
  }

  /** The options at the top of the file */
  function TopLines(c: Config): seq<Line> {
    [Entry(0, "resolution_type", "GETDNS_RESOLUTION_STUB"),
     Opening(0, "dns_transport_list"), ItemLine(2, "GETDNS_TRANSPORT_TLS"),
     Entry(0, "tls_authentication", if c.strict then "GETDNS_AUTHENTICATION_REQUIRED" else "GETDNS_AUTHENTICATION_NONE"),
     Entry(0, "tls_query_padding_blocksize", "128"), Entry(0, "edns_client_subnet_private", "1"),
     Entry(0, "round_robin_upstreams", "1"), Entry(0, "idle_timeout", "10000")]
    + (if c.caFile == "" then [] else [Entry(0, "tls_ca_file", InQuotes(c.caFile))])
  }

  function ListenLines(addresses: seq<string>): seq<Line> {
    if addresses == [] then [] else [ItemLine(2, addresses[0])] + ListenLines(addresses[1..])
  }

  function PinLines(pins: seq<string>): seq<Line> {
    if pins == [] then []
    else [ItemLine(6, "digest: " + InQuotes("sha256")), Entry(8, "value", pins[0])] + PinLines(pins[1..])
  }

  function PinBlock(pins: seq<string>): seq<Line> {
    if pins == [] then [] else [Opening(4, "tls_pubkey_pinset")] + PinLines(pins)
  }

  function UpstreamLines(c: Config): seq<Line> {
    [ItemLine(2, "address_data: " + c.upstream), Entry(4, "tls_port", Digits(c.port)),
     Entry(4, "tls_auth_name", InQuotes(c.authName))]
    + PinBlock(c.pinset)
  }

  function FileLines(c: Config): seq<Line> {
    TopLines(c) + ([Opening(0, "listen_addresses")] + (ListenLines(c.listen)
    + ([Opening(0, "upstream_recursive_servers")] + UpstreamLines(c))))
  }

  function Rendered(c: Config): string {
    Joined(LineTexts(FileLines(c)))
  }

  // ----- parse_stubby_yml -----

  datatype Upstream = Upstream(address: string, port: int, authName: Yaml, pins: seq<string>)

  datatype Settings = Settings(upstreams: seq<Upstream>, listen: seq<string>)

  predicate Truthy(y: Yaml) {
    match y
    case Null => false
    case Text(s) => s != ""
    case Number(n) => n != 0
    case Truth(b) => b
    case Items(xs) => xs != []
    case Entries(m) => m != map[]
  }

  function Get(m: map<string, Yaml>, key: string): Yaml {
    if key in m then m[key] else Null
  }

  /** `str(y)`; lists and dictionaries are not printed. */
  function Show(y: Yaml): string {
    match y
    case Null => "None"
    case Text(s) => s
    case Number(n) => if n < 0 then "-" + Digits(-n) else Digits(n)
    case Truth(b) => if b then "True" else "False"
    case _ => ""
  }

  /** `int(y)`; `None` where Python raises */
  function AsInteger(y: Yaml): Option<int> {
    match y
    case Text(s) => if IsInteger(Strip(s)) then Some(IntegerOf(Strip(s))) else None
    case Number(n) => Some(n)
    case Truth(b) => Some(if b then 1 else 0)
    case _ => None
  }

  /** The dictionaries met when iterating over `y or []`; `None` where `y` cannot be iterated over */
  function DictsOf(y: Yaml): Option<seq<map<string, Yaml>>> {
    if !Truthy(y) then Some([])
    else match y
      case Number(_) => None
      case Truth(_) => None
      case Items(xs) => Some(OnlyDicts(xs))
      case _ => Some([])
  }

  function OnlyDicts(xs: seq<Yaml>): seq<map<string, Yaml>> {
    if xs == [] then []
    else OnlyDicts(xs[..|xs| - 1]) + (if xs[|xs| - 1].Entries? then [xs[|xs| - 1].entries] else [])
  }

  function PinsOf(dicts: seq<map<string, Yaml>>): seq<string> {
    if dicts == [] then []
    else
      var value := Get(dicts[|dicts| - 1], "value");
      PinsOf(dicts[..|dicts| - 1]) + (if Truthy(value) then [Show(value)] else [])
  }

  function UpstreamOf(m: map<string, Yaml>): Option<Upstream> {
    var pins := DictsOf(Get(m, "tls_pubkey_pinset"));
    var port := if Truthy(Get(m, "tls_port")) then AsInteger(Get(m, "tls_port")) else Some(853);
    if pins.None? || port.None? then None
    else Some(Upstream(if "address_data" in m then Show(m["address_data"]) else "", port.value,
                       Get(m, "tls_auth_name"), PinsOf(pins.value)))
  }

  function UpstreamsOf(dicts: seq<map<string, Yaml>>): Option<seq<Upstream>> {
    if dicts == [] then Some([])
    else
      var front, last := UpstreamsOf(dicts[..|dicts| - 1]), UpstreamOf(dicts[|dicts| - 1]);
      if front.None? || last.None? then None else Some(front.value + [last.value])
  }

  /** `s.split('@')[0]` */
  function BeforeAt(s: string): string {
    match Find(s, '@') case Some(i) => s[..i] case None => s
  }

  function ListenOf(xs: seq<Yaml>): seq<string> {
    if xs == [] then [] else ListenOf(xs[..|xs| - 1]) + [BeforeAt(Show(xs[|xs| - 1]))]
  }

  function SettingsOf(y: Yaml): Option<Settings> {
    var conf := if y.Entries? then y.entries else map[];
    var dicts := DictsOf(Get(conf, "upstream_recursive_servers"));
    var listen := Get(conf, "listen_addresses");
    if dicts.None? then None
    else match UpstreamsOf(dicts.value)
      case None => None
      case Some(us) => Some(Settings(us, if listen.Items? then ListenOf(listen.items) else []))
  }

  method ParseStubbyYml(text: string) returns (r: Option<Settings>)
    ensures r == SettingsOf(Parsed(text))
  {
    hide UpstreamOf, Show, BeforeAt, DictsOf, Parsed;
    var y := ParseSimpleYaml(text);
    var conf := if y.Entries? then y.entries else map[];
    var dicts := DictsOf(Get(conf, "upstream_recursive_servers"));
    if dicts.None? {
      return None;
    }
    var upstreams: Option<seq<Upstream>> := Some([]);
    for i := 0 to |dicts.value|
      invariant upstreams == UpstreamsOf(dicts.value[..i])
    {
      assert dicts.value[..i + 1][..i] == dicts.value[..i];
      var u := UpstreamOf(dicts.value[i]);
      upstreams := if upstreams.None? || u.None? then None else Some(upstreams.value + [u.value]);
    }
    assert dicts.value[..|dicts.value|] == dicts.value;
    if upstreams.None? {
      return None;
    }
    var listen := Get(conf, "listen_addresses");
    var addresses: seq<string> := [];
    if listen.Items? {
      for i := 0 to |listen.items|
        invariant addresses == ListenOf(listen.items[..i])
      {
        assert listen.items[..i + 1][..i] == listen.items[..i];
        addresses := addresses + [BeforeAt(Show(listen.items[i]))];
      }
      assert listen.items[..|listen.items|] == listen.items;
    }
    return Some(Settings(upstreams.value, addresses));
  }

  // ----- the renderer -----

  method RenderStubbyYml(c: Config) returns (text: string)
    ensures text == Rendered(c)
  {
    hide TopLines, UpstreamLines, ListenLines, Opening;
    var lines := StartFile(c);
    lines := lines + [Opening(0, "listen_addresses")];
    lines := AddListen(lines, c.listen);
    lines := lines + [Opening(0, "upstream_recursive_servers")];
    lines := AddUpstream(lines, c);
    assert lines == FileLines(c);
    text := Joined(LineTexts(lines));
  }

  method StartFile(c: Config) returns (lines: seq<Line>)
    ensures lines == TopLines(c)
  {
    hide Entry, Opening, ItemLine;
    lines := [Entry(0, "resolution_type", "GETDNS_RESOLUTION_STUB"),
              Opening(0, "dns_transport_list"), ItemLine(2, "GETDNS_TRANSPORT_TLS"),
              Entry(0, "tls_authentication", if c.strict then "GETDNS_AUTHENTICATION_REQUIRED" else "GETDNS_AUTHENTICATION_NONE"),
              Entry(0, "tls_query_padding_blocksize", "128"), Entry(0, "edns_client_subnet_private", "1"),
              Entry(0, "round_robin_upstreams", "1"), Entry(0, "idle_timeout", "10000")];
    if c.caFile != "" {
      lines := lines + [Entry(0, "tls_ca_file", InQuotes(c.caFile))];
    }
  }

  method AddListen(before: seq<Line>, addresses: seq<string>) returns (lines: seq<Line>)
    ensures lines == before + ListenLines(addresses)
  {
    hide ItemLine;
    lines := before;
    assert addresses[0..] == addresses;
    for i := 0 to |addresses|
      invariant before + ListenLines(addresses) == lines + ListenLines(addresses[i..])
    {
      assert addresses[i..][1..] == addresses[i + 1..];
      lines := lines + [ItemLine(2, addresses[i])];
    }
  }

  method AddUpstream(before: seq<Line>, c: Config) returns (lines: seq<Line>)
    ensures lines == before + UpstreamLines(c)
  {
    hide Entry, Opening, ItemLine, InQuotes;
    lines := before + [ItemLine(2, "address_data: " + c.upstream)];
    lines := lines + [Entry(4, "tls_port", Digits(c.port))];
    lines := lines + [Entry(4, "tls_auth_name", InQuotes(c.authName))];
    if c.pinset != [] {
      lines := lines + [Opening(4, "tls_pubkey_pinset")];
      lines := AddPins(lines, c.pinset);
    }
  }

  method AddPins(before: seq<Line>, pins: seq<string>) returns (lines: seq<Line>)
    ensures lines == before + PinLines(pins)
  {
    hide Entry, ItemLine, InQuotes;
    lines := before;
    assert pins[0..] == pins;
    for i := 0 to |pins|
      invariant before + PinLines(pins) == lines + PinLines(pins[i..])
    {
      assert pins[i..][1..] == pins[i + 1..];
      lines := lines + [ItemLine(6, "digest: " + InQuotes("sha256"))];
      lines := lines + [Entry(8, "value", pins[i])];
    }
  }
}
