/**
 A rendered `stubby.yml` is parsed into the value and the settings it was rendered from.
 */
module StubbyRoundTrip {
  import opened Wrappers
  import opened Texts
  import opened SimpleYaml
  import opened YamlLines
  import opened YamlRoundTrip
  import opened Stubby

  /** A text that is a scalar of its own */
  predicate PlainValue(s: string) {
    Readable(s) && Scalar(s) == Text(s)
  }

  /** What a configuration must be like for its file to be read back */
  predicate Writable(c: Config) {
    && PlainValue(c.upstream) && c.port >= 1
    && SingleLine(c.authName) && NoHash(c.authName) && SingleLine(c.caFile) && NoHash(c.caFile)
    && (forall p :: p in c.pinset ==> PlainValue(p))
    && (forall s :: s in c.listen ==> PlainValue(s) && !IsKey(s))
  }

  // ----- the value of a file -----

  function AsTexts(ss: seq<string>): (r: seq<Yaml>)
    ensures |r| == |ss| && forall i :: 0 <= i < |ss| ==> r[i] == Text(ss[i])
  {
    seq(|ss|, i requires 0 <= i < |ss| => Text(ss[i]))
  }

  function PinMap(pin: string): map<string, Yaml> {
    map[]["digest" := Text("sha256")]["value" := Text(pin)]
  }

  function PinMaps(pins: seq<string>): (r: seq<Yaml>)
    ensures |r| == |pins| && forall i :: 0 <= i < |pins| ==> r[i] == Entries(PinMap(pins[i]))
  {
    seq(|pins|, i requires 0 <= i < |pins| => Entries(PinMap(pins[i])))
  }

  function UpstreamMap(c: Config): map<string, Yaml> {
    var own := map[]["address_data" := Text(c.upstream)]["tls_port" := Number(c.port)]["tls_auth_name" := Text(c.authName)];
    if c.pinset == [] then own else own["tls_pubkey_pinset" := Items(PinMaps(c.pinset))]
  }

  /** Every query over TLS to the server, which is checked if the profile is strict */
  function TopMap(c: Config): map<string, Yaml> {
    var fixed := map[]["resolution_type" := Text("GETDNS_RESOLUTION_STUB")]
                 ["dns_transport_list" := Items([Text("GETDNS_TRANSPORT_TLS")])]
                 ["tls_authentication" := Text(if c.strict then "GETDNS_AUTHENTICATION_REQUIRED" else "GETDNS_AUTHENTICATION_NONE")]
                 ["tls_query_padding_blocksize" := Number(128)]["edns_client_subnet_private" := Number(1)]
                 ["round_robin_upstreams" := Number(1)]["idle_timeout" := Number(10000)];
    if c.caFile == "" then fixed else fixed["tls_ca_file" := Text(c.caFile)]
  }

  function Value(c: Config): map<string, Yaml> {
    TopMap(c)["listen_addresses" := if c.listen == [] then Null else Items(AsTexts(c.listen))]
    ["upstream_recursive_servers" := Items([Entries(UpstreamMap(c))])]
  }

  // ----- its document -----

  function Leaves(ss: seq<string>): Nodes {
    if ss == [] then NoNodes else More(Leaf(ss[0]), Leaves(ss[1..]))
  }

  function PinPairs(pin: string): Pairs {
    Pair("digest", Leaf(InQuotes("sha256")), Pair("value", Leaf(pin), NoPairs))
  }

  function PinNodes(pins: seq<string>): Nodes {
    if pins == [] then NoNodes else More(Dict(0, PinPairs(pins[0])), PinNodes(pins[1..]))
  }

  function PinsPair(pins: seq<string>): Pairs {
    if pins == [] then NoPairs else Pair("tls_pubkey_pinset", List(2, PinNodes(pins)), NoPairs)
  }

  function UpstreamPairs(c: Config): Pairs {
    Pair("address_data", Leaf(c.upstream),
    Pair("tls_port", Leaf(Digits(c.port)),
    Pair("tls_auth_name", Leaf(InQuotes(c.authName)), PinsPair(c.pinset))))
  }

  function ListenValue(listen: seq<string>): Node {
    if listen == [] then NoValue else List(2, Leaves(listen))
  }

  function LastPairs(c: Config): Pairs {
    Pair("listen_addresses", ListenValue(c.listen),
    Pair("upstream_recursive_servers", List(2, More(Dict(0, UpstreamPairs(c)), NoNodes)), NoPairs))
  }

  function CaPairs(c: Config, others: Pairs): Pairs {
    if c.caFile == "" then others else Pair("tls_ca_file", Leaf(InQuotes(c.caFile)), others)
  }

  function Transports(): Node {
    List(2, More(Leaf("GETDNS_TRANSPORT_TLS"), NoNodes))
  }

  function Authentication(c: Config): Node {
    Leaf(if c.strict then "GETDNS_AUTHENTICATION_REQUIRED" else "GETDNS_AUTHENTICATION_NONE")
  }

  function TopPairs(c: Config, others: Pairs): Pairs {
    Pair("resolution_type", Leaf("GETDNS_RESOLUTION_STUB"),
    Pair("dns_transport_list", Transports(),
    Pair("tls_authentication", Authentication(c), OptionPairs(CaPairs(c, others)))))
  }

  function OptionPairs(others: Pairs): Pairs {
    Pair("tls_query_padding_blocksize", Leaf("128"),
    Pair("edns_client_subnet_private", Leaf("1"),
    Pair("round_robin_upstreams", Leaf("1"),
    Pair("idle_timeout", Leaf("10000"), others))))
  }

  function Document(c: Config): Pairs {
    TopPairs(c, LastPairs(c))
  }

  // ----- its lines -----

  lemma {:induction false} LeavesAre(ss: seq<string>)
    ensures ItemLines(Leaves(ss), 2) == ListenLines(ss)
  {
    if ss != [] {
      LeavesAre(ss[1..]);
    }
  }

  lemma PinPairsAre(pin: string, rest: seq<Line>)
    ensures Nested(Leaf(InQuotes("sha256")), 8) + (PairLines(Pair("value", Leaf(pin), NoPairs), 8) + rest)
         == [Entry(8, "value", pin)] + rest
  {
    hide InQuotes;
    assert PairLines(Pair("value", Leaf(pin), NoPairs), 8) == [Entry(8, "value", pin)] + ([] + []);
  }

  lemma {:induction false} PinNodesAre(pins: seq<string>)
    ensures ItemLines(PinNodes(pins), 6) == PinLines(pins)
  {
    if pins != [] {
      PinNodesAre(pins[1..]);
      PinPairsAre(pins[0], ItemLines(PinNodes(pins[1..]), 6));
      hide Nested, PairLines, PinLines, InQuotes;
      PinLinesNext(pins);
    }
  }

  lemma PinLinesNext(pins: seq<string>)
    requires pins != []
    ensures PinLines(pins) == [Line(6, "- " + ("digest" + ": " + InQuotes("sha256")))]
                              + ([Entry(8, "value", pins[0])] + PinLines(pins[1..]))
  {
    hide InQuotes;
    assert "digest: " + InQuotes("sha256") == "digest" + ": " + InQuotes("sha256");
  }

  lemma UpstreamPairsAre(c: Config)
    ensures ItemLines(More(Dict(0, UpstreamPairs(c)), NoNodes), 2) == UpstreamLines(c)
  {
    PinNodesAre(c.pinset);
    hide InQuotes, Digits, PinLines, PinNodes, ItemLines;
    ItemLinesOne(UpstreamPairs(c));
    UpstreamRest(c);
    assert "address_data: " + c.upstream == "address_data" + ": " + c.upstream;
  }

  lemma ItemLinesOne(pairs: Pairs)
    requires pairs.Pair?
    ensures ItemLines(More(Dict(0, pairs), NoNodes), 2) ==
            [Line(2, "- " + Head(pairs.key, pairs.value))] + (Nested(pairs.value, 4) + PairLines(pairs.others, 4))
  {
    hide Head, Nested, PairLines;
    assert PairLines(pairs.others, 4) + [] == PairLines(pairs.others, 4);
  }

  lemma UpstreamRest(c: Config)
    requires ItemLines(PinNodes(c.pinset), 6) == PinLines(c.pinset)
    ensures PairLines(UpstreamPairs(c).others, 4) ==
            [Entry(4, "tls_port", Digits(c.port)), Entry(4, "tls_auth_name", InQuotes(c.authName))] + PinBlock(c.pinset)
  {
    hide InQuotes, Digits, PinLines, PinNodes, ItemLines;
    assert PairLines(PinsPair(c.pinset), 4) == PinBlock(c.pinset) by {
      if c.pinset != [] {
        assert PairLines(NoPairs, 4) == [];
      }
    }
    hide PinsPair, PinBlock;
    var auth := Pair("tls_auth_name", Leaf(InQuotes(c.authName)), PinsPair(c.pinset));
    assert PairLines(auth, 4) == [Entry(4, "tls_auth_name", InQuotes(c.authName))] + ([] + PinBlock(c.pinset));
  }

  lemma LastPairsAre(c: Config)
    ensures PairLines(LastPairs(c), 0) == [Opening(0, "listen_addresses")] + (ListenLines(c.listen)
                                          + ([Opening(0, "upstream_recursive_servers")] + UpstreamLines(c)))
  {
    LeavesAre(c.listen);
    UpstreamPairsAre(c);
    hide UpstreamPairs, ItemLines, Leaves, UpstreamLines;
    assert ListenLines([]) == [];
    assert Nested(ListenValue(c.listen), 0) == ListenLines(c.listen);
    hide ListenValue, ListenLines;
    var servers := List(2, More(Dict(0, UpstreamPairs(c)), NoNodes));
    assert Nested(servers, 0) == UpstreamLines(c);
    assert PairLines(Pair("upstream_recursive_servers", servers, NoPairs), 0)
        == [Opening(0, "upstream_recursive_servers")] + (UpstreamLines(c) + []);
  }

  lemma PairLinesNext(key: string, v: Node, others: Pairs, nested: seq<Line>, rest: seq<Line>)
    requires Nested(v, 0) == nested && PairLines(others, 0) == rest
    ensures PairLines(Pair(key, v, others), 0) == [Line(0, Head(key, v))] + (nested + rest)
  {
  }

  lemma OptionPairsAre(others: Pairs)
    ensures PairLines(OptionPairs(others), 0) ==
            [Entry(0, "tls_query_padding_blocksize", "128"), Entry(0, "edns_client_subnet_private", "1"),
             Entry(0, "round_robin_upstreams", "1"), Entry(0, "idle_timeout", "10000")] + PairLines(others, 0)
  {
    hide PairLines;
    var p1 := Pair("idle_timeout", Leaf("10000"), others);
    PairLinesNext("idle_timeout", Leaf("10000"), others, [], PairLines(others, 0));
    var p2 := Pair("round_robin_upstreams", Leaf("1"), p1);
    PairLinesNext("round_robin_upstreams", Leaf("1"), p1, [], PairLines(p1, 0));
    var p3 := Pair("edns_client_subnet_private", Leaf("1"), p2);
    PairLinesNext("edns_client_subnet_private", Leaf("1"), p2, [], PairLines(p2, 0));
    PairLinesNext("tls_query_padding_blocksize", Leaf("128"), p3, [], PairLines(p3, 0));
  }

  function CaLines(c: Config): seq<Line> {
    if c.caFile == "" then [] else [Entry(0, "tls_ca_file", InQuotes(c.caFile))]
  }

  lemma CaPairsAre(c: Config, others: Pairs)
    ensures PairLines(CaPairs(c, others), 0) == CaLines(c) + PairLines(others, 0)
  {
    hide InQuotes, PairLines;
    if c.caFile != "" {
      PairLinesNext("tls_ca_file", Leaf(InQuotes(c.caFile)), others, [], PairLines(others, 0));
    }
  }

  lemma TopPairsAre(c: Config, others: Pairs)
    ensures PairLines(TopPairs(c, others), 0) == TopLines(c) + PairLines(others, 0)
  {
    hide InQuotes, PairLines, OptionPairs, CaPairs;
    CaPairsAre(c, others);
    var p4 := OptionPairs(CaPairs(c, others));
    OptionPairsAre(CaPairs(c, others));
    var p3 := Pair("tls_authentication", Authentication(c), p4);
    PairLinesNext("tls_authentication", Authentication(c), p4, [], PairLines(p4, 0));
    var p2 := Pair("dns_transport_list", Transports(), p3);
    assert ItemLines(NoNodes, 2) == [];
    PairLinesNext("dns_transport_list", Transports(), p3, [ItemLine(2, "GETDNS_TRANSPORT_TLS")], PairLines(p3, 0));
    PairLinesNext("resolution_type", Leaf("GETDNS_RESOLUTION_STUB"), p2, [], PairLines(p2, 0));
    TopLinesAre(c);
    hide *;
    TopGrouped(Line(0, Head("resolution_type", Leaf("GETDNS_RESOLUTION_STUB"))), Line(0, Head("dns_transport_list", Transports())),
               ItemLine(2, "GETDNS_TRANSPORT_TLS"), Line(0, Head("tls_authentication", Authentication(c))),
               [Entry(0, "tls_query_padding_blocksize", "128"), Entry(0, "edns_client_subnet_private", "1"),
                Entry(0, "round_robin_upstreams", "1"), Entry(0, "idle_timeout", "10000")], CaLines(c), PairLines(others, 0));
  }

  lemma TopGrouped(a: Line, b: Line, i: Line, d: Line, o: seq<Line>, ca: seq<Line>, rest: seq<Line>)
    ensures [a] + ([] + ([b] + ([i] + ([d] + ([] + (o + (ca + rest))))))) == [a, b, i, d] + (o + ca) + rest
  {
  }

  lemma TopLinesAre(c: Config)
    ensures TopLines(c) ==
            [Line(0, Head("resolution_type", Leaf("GETDNS_RESOLUTION_STUB"))), Line(0, Head("dns_transport_list", Transports())),
             ItemLine(2, "GETDNS_TRANSPORT_TLS"), Line(0, Head("tls_authentication", Authentication(c)))]
            + ([Entry(0, "tls_query_padding_blocksize", "128"), Entry(0, "edns_client_subnet_private", "1"),
                Entry(0, "round_robin_upstreams", "1"), Entry(0, "idle_timeout", "10000")] + CaLines(c))
  {
    hide InQuotes;
  }

  /** The lines of the file are those of its document. */
  lemma FileIsDocument(c: Config)
    ensures PairLines(Document(c), 0) == FileLines(c)
  {
    TopPairsAre(c, LastPairs(c));
    LastPairsAre(c);
    hide PairLines, TopPairs, LastPairs, TopLines, ListenLines, UpstreamLines;
  }

  // ----- it is a document that can be read -----

  lemma Names()
    ensures IsName("digest") && IsName("value") && IsName("address_data") && IsName("tls_port")
    ensures IsName("tls_auth_name") && IsName("tls_pubkey_pinset")
  {
  }

  lemma TopNames()
    ensures IsName("resolution_type") && IsName("dns_transport_list") && IsName("tls_authentication")
    ensures IsName("listen_addresses")
  {
  }

  lemma MoreNames()
    ensures IsName("round_robin_upstreams") && IsName("idle_timeout") && IsName("tls_ca_file")
  {
  }

  lemma LongNames()
    ensures IsName("tls_query_padding_blocksize")
    ensures IsName("edns_client_subnet_private")
  {
  }

  lemma LongestName()
    ensures IsName("upstream_recursive_servers")
  {
  }

  lemma QuotedIs(s: string)
    ensures Scalar(InQuotes(s)) == Text(s) && Strip(InQuotes(s)) != ""
  {
    var q := InQuotes(s);
    assert q[0] == '"' && q[|q| - 1] == '"' && q[1..|q| - 1] == s;
    StripSpace(q);
  }

  lemma DigitsAre(n: nat)
    ensures Scalar(Digits(n)) == Number(n) && Strip(Digits(n)) != ""
  {
    DecimalOfDigits(n);
    var d := Digits(n);
    assert Trimmed(d);
    StripSpace(d);
    hide Strip, Digits, Decimal;
    assert d[..1] == [d[0]];
  }

  lemma LiteralsAreReadable()
    ensures Readable("128") && Readable("1") && Readable("10000") && Readable("sha256")
  {
  }

  lemma ResolutionIsReadable()
    ensures Readable("GETDNS_RESOLUTION_STUB")
  {
  }

  lemma TransportIsReadable()
    ensures Readable("GETDNS_TRANSPORT_TLS") && !IsKey("GETDNS_TRANSPORT_TLS")
  {
    var s := "GETDNS_TRANSPORT_TLS";
    assert forall i :: 0 <= i < |s| ==> s[i] != ':';
  }

  lemma RequiredIsReadable()
    ensures Readable("GETDNS_AUTHENTICATION_REQUIRED")
  {
  }

  lemma NoneIsReadable()
    ensures Readable("GETDNS_AUTHENTICATION_NONE")
  {
  }

  lemma QuotesAreReadable(s: string)
    requires SingleLine(s) && NoHash(s)
    ensures Readable(InQuotes(s))
  {
  }

  lemma DigitsAreReadable(n: nat)
    ensures Readable(Digits(n))
  {
    DecimalOfDigits(n);
    hide Digits, Decimal;
  }

  /** A mapping that can be written and read back */
  ghost predicate Fine(pairs: Pairs) {
    GoodPairs(pairs) && ReadablePairs(pairs)
  }

  lemma Next(key: string, v: Node, others: Pairs)
    requires IsName(key) && GoodValue(v) && ReadableValue(v) && Fine(others)
    ensures Fine(Pair(key, v, others))
  {
  }

  lemma NextLeaf(key: string, s: string, others: Pairs)
    requires IsName(key) && Readable(s) && Fine(others)
    ensures Fine(Pair(key, Leaf(s), others))
  {
    hide IsName, GoodPairs, ReadablePairs, Trimmed, SingleLine, NoHash;
    assert GoodValue(Leaf(s)) && ReadableValue(Leaf(s));
    Next(key, Leaf(s), others);
  }

  lemma {:induction false} LeavesAreFine(ss: seq<string>)
    requires forall s :: s in ss ==> PlainValue(s) && !IsKey(s)
    ensures GoodNodes(Leaves(ss)) && ReadableNodes(Leaves(ss))
  {
    hide IsKey, Scalar, Trimmed, SingleLine, NoHash;
    if ss != [] {
      assert ss[0] in ss;
      LeavesAreFine(ss[1..]);
    }
  }

  lemma {:induction false} PinsAreFine(pins: seq<string>)
    requires forall p :: p in pins ==> PlainValue(p)
    ensures GoodNodes(PinNodes(pins)) && ReadableNodes(PinNodes(pins))
  {
    if pins != [] {
      assert pins[0] in pins;
      PinsAreFine(pins[1..]);
      Names();
      LiteralsAreReadable();
      QuotesAreReadable("sha256");
      hide IsName, Readable, InQuotes, GoodPairs, ReadablePairs, Scalar;
      NoPairsAreFine();
      NextLeaf("value", pins[0], NoPairs);
      NextLeaf("digest", InQuotes("sha256"), Pair("value", Leaf(pins[0]), NoPairs));
    }
  }

  lemma NoPairsAreFine()
    ensures Fine(NoPairs)
  {
  }

  lemma UpstreamIsFine(c: Config)
    requires Writable(c)
    ensures Fine(UpstreamPairs(c))
  {
    Names();
    QuotesAreReadable(c.authName);
    DigitsAreReadable(c.port);
    PinsAreFine(c.pinset);
    NoPairsAreFine();
    hide IsName, Readable, InQuotes, Digits, Fine, GoodNodes, ReadableNodes, PinNodes, Scalar;
    if c.pinset != [] {
      PinsAreThere(c.pinset);
      Next("tls_pubkey_pinset", List(2, PinNodes(c.pinset)), NoPairs);
    }
    assert Fine(PinsPair(c.pinset));
    hide PinsPair;
    NextLeaf("tls_auth_name", InQuotes(c.authName), PinsPair(c.pinset));
    NextLeaf("tls_port", Digits(c.port), Pair("tls_auth_name", Leaf(InQuotes(c.authName)), PinsPair(c.pinset)));
    NextLeaf("address_data", c.upstream, UpstreamPairs(c).others);
  }

  lemma PinsAreThere(pins: seq<string>)
    requires pins != []
    ensures PinNodes(pins).More?
  {
  }

  lemma ListenIsFine(listen: seq<string>)
    requires forall s :: s in listen ==> PlainValue(s) && !IsKey(s)
    ensures GoodValue(ListenValue(listen)) && ReadableValue(ListenValue(listen))
  {
    LeavesAreFine(listen);
    hide PlainValue, IsKey;
  }

  lemma LastIsFine(c: Config)
    requires Writable(c)
    ensures Fine(LastPairs(c))
  {
    TopNames();
    LongestName();
    UpstreamIsFine(c);
    ListenIsFine(c.listen);
    NoPairsAreFine();
    var servers := List(2, More(Dict(0, UpstreamPairs(c)), NoNodes));
    assert GoodValue(servers) && ReadableValue(servers) by {
      assert GoodNodes(NoNodes) && ReadableNodes(NoNodes) && ReadableValue(Dict(0, UpstreamPairs(c)));
    }
    hide IsName, GoodValue, ReadableValue, Fine, ListenValue, UpstreamPairs;
    Next("upstream_recursive_servers", servers, NoPairs);
    Next("listen_addresses", ListenValue(c.listen), Pair("upstream_recursive_servers", servers, NoPairs));
  }

  lemma TransportsAreFine()
    ensures GoodValue(Transports()) && ReadableValue(Transports())
  {
    TransportIsReadable();
    hide Readable, IsKey;
    assert GoodNodes(NoNodes) && ReadableNodes(NoNodes);
    TextParts("GETDNS_TRANSPORT_TLS");
  }

  lemma TextParts(s: string)
    requires Readable(s)
    ensures s != "" && Trimmed(s) && SingleLine(s) && NoHash(s)
  {
  }

  lemma OptionsAreFine(others: Pairs)
    requires Fine(others)
    ensures Fine(OptionPairs(others))
  {
    MoreNames();
    LongNames();
    LiteralsAreReadable();
    hide IsName, Fine, Readable;
    var p1 := Pair("idle_timeout", Leaf("10000"), others);
    var p2 := Pair("round_robin_upstreams", Leaf("1"), p1);
    NextLeaf("idle_timeout", "10000", others);
    NextLeaf("round_robin_upstreams", "1", p1);
    NextLeaf("edns_client_subnet_private", "1", p2);
    NextLeaf("tls_query_padding_blocksize", "128", Pair("edns_client_subnet_private", Leaf("1"), p2));
  }

  lemma CaIsFine(c: Config, others: Pairs)
    requires Writable(c) && Fine(others)
    ensures Fine(CaPairs(c, others))
  {
    MoreNames();
    QuotesAreReadable(c.caFile);
    hide IsName, Fine, Readable, InQuotes;
    if c.caFile != "" {
      NextLeaf("tls_ca_file", InQuotes(c.caFile), others);
    }
  }

  lemma AuthenticationIsFine(c: Config)
    ensures Readable(Authentication(c).text)
  {
    RequiredIsReadable();
    NoneIsReadable();
    hide Readable;
  }

  lemma TopIsFine(c: Config, others: Pairs)
    requires Writable(c) && Fine(others)
    ensures Fine(TopPairs(c, others))
  {
    TopNames();
    ResolutionIsReadable();
    AuthenticationIsFine(c);
    TransportsAreFine();
    hide IsName, GoodValue, ReadableValue, Fine, Readable, Transports, OptionPairs, CaPairs;
    CaIsFine(c, others);
    var p4 := OptionPairs(CaPairs(c, others));
    OptionsAreFine(CaPairs(c, others));
    NextLeaf("tls_authentication", Authentication(c).text, p4);
    Next("dns_transport_list", Transports(), Pair("tls_authentication", Authentication(c), p4));
    NextLeaf("resolution_type", "GETDNS_RESOLUTION_STUB", TopPairs(c, others).others);
  }

  // ----- what it stands for -----

  lemma {:induction false} LeavesMean(ss: seq<string>)
    requires forall s :: s in ss ==> PlainValue(s)
    ensures Meanings(Leaves(ss)) == AsTexts(ss)
  {
    hide Scalar, Readable;
    if ss != [] {
      assert ss[0] in ss;
      LeavesMean(ss[1..]);
      assert AsTexts(ss) == [Text(ss[0])] + AsTexts(ss[1..]);
    }
  }

  lemma PinMeans(pin: string)
    requires PlainValue(pin)
    ensures MapOf(PinPairs(pin), map[]) == PinMap(pin)
  {
    QuotedIs("sha256");
    hide Scalar, Readable, InQuotes, MapOf;
    PairMeans(PinPairs(pin), map[]);
    PairMeans(PinPairs(pin).others, map[]["digest" := Text("sha256")]);
    PairMeans(NoPairs, PinMap(pin));
  }

  lemma {:induction false} PinsMean(pins: seq<string>)
    requires forall p :: p in pins ==> PlainValue(p)
    ensures Meanings(PinNodes(pins)) == PinMaps(pins)
  {
    hide MapOf, PinPairs, PinMap, PlainValue;
    if pins != [] {
      assert pins[0] in pins;
      PinsMean(pins[1..]);
      PinMeans(pins[0]);
      assert PinMaps(pins) == [Entries(PinMap(pins[0]))] + PinMaps(pins[1..]);
    }
  }

  lemma UpstreamMeans(c: Config)
    requires Writable(c)
    ensures MapOf(UpstreamPairs(c), map[]) == UpstreamMap(c)
  {
    PinsMean(c.pinset);
    QuotedIs(c.authName);
    DigitsAre(c.port);
    hide Scalar, Readable, InQuotes, Digits, PinNodes, PinMaps, MapOf;
    var m1: map<string, Yaml> := map[]["address_data" := Text(c.upstream)];
    var m2 := m1["tls_port" := Number(c.port)];
    var m3 := m2["tls_auth_name" := Text(c.authName)];
    PairMeans(UpstreamPairs(c), map[]);
    PairMeans(UpstreamPairs(c).others, m1);
    PairMeans(UpstreamPairs(c).others.others, m2);
    PairMeans(PinsPair(c.pinset), m3);
    PairMeans(NoPairs, UpstreamMap(c));
  }

  lemma LastMeans(c: Config, before: map<string, Yaml>)
    requires Writable(c)
    ensures MapOf(LastPairs(c), before) ==
            before["listen_addresses" := if c.listen == [] then Null else Items(AsTexts(c.listen))]
            ["upstream_recursive_servers" := Items([Entries(UpstreamMap(c))])]
  {
    ListenMeans(c.listen);
    ServersMean(c);
    hide UpstreamPairs, UpstreamMap, AsTexts, ListenValue, Meaning, MapOf, Writable;
    var servers := Pair("upstream_recursive_servers", List(2, More(Dict(0, UpstreamPairs(c)), NoNodes)), NoPairs);
    var m1 := before["listen_addresses" := if c.listen == [] then Null else Items(AsTexts(c.listen))];
    PairMeans(LastPairs(c), before);
    PairMeans(servers, m1);
    PairMeans(NoPairs, m1["upstream_recursive_servers" := Items([Entries(UpstreamMap(c))])]);
  }

  lemma ListenMeans(listen: seq<string>)
    requires forall s :: s in listen ==> PlainValue(s)
    ensures Meaning(ListenValue(listen)) == if listen == [] then Null else Items(AsTexts(listen))
  {
    LeavesMean(listen);
    hide Leaves, AsTexts, Meanings, PlainValue;
  }

  lemma ServersMean(c: Config)
    requires Writable(c)
    ensures Meaning(List(2, More(Dict(0, UpstreamPairs(c)), NoNodes))) == Items([Entries(UpstreamMap(c))])
  {
    UpstreamMeans(c);
    hide UpstreamPairs, UpstreamMap, MapOf, Writable;
    var d := Dict(0, UpstreamPairs(c));
    assert Meaning(d) == Entries(UpstreamMap(c));
    assert Meanings(NoNodes) == [];
    assert Meanings(More(d, NoNodes)) == [Meaning(d)] + [];
  }

  lemma LiteralsMean()
    ensures Scalar("GETDNS_RESOLUTION_STUB") == Text("GETDNS_RESOLUTION_STUB")
    ensures Scalar("128") == Number(128) && Scalar("1") == Number(1) && Scalar("10000") == Number(10000)
  {
    NumbersAre();
    WordMeans("GETDNS_RESOLUTION_STUB");
    hide Scalar, Digits, Strip;
    DigitsAre(128);
    DigitsAre(1);
    DigitsAre(10000);
  }

  lemma NumbersAre()
    ensures Digits(1) == "1" && Digits(128) == "128" && Digits(10000) == "10000"
  {
    assert Digits(12) == "12";
    assert Digits(100) == "100" by {
      assert Digits(10) == "10";
    }
    assert Digits(1000) == "1000";
  }

  /** A long word that starts with a capital letter is a text. */
  lemma WordMeans(s: string)
    requires |s| > 5 && Trimmed(s) && 'A' <= s[0] <= 'Z'
    ensures Scalar(s) == Text(s)
  {
    StripSpace(s);
    assert s[..1] == [s[0]];
    hide Strip;
    assert |Lower(s)| > 5;
  }

  lemma TransportMeans()
    ensures Meaning(Transports()) == Items([Text("GETDNS_TRANSPORT_TLS")])
  {
    WordMeans("GETDNS_TRANSPORT_TLS");
    hide Scalar;
    assert Meanings(NoNodes) == [];
    assert [Text("GETDNS_TRANSPORT_TLS")] + [] == [Text("GETDNS_TRANSPORT_TLS")];
  }

  lemma AuthenticationMeans(c: Config)
    ensures Meaning(Authentication(c)) == Text(if c.strict then "GETDNS_AUTHENTICATION_REQUIRED" else "GETDNS_AUTHENTICATION_NONE")
  {
    WordMeans("GETDNS_AUTHENTICATION_REQUIRED");
    WordMeans("GETDNS_AUTHENTICATION_NONE");
    hide Scalar;
  }

  lemma OptionsMean(others: Pairs, before: map<string, Yaml>)
    ensures MapOf(OptionPairs(others), before) ==
            MapOf(others, before["tls_query_padding_blocksize" := Number(128)]["edns_client_subnet_private" := Number(1)]
                          ["round_robin_upstreams" := Number(1)]["idle_timeout" := Number(10000)])
  {
    LiteralsMean();
    hide Scalar, MapOf;
    assert forall s :: Meaning(Leaf(s)) == Scalar(s);
    hide Meaning;
    var m1 := before["tls_query_padding_blocksize" := Number(128)];
    var m2 := m1["edns_client_subnet_private" := Number(1)];
    var m3 := m2["round_robin_upstreams" := Number(1)];
    var p1 := Pair("idle_timeout", Leaf("10000"), others);
    var p2 := Pair("round_robin_upstreams", Leaf("1"), p1);
    var p3 := Pair("edns_client_subnet_private", Leaf("1"), p2);
    PairMeans(Pair("tls_query_padding_blocksize", Leaf("128"), p3), before);
    PairMeans(p3, m1);
    PairMeans(p2, m2);
    PairMeans(p1, m3);
  }

  lemma TopMeans(c: Config, others: Pairs)
    ensures MapOf(TopPairs(c, others), map[]) == MapOf(others, TopMap(c))
  {
    LiteralsMean();
    TransportMeans();
    AuthenticationMeans(c);
    QuotedIs(c.caFile);
    hide Scalar, MapOf, OptionPairs, Transports, Authentication, InQuotes;
    assert forall s :: Meaning(Leaf(s)) == Scalar(s);
    hide Meaning;
    var auth := Text(if c.strict then "GETDNS_AUTHENTICATION_REQUIRED" else "GETDNS_AUTHENTICATION_NONE");
    var p3 := Pair("tls_authentication", Authentication(c), OptionPairs(CaPairs(c, others)));
    var p2 := Pair("dns_transport_list", Transports(), p3);
    var m1: map<string, Yaml> := map[]["resolution_type" := Text("GETDNS_RESOLUTION_STUB")];
    var m2 := m1["dns_transport_list" := Items([Text("GETDNS_TRANSPORT_TLS")])];
    var m3 := m2["tls_authentication" := auth];
    PairMeans(TopPairs(c, others), map[]);
    PairMeans(p2, m1);
    PairMeans(p3, m2);
    OptionsMean(CaPairs(c, others), m3);
    if c.caFile != "" {
      PairMeans(CaPairs(c, others), m3["tls_query_padding_blocksize" := Number(128)]["edns_client_subnet_private" := Number(1)]
                                    ["round_robin_upstreams" := Number(1)]["idle_timeout" := Number(10000)]);
    }
  }

  /** The rendered text is parsed into the value of its configuration, option by option. */
  lemma ValueIsParsed(c: Config)
    requires Writable(c)
    ensures Parsed(Rendered(c)) == Entries(Value(c))
  {
    FileIsDocument(c);
    LastIsFine(c);
    TopIsFine(c, LastPairs(c));
    TopMeans(c, LastPairs(c));
    LastMeans(c, TopMap(c));
    hide Writable, PairLines, LastPairs, TopMap, MapOf, FileLines, Joined, LineTexts, UpstreamMap, AsTexts;
    assert Document(c).Pair?;
    hide TopPairs;
    PlainDocument(Document(c));
  }

  // ----- the settings -----

  /** Without a port, a server is asked on 853; without anything else, it has no address and no pins. */
  lemma DefaultsAre(m: map<string, Yaml>)
    requires "tls_port" !in m && "tls_pubkey_pinset" !in m && "address_data" !in m
    ensures UpstreamOf(m) == Some(Upstream("", 853, Get(m, "tls_auth_name"), []))
  {
  }

  /** Reading the settings raises for a port that is no integer, and for pins that are no list. */
  lemma RaisesFor(m: map<string, Yaml>)
    ensures Get(m, "tls_port").Text? && Get(m, "tls_port").text != "" && !IsInteger(Strip(Get(m, "tls_port").text)) ==> UpstreamOf(m).None?
    ensures Get(m, "tls_port").Items? && Get(m, "tls_port").items != [] ==> UpstreamOf(m).None?
    ensures Get(m, "tls_pubkey_pinset") == Truth(true) ==> UpstreamOf(m).None?
    ensures Get(m, "tls_pubkey_pinset").Number? && Get(m, "tls_pubkey_pinset").value != 0 ==> UpstreamOf(m).None?
  {
    hide IsInteger, Strip;
  }

  /** The port after an `@` sign is dropped. */
  lemma BeforeAtIs(address: string, rest: string)
    requires forall i :: 0 <= i < |address| ==> address[i] != '@'
    ensures BeforeAt(address) == address && BeforeAt(address + "@" + rest) == address
  {
    FindFirst(address, '@', rest);
    assert address + "@" + rest == address + ['@'] + rest;
    assert (address + ['@'] + rest)[..|address|] == address;
    assert Find(address, '@').None?;
  }

  function WithoutPorts(listen: seq<string>): (r: seq<string>)
    ensures |r| == |listen| && forall i :: 0 <= i < |listen| ==> r[i] == BeforeAt(listen[i])
  {
    seq(|listen|, i requires 0 <= i < |listen| => BeforeAt(listen[i]))
  }

  function Expected(c: Config): Settings {
    Settings([Upstream(c.upstream, c.port, Text(c.authName), c.pinset)], WithoutPorts(c.listen))
  }

  lemma {:induction false} ListenBack(listen: seq<string>)
    ensures ListenOf(AsTexts(listen)) == WithoutPorts(listen)
  {
    hide BeforeAt;
    if listen != [] {
      var n := |listen| - 1;
      ListenBack(listen[..n]);
      assert AsTexts(listen)[..n] == AsTexts(listen[..n]);
    }
  }

  lemma {:induction false} PinDicts(pins: seq<string>)
    ensures |OnlyDicts(PinMaps(pins))| == |pins|
    ensures forall i :: 0 <= i < |pins| ==> OnlyDicts(PinMaps(pins))[i] == PinMap(pins[i])
  {
    hide PinMap;
    if pins != [] {
      var n := |pins| - 1;
      PinDicts(pins[..n]);
      assert PinMaps(pins)[..n] == PinMaps(pins[..n]);
    }
  }

  lemma {:induction false} PinsBack(dicts: seq<map<string, Yaml>>, pins: seq<string>)
    requires |dicts| == |pins| && forall i :: 0 <= i < |pins| ==> dicts[i] == PinMap(pins[i]) && pins[i] != ""
    ensures PinsOf(dicts) == pins
  {
    if pins != [] {
      var n := |pins| - 1;
      PinsBack(dicts[..n], pins[..n]);
      assert Get(dicts[n], "value") == Text(pins[n]);
      assert pins == pins[..n] + [pins[n]];
    }
  }

  lemma UpstreamBack(c: Config)
    requires Writable(c)
    ensures UpstreamOf(UpstreamMap(c)) == Some(Upstream(c.upstream, c.port, Text(c.authName), c.pinset))
  {
    hide UpstreamMap, Writable, PinMap, PinMaps, OnlyDicts, PinsOf, Digits, IsInteger, IntegerOf, Strip, Get;
    UpstreamEntries(c);
    PortAndPins(c);
    PinDicts(c.pinset);
    PinsBack(OnlyDicts(PinMaps(c.pinset)), c.pinset);
    PinsBack([], []);
  }

  lemma PortAndPins(c: Config)
    requires Writable(c)
    ensures c.port >= 1 && forall i :: 0 <= i < |c.pinset| ==> c.pinset[i] != ""
  {
    forall i | 0 <= i < |c.pinset|
      ensures c.pinset[i] != ""
    {
      assert c.pinset[i] in c.pinset;
    }
  }

  lemma UpstreamEntries(c: Config)
    ensures var m := UpstreamMap(c);
      && "address_data" in m && m["address_data"] == Text(c.upstream)
      && Get(m, "tls_port") == Number(c.port) && Get(m, "tls_auth_name") == Text(c.authName)
      && Get(m, "tls_pubkey_pinset") == if c.pinset == [] then Null else Items(PinMaps(c.pinset))
  {
    assert "tls_port" != "tls_auth_name" && "tls_port" != "tls_pubkey_pinset" && "tls_auth_name" != "tls_pubkey_pinset";
    assert "address_data" != "tls_port" && "address_data" != "tls_auth_name" && "address_data" != "tls_pubkey_pinset";
  }

  lemma Looked(c: Config)
    ensures Get(Value(c), "upstream_recursive_servers") == Items([Entries(UpstreamMap(c))])
    ensures Get(Value(c), "listen_addresses") == if c.listen == [] then Null else Items(AsTexts(c.listen))
  {
    assert "listen_addresses" != "upstream_recursive_servers";
    hide TopMap, UpstreamMap, AsTexts;
  }

  /** Parsing the rendered text gives the upstream server with its port, name and pins, and the addresses to
      listen on without their ports, for lists of any length. */
  lemma ParseRendered(c: Config)
    requires Writable(c)
    ensures SettingsOf(Parsed(Rendered(c))) == Some(Expected(c))
  {
    hide Writable, Parsed, Rendered, Value, UpstreamMap, UpstreamOf, UpstreamsOf, DictsOf, BeforeAt, AsTexts, Get;
    ValueIsParsed(c);
    Looked(c);
    UpstreamBack(c);
    ListenBack(c.listen);
    OneServer(UpstreamMap(c));
    if c.listen == [] {
      assert WithoutPorts(c.listen) == [];
    }
  }

  lemma OneServer(m: map<string, Yaml>)
    ensures DictsOf(Items([Entries(m)])) == Some([m])
    ensures UpstreamsOf([m]) == match UpstreamOf(m) { case None => None case Some(u) => Some([u]) }
  {
    hide UpstreamOf;
    assert [Entries(m)][..0] == [];
    assert OnlyDicts([Entries(m)]) == [m];
    var none: seq<map<string, Yaml>> := [m][..0];
    assert UpstreamsOf(none) == Some([]);
    if UpstreamOf(m).Some? {
      assert [] + [UpstreamOf(m).value] == [UpstreamOf(m).value];
    }
  }
}
