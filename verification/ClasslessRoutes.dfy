/**
 Option 121: the numbers of the value in dhcpd.conf, their parser, and the decoder of the probe.
 */
module ClasslessRoutes {
  import opened Wrappers
  import opened Bytes
  import opened IpAddresses
  import opened NetConfigs

  /** A decoded route; its destination may have host bits set. */
  datatype RawRoute = RawRoute(net: Block, hop: Address)

  /** Number of significant bytes of a destination */
  function Size(len: int): (s: int)
    ensures 0 <= len <= 32 ==> 0 <= s <= 4
  {
    (len + 7) / 8
  }

  predicate IsByte(x: int) {
    0 <= x < 256
  }

  /** The numbers start with a whole route. */
  predicate Starts(ns: seq<int>) {
    && |ns| >= 1 && 0 <= ns[0] <= 32 && |ns| >= 5 + Size(ns[0])
    && forall i :: 1 <= i < 5 + Size(ns[0]) ==> IsByte(ns[i])
  }

  /** The significant bytes of the destination */
  function Prefix(ns: seq<int>): (r: Bytes)
    requires Starts(ns)
    ensures |r| == Size(ns[0]) <= 4
  {
    ns[1..1 + Size(ns[0])]
  }

  /** The destination is padded with zero bytes. */
  function Padded(ns: seq<int>): (r: Bytes)
    requires Starts(ns)
    ensures |r| == 4
  {
    Prefix(ns) + seq(4 - |Prefix(ns)|, i => 0)
  }

  function Value(b: Bytes): nat
    requires |b| == 4
  {
    Word32(b[0], b[1], b[2], b[3])
  }

  function RouterBytes(ns: seq<int>): (r: Bytes)
    requires Starts(ns)
    ensures |r| == 4
  {
    ns[1 + Size(ns[0])..5 + Size(ns[0])]
  }

  function FirstRoute(ns: seq<int>): RawRoute
    requires Starts(ns)
  {
    RawRoute(Block(V4, Value(Padded(ns)), ns[0]), Address(V4, Value(RouterBytes(ns))))
  }

  function After(ns: seq<int>): seq<int>
    requires Starts(ns)
  {
    ns[5 + Size(ns[0])..]
  }

  // ----- parse_classless_routes -----

  /** The routes of a well-formed value, `None` of another one */
  function Parsed(ns: seq<int>): Option<seq<Route>> {
    if ns == [] then Some([])
    else if !Starts(ns) || !FirstRoute(ns).net.Valid() then None
    else match Parsed(After(ns))
      case None => None
      case Some(rest) => Some([Route(FirstRoute(ns).net, FirstRoute(ns).hop)] + rest)
  }

  function Prefixed(routes: seq<Route>, rest: Option<seq<Route>>): Option<seq<Route>> {
    match rest
    case Some(rs) => Some(routes + rs)
    case None => None
  }

  method ParseNumbers(ns: seq<int>) returns (routes: seq<Route>)
    ensures routes == match Parsed(ns) { case Some(rs) => rs case None => [] }
  {
    hide Parsed, Starts, FirstRoute, Block.Valid;
    routes := [];
    var i := 0;
    assert ns[0..] == ns;
    PrefixedNothing(Parsed(ns));
    while i < |ns|
      invariant 0 <= i <= |ns|
      invariant Parsed(ns) == Prefixed(routes, Parsed(ns[i..]))
    {
      var length := ns[i];
      var size := Size(length);
      StartsAt(ns, i);
      ParsedAt(ns, i, routes);
      if !(0 <= length <= 32) || |ns| < i + 5 + size || exists k :: i + 1 <= k < i + 5 + size && !IsByte(ns[k]) {
        return [];
      }
      var first := FirstRoute(ns[i..]);
      if !first.net.Valid() {
        return [];
      }
      routes := routes + [Route(first.net, first.hop)];
      i := i + 5 + size;
    }
    ParsedEnd();
    assert ns[i..] == [] && routes + [] == routes;
  }

  lemma PrefixedNothing(o: Option<seq<Route>>)
    ensures Prefixed([], o) == o
  {
    if o.Some? {
      assert [] + o.value == o.value;
    }
  }

  lemma ParsedEnd()
    ensures Parsed([]) == Some([])
  {
  }

  lemma StartsAt(ns: seq<int>, i: nat)
    requires i < |ns|
    ensures Starts(ns[i..]) <==>
            && 0 <= ns[i] <= 32 && |ns| >= i + 5 + Size(ns[i])
            && forall k :: i + 1 <= k < i + 5 + Size(ns[i]) ==> IsByte(ns[k])
  {
    var rest := ns[i..];
    if Starts(rest) {
      assert forall k :: i + 1 <= k < i + 5 + Size(ns[i]) ==> ns[k] == rest[k - i];
    }
  }

  lemma ParsedAt(ns: seq<int>, i: nat, routes: seq<Route>)
    requires i < |ns|
    ensures Starts(ns[i..]) && FirstRoute(ns[i..]).net.Valid() ==>
              var first := FirstRoute(ns[i..]);
              Prefixed(routes, Parsed(ns[i..]))
              == Prefixed(routes + [Route(first.net, first.hop)], Parsed(ns[i + 5 + Size(ns[i])..]))
    ensures !(Starts(ns[i..]) && FirstRoute(ns[i..]).net.Valid()) ==> Parsed(ns[i..]) == None
  {
    hide FirstRoute, Block.Valid;
    if Starts(ns[i..]) && FirstRoute(ns[i..]).net.Valid() {
      assert After(ns[i..]) == ns[i + 5 + Size(ns[i])..];
      hide After, Starts;
      var first := FirstRoute(ns[i..]);
      var rest := Parsed(After(ns[i..]));
      if rest.Some? {
        assert routes + ([Route(first.net, first.hop)] + rest.value) == routes + [Route(first.net, first.hop)] + rest.value;
      }
    }
  }

  // ----- _classless_routes of the probe -----

  function Decoded(raw: Bytes): seq<RawRoute> {
    if !Starts(raw) then [] else [FirstRoute(raw)] + Decoded(After(raw))
  }

  method DecodeClasslessRoutes(raw: Bytes) returns (routes: seq<RawRoute>)
    ensures routes == Decoded(raw)
  {
    hide Starts, FirstRoute, Size, Decoded;
    routes := [];
    var i := 0;
    assert raw[0..] == raw;
    while i < |raw|
      invariant 0 <= i <= |raw|
      invariant Decoded(raw) == routes + Decoded(raw[i..])
    {
      var length := raw[i];
      var size := Size(length);
      StartsAt(raw, i);
      DecodedAt(raw, i, routes);
      if length > 32 || i + 1 + size + 4 > |raw| {
        return;
      }
      routes := routes + [FirstRoute(raw[i..])];
      i := i + 5 + size;
    }
    NothingStarts();
    assert raw[i..] == [] && routes + [] == routes;
  }

  lemma DecodedAt(raw: Bytes, i: nat, routes: seq<RawRoute>)
    requires i < |raw|
    ensures Starts(raw[i..]) ==>
              i + 5 + Size(raw[i]) <= |raw| &&
              routes + Decoded(raw[i..]) == routes + [FirstRoute(raw[i..])] + Decoded(raw[i + 5 + Size(raw[i])..])
    ensures !Starts(raw[i..]) ==> routes + Decoded(raw[i..]) == routes
  {
    hide FirstRoute;
    if Starts(raw[i..]) {
      assert After(raw[i..]) == raw[i + 5 + Size(raw[i])..];
    }
  }

  lemma NothingStarts()
    ensures !Starts([]) && Decoded([]) == []
  {
  }

  // ----- render_classless_routes -----

  predicate Is4(r: Route) {
    r.net.family == V4 && InFamily(r.hop, V4)
  }

  lemma Address4(r: Route)
    requires Is4(r)
    ensures r.hop.value < 0x1_0000_0000 && r.net.base < 0x1_0000_0000 && r.net.len <= 32
  {
    assert Pow2(32) == 0x1_0000_0000 by {
      Powers();
    }
  }

  lemma Powers()
    ensures Pow2(8) == 0x100 && Pow2(16) == 0x1_0000 && Pow2(24) == 0x100_0000 && Pow2(32) == 0x1_0000_0000
  {
    assert Pow2(8) == 0x100;
    assert Pow2(16) == 0x1_0000;
    assert Pow2(24) == 0x100_0000;
  }

  function RenderedRoute(r: Route): seq<nat>
    requires Is4(r)
  {
    Address4(r);
    [r.net.len] + Put32(r.net.base)[..Size(r.net.len)] + Put32(r.hop.value)
  }

  function Rendered(routes: seq<Route>): seq<nat>
    requires forall r :: r in routes ==> Is4(r)
  {
    if routes == [] then [] else RenderedRoute(routes[0]) + Rendered(routes[1..])
  }

  lemma RenderedIs(r: Route)
    requires Is4(r)
    ensures r.hop.value < 0x1_0000_0000 && r.net.base < 0x1_0000_0000 && r.net.len <= 32
    ensures r.net.family == V4 && r.hop.family == V4
    ensures RenderedRoute(r) == [r.net.len] + Put32(r.net.base)[..Size(r.net.len)] + Put32(r.hop.value)
  {
    Address4(r);
  }

  // ----- the layout -----

  /** Option 121 of RFC 3442: the prefix length, as many bytes of the destination as it needs, and the router. */
  function Laid(len: nat, a: Byte, b: Byte, c: Byte, d: Byte, hop: seq<nat>): seq<nat> {
    [len]
    + (if len == 0 then [] else if len <= 8 then [a] else if len <= 16 then [a, b] else if len <= 24 then [a, b, c]
       else [a, b, c, d])
    + hop
  }

  lemma RouteIsLaid(r: Route, a: Byte, b: Byte, c: Byte, d: Byte, w: Byte, x: Byte, y: Byte, z: Byte)
    requires Is4(r)
    requires r.net.base == Word32(a, b, c, d) && r.hop.value == Word32(w, x, y, z)
    ensures RenderedRoute(r) == Laid(r.net.len, a, b, c, d, [w, x, y, z])
  {
    RenderedIs(r);
    Word32Bytes(a, b, c, d);
    Word32Bytes(w, x, y, z);
    hide Put32, Word32, RenderedRoute;
    SizeIs(r.net.len);
  }

  lemma SizeIs(len: nat)
    requires len <= 32
    ensures Size(len) == if len == 0 then 0 else if len <= 8 then 1 else if len <= 16 then 2 else if len <= 24 then 3 else 4
  {
  }

  // ----- the round trips -----

  lemma MulAssoc(a: nat, b: nat, c: nat)
    ensures a * (b * c) == (a * b) * c
  {
  }

  lemma MultipleOf(net: Subnet, bits: nat) returns (m: nat)
    requires net.family == V4 && net.len + bits <= 32
    ensures net.base == m * Pow2(bits)
  {
    hide Pow2;
    var q := Pow2Divides(bits, 32 - net.len);
    assert net.Size() == q * Pow2(bits);
    var k := Quotient(net.base, net.Size());
    m := k * q;
    MulAssoc(k, q, Pow2(bits));
  }

  /** The bytes after the significant ones are zero. */
  lemma PaddingIsZero(net: Subnet)
    requires net.family == V4
    ensures net.len <= 32 && net.base < 0x1_0000_0000
    ensures forall i :: Size(net.len) <= i < 4 ==> Put32(net.base)[i] == 0
  {
    Powers();
    var s := Size(net.len);
    if s < 4 {
      var m := MultipleOf(net, 32 - 8 * s);
      LowBytes(net.base, m, s);
    }
  }

  lemma LowBytes(x: nat, m: nat, s: nat)
    requires x < 0x1_0000_0000 && s < 4 && x == m * Pow2(32 - 8 * s)
    ensures forall i :: s <= i < 4 ==> Put32(x)[i] == 0
  {
    hide Put32, Pow2, Word32;
    Powers();
    LowDigits(x, m);
    PutDigits(x);
    if s == 3 {
    } else if s == 2 {
    } else if s == 1 {
    }
  }

  lemma PutDigits(x: nat)
    requires x < 0x1_0000_0000
    ensures var hi, lo := x / 0x1_0000, x % 0x1_0000;
            Put32(x) == [hi / 256, hi % 256, lo / 256, lo % 256]
  {
  }

  /** A multiple of a power of 256 ends in zero digits. */
  lemma LowDigits(x: nat, m: nat)
    requires x < 0x1_0000_0000
    ensures x == m * 0x100 ==> x % 0x1_0000 % 256 == 0
    ensures x == m * 0x1_0000 ==> x % 0x1_0000 == 0
    ensures x == m * 0x100_0000 ==> x % 0x1_0000 == 0 && x / 0x1_0000 % 256 == 0
    ensures x == m * 0x1_0000_0000 ==> x == 0
  {
    var hi, lo := x / 0x1_0000, x % 0x1_0000;
    assert x == 0x1_0000 * hi + lo;
    if x == m * 0x100 {
      assert lo == 0x100 * (m - 0x100 * hi);
    }
    if x == m * 0x100_0000 {
      assert lo == 0x1_0000 * (0x100 * m - hi);
      assert hi == 0x100 * m;
    }
  }

  /** A rendered route is read back, whatever follows it. */
  lemma RouteIsRead(r: Route, rest: seq<int>)
    requires Is4(r)
    ensures var ns := RenderedRoute(r) + rest;
      Starts(ns) && FirstRoute(ns) == RawRoute(r.net, r.hop) && After(ns) == rest
  {
    RenderedIs(r);
    PaddingIsZero(r.net);
    ValueOfPut(r.net.base);
    ValueOfPut(r.hop.value);
    hide Put32, Word32, Value, RenderedRoute, Block.Valid, InFamily, Size, Is4, Padded, RouterBytes, Starts, After;
    Layout(r.net.len, Put32(r.net.base), Put32(r.hop.value), rest);
  }

  lemma Layout(len: nat, b: Bytes, h: Bytes, rest: seq<int>)
    requires len <= 32 && |b| == |h| == 4 && forall i :: Size(len) <= i < 4 ==> b[i] == 0
    ensures var ns := [len] + b[..Size(len)] + h + rest;
      ns[0] == len && Starts(ns) && Padded(ns) == b && RouterBytes(ns) == h && After(ns) == rest
  {
    var s := Size(len);
    hide Size;
    var ns := [len] + b[..s] + h + rest;
    assert ns[1..1 + s] == b[..s] && ns[1 + s..5 + s] == h;
    assert forall i :: 1 <= i < 1 + s ==> ns[i] == b[i - 1];
    assert forall i :: 1 + s <= i < 5 + s ==> ns[i] == h[i - 1 - s];
  }

  lemma ValueOfPut(x: nat)
    requires x < 0x1_0000_0000
    ensures Value(Put32(x)) == x
  {
    hide Put32;
  }

  /** Parsing a rendered list of routes returns that list. */
  lemma {:induction false} ParseRendered(routes: seq<Route>)
    requires forall r :: r in routes ==> Is4(r)
    ensures Parsed(Rendered(routes)) == Some(routes)
  {
    if routes != [] {
      var r := routes[0];
      assert Is4(r);
      RouteIsRead(r, Rendered(routes[1..]));
      ParseRendered(routes[1..]);
      hide Is4, Starts, FirstRoute, After, RenderedRoute, Block.Valid;
      assert routes == [r] + routes[1..];
    }
  }

  /** A route that is read is rendered as it was. */
  lemma ReadIsRendered(ns: seq<int>)
    requires Starts(ns) && FirstRoute(ns).net.Valid()
    ensures var r := Route(FirstRoute(ns).net, FirstRoute(ns).hop);
      Is4(r) && ns == RenderedRoute(r) + After(ns)
  {
    hide Starts, FirstRoute, After, Padded, RouterBytes, Put32, Word32, Value, Block.Valid, Is4, RenderedRoute, Size, Pow2;
    var r := Route(FirstRoute(ns).net, FirstRoute(ns).hop);
    FirstIs4(ns);
    FirstBytes(ns);
    RenderedIs(r);
    var s := Size(ns[0]);
    assert ns == [ns[0]] + ns[1..1 + s] + ns[1 + s..5 + s] + ns[5 + s..];
  }

  lemma FirstBytes(ns: seq<int>)
    requires Starts(ns)
    ensures var first, s := FirstRoute(ns), Size(ns[0]);
      && first.net.len == ns[0] && 0 <= ns[0] <= 32 && 5 + s <= |ns|
      && first.net.base < 0x1_0000_0000 && Put32(first.net.base)[..s] == ns[1..1 + s]
      && first.hop.value < 0x1_0000_0000 && Put32(first.hop.value) == ns[1 + s..5 + s]
      && After(ns) == ns[5 + s..]
  {
    hide Put32, Word32, Value, Size;
    ValueBytes(Padded(ns));
    ValueBytes(RouterBytes(ns));
  }

  lemma FirstIs4(ns: seq<int>)
    requires Starts(ns) && FirstRoute(ns).net.Valid()
    ensures Is4(Route(FirstRoute(ns).net, FirstRoute(ns).hop))
  {
    Powers();
  }

  lemma ValueBytes(b: Bytes)
    requires |b| == 4
    ensures Value(b) < 0x1_0000_0000 && Put32(Value(b)) == b
  {
    Word32Bytes(b[0], b[1], b[2], b[3]);
    hide Put32, Word32;
  }

  /** The values that are accepted are exactly the rendered ones, each of one list of routes. */
  lemma {:induction false} AcceptedIsRendered(ns: seq<int>, routes: seq<Route>)
    ensures Parsed(ns) == Some(routes) <==>
            (forall r :: r in routes ==> Is4(r)) && Rendered(routes) == ns
    decreases |ns|
  {
    if (forall r :: r in routes ==> Is4(r)) && Rendered(routes) == ns {
      ParseRendered(routes);
    } else if Parsed(ns) == Some(routes) {
      ParsedIsRendered(ns);
    }
  }

  lemma {:induction false} ParsedIsRendered(ns: seq<int>)
    requires Parsed(ns).Some?
    ensures forall r :: r in Parsed(ns).value ==> Is4(r)
    ensures Rendered(Parsed(ns).value) == ns
    decreases |ns|
  {
    if ns != [] {
      ParsedIsRendered(After(ns));
      ReadIsRendered(ns);
      hide Is4, RenderedRoute, Starts, FirstRoute, Block.Valid;
      var routes := Parsed(ns).value;
      assert routes[1..] == Parsed(After(ns)).value;
    }
  }

  // ----- the decoder of the probe -----

  /** Where the decoder stops */
  function Left(raw: Bytes): Bytes {
    if !Starts(raw) then raw else Left(After(raw))
  }

  /** The parser accepts the bytes that the probe decodes to the end into networks without host bits,
      and both then yield the same routes. */
  lemma {:induction false} DecoderAgrees(raw: Bytes)
    ensures Parsed(raw).Some? <==>
            Left(raw) == [] && forall i :: 0 <= i < |Decoded(raw)| ==> Decoded(raw)[i].net.Valid()
    ensures Parsed(raw).Some? ==>
            && |Decoded(raw)| == |Parsed(raw).value|
            && forall i :: 0 <= i < |Decoded(raw)| ==>
                 Decoded(raw)[i] == RawRoute(Parsed(raw).value[i].net, Parsed(raw).value[i].hop)
    decreases |raw|
  {
    if Starts(raw) {
      DecoderAgrees(After(raw));
      hide Block.Valid, FirstRoute, Starts, After, Size;
      var first, rest := FirstRoute(raw), Decoded(After(raw));
      var all := [first] + rest;
      assert Decoded(raw) == all;
      assert raw != [];
      assert all[0] == first && forall i :: 0 <= i < |rest| ==> all[1 + i] == rest[i];
      if !first.net.Valid() {
        assert Parsed(raw).None?;
      } else {
        ValidTail(first, rest);
      }
    }
  }

  lemma ValidTail(first: RawRoute, rest: seq<RawRoute>)
    requires first.net.Valid()
    ensures var all := [first] + rest;
            (forall i :: 0 <= i < |all| ==> all[i].net.Valid()) <==> (forall i :: 0 <= i < |rest| ==> rest[i].net.Valid())
  {
    var all := [first] + rest;
    assert forall i :: 0 <= i < |rest| ==> all[1 + i] == rest[i];
  }

  /** The decoder alone accepts host bits in a destination. */
  lemma HostBitsAreDecoded(r: Byte)
    requires r % 2 == 1
    ensures var raw := [7, r, 192, 0, 2, 1];
      |Decoded(raw)| == 1 && Left(raw) == [] && Parsed(raw) == None
  {
    var raw := [7, r, 192, 0, 2, 1];
    assert Starts(raw) && Size(7) == 1;
    assert After(raw) == [];
    NothingStarts();
    assert Padded(raw) == [r, 0, 0, 0];
    hide Starts, Padded, RouterBytes, After, Size;
    var net := FirstRoute(raw).net;
    assert net.base == r * 0x100_0000;
    OddByte(r);
    assert net.Size() == 0x200_0000 by {
      Powers();
      assert Pow2(25) == 2 * Pow2(24);
    }
    assert !net.Valid();
  }

  lemma OddByte(r: nat)
    requires r % 2 == 1
    ensures (r * 0x100_0000) % 0x200_0000 == 0x100_0000
  {
  }
}
