/**
 The frames that the DHCP probe sends: `build_request`.
 */
module DhcpRequests {
  import opened Wrappers
  import opened Bytes
  import opened Checksums

  type Mac = b: Bytes | |b| == 6 witness [0, 0, 0, 0, 0, 0]

  type Address4 = b: Bytes | |b| == 4 witness [0, 0, 0, 0]

  datatype QueryType = Discover | Request

  datatype Query = Query(kind: QueryType, lease: Option<nat>, requested: Option<Address4>, secs: nat,
                         hostname: Option<Bytes>) {
    /** What `struct.pack` accepts */
    predicate Packable() {
      secs < 0x1_0000 && (lease.Some? ==> lease.value < 0x1_0000_0000)
    }
  }

  /** `hostname.encode()[:63]`, empty without a host name */
  function Name(q: Query): (r: Bytes)
    ensures |r| <= 63
  {
    if q.hostname.None? then []
    else if |q.hostname.value| > 63 then q.hostname.value[..63] else q.hostname.value
  }

  const BootpMinLen := 300

  function Zeros(n: nat): (r: Bytes)
    ensures |r| == n
  {
    seq(n, i => 0)
  }

  const ParameterRequestList: Bytes := [1, 3, 6, 15, 28, 51, 54, 58, 59, 121]

  function HostOption(q: Query): (r: Bytes)
    ensures |r| <= 65
  {
    if Name(q) == [] then [] else [12, |Name(q)|] + Name(q)
  }

  function RequestedOption(q: Query): (r: Bytes)
    ensures |r| <= 6
  {
    if q.requested.None? then [] else [50, 4] + q.requested.value
  }

  function LeaseOption(q: Query): (r: Bytes)
    requires q.Packable()
    ensures |r| <= 6
  {
    if q.lease.None? then [] else [51, 4] + Put32(q.lease.value)
  }

  function TypeOption(q: Query): (r: Bytes)
    ensures |r| == 3
  {
    [53, 1, if q.kind == Discover then 1 else 3]
  }

  function Options(q: Query): (r: Bytes)
    requires q.Packable()
    ensures |r| <= 93
  {
    TypeOption(q) + HostOption(q) + RequestedOption(q) + LeaseOption(q) + ([55, 10] + ParameterRequestList) + [255]
  }

  const MAGIC: Bytes := [0x63, 0x82, 0x53, 0x63]

  /** The message before its magic number */
  function Fixed(chaddr: Mac, xid: nat, secs: nat): (r: Bytes)
    requires xid < 0x1_0000_0000 && secs < 0x1_0000
    ensures |r| == 236
  {
    [1, 1, 6, 0] + Put32(xid) + Put16(secs) + Put16(0x8000) + Zeros(16) + (chaddr + Zeros(10)) + Zeros(192)
  }

  /** The BOOTP message, padded to the minimal length */
  function Bootp(chaddr: Mac, xid: nat, q: Query): (r: Bytes)
    requires q.Packable() && xid < 0x1_0000_0000
    ensures BootpMinLen <= |r| <= 333
  {
    var message := Fixed(chaddr, xid, q.secs) + MAGIC + Options(q);
    message + Zeros(if |message| < BootpMinLen then BootpMinLen - |message| else 0)
  }

  function Pseudo(udpLen: nat): (r: Bytes)
    requires udpLen < 0x1_0000
    ensures |r| == 12
  {
    Zeros(4) + [255, 255, 255, 255] + [0, 17] + Put16(udpLen)
  }

  function Udp(udpLen: nat, sum: nat): (r: Bytes)
    requires udpLen < 0x1_0000 && sum < 0x1_0000
    ensures |r| == 8
  {
    Put16(68) + Put16(67) + Put16(udpLen) + Put16(sum)
  }

  /** The 20 bytes of the IP header before and after its checksum */
  function IpHead(total: nat): (r: Bytes)
    requires total < 0x1_0000
    ensures |r| == 10
  {
    [0x45, 0x10] + Put16(total) + [0, 0, 0, 0, 64, 17]
  }

  function IpTail(): (r: Bytes)
    ensures |r| == 8
  {
    Zeros(4) + [255, 255, 255, 255]
  }

  // ----- reading options -----

  datatype Tagged = Tagged(code: Byte, value: Bytes)

  /** The options up to the end marker; zero bytes are padding. */
  function ReadOptions(opts: Bytes): seq<Tagged> {
    if opts == [] || opts[0] == 255 then []
    else if opts[0] == 0 then ReadOptions(opts[1..])
    else if |opts| < 2 then []
    else
      var end := OptionEnd(opts);
      [Tagged(opts[0], opts[2..end])] + ReadOptions(opts[end..])
  }

  /** Where the first option ends: with the bytes, when it is cut short */
  function OptionEnd(opts: Bytes): (end: nat)
    requires |opts| >= 2
    ensures 2 <= end <= |opts|
  {
    if 2 + opts[1] <= |opts| then 2 + opts[1] else |opts|
  }

  /** The loop over the options in `parse_reply` */
  method IterateOptions(opts: Bytes) returns (options: seq<Tagged>)
    ensures options == ReadOptions(opts)
  {
    hide ReadOptions;
    options := [];
    var i := 0;
    assert opts[0..] == opts;
    while i < |opts|
      invariant 0 <= i <= |opts|
      invariant ReadOptions(opts) == options + ReadOptions(opts[i..])
    {
      var code := opts[i];
      ReadAt(opts, i, options);
      if code == 255 {
        return;
      }
      if code == 0 {
        i := i + 1;
        continue;
      }
      if i + 1 >= |opts| {
        return;
      }
      var end := if i + 2 + opts[i + 1] <= |opts| then i + 2 + opts[i + 1] else |opts|;
      options := options + [Tagged(code, opts[i + 2..end])];
      i := end;
    }
    NothingRead();
    assert opts[i..] == [] && options + [] == options;
  }

  lemma NothingRead()
    ensures ReadOptions([]) == []
  {
  }

  lemma ReadAt(opts: Bytes, i: nat, options: seq<Tagged>)
    requires i < |opts|
    ensures opts[i] == 255 || (opts[i] != 0 && i + 1 >= |opts|) ==> options + ReadOptions(opts[i..]) == options
    ensures opts[i] == 0 ==> options + ReadOptions(opts[i..]) == options + ReadOptions(opts[i + 1..])
    ensures 0 < opts[i] < 255 && i + 1 < |opts| ==>
              var end := if i + 2 + opts[i + 1] <= |opts| then i + 2 + opts[i + 1] else |opts|;
              options + ReadOptions(opts[i..]) == options + [Tagged(opts[i], opts[i + 2..end])] + ReadOptions(opts[end..])
  {
    var rest := opts[i..];
    if opts[i] == 0 {
      assert rest[1..] == opts[i + 1..];
    } else if opts[i] < 255 && i + 1 < |opts| {
      var end := i + OptionEnd(rest);
      assert rest[2..OptionEnd(rest)] == opts[i + 2..end] && rest[OptionEnd(rest)..] == opts[end..];
    }
  }

  /** What a query asks for, option by option (RFC 2132) */
  function Asked(q: Query): seq<Tagged>
    requires q.Packable()
  {
    [Tagged(53, [if q.kind == Discover then 1 else 3])]
    + (match q.hostname
       case None => []
       case Some(name) => if name == [] then [] else [Tagged(12, if |name| <= 63 then name else name[..63])])
    + (if q.requested.None? then [] else [Tagged(50, q.requested.value)])
    + (if q.lease.None? then [] else [Tagged(51, Put32(q.lease.value))])
    + [Tagged(55, [1, 3, 6, 15, 28, 51, 54, 58, 59, 121])]
  }

  lemma OneOption(code: Byte, value: Bytes, rest: Bytes)
    requires 0 < code < 255 && |value| < 256
    ensures ReadOptions([code, |value|] + value + rest) == [Tagged(code, value)] + ReadOptions(rest)
  {
    var opts := [code, |value|] + value + rest;
    assert OptionEnd(opts) == 2 + |value|;
    assert opts[2..2 + |value|] == value && opts[2 + |value|..] == rest;
  }

  /** An option that may be missing */
  lemma MaybeOption(code: Byte, value: Option<Bytes>, bytes: Bytes, rest: Bytes)
    requires 0 < code < 255 && (value.Some? ==> |value.value| < 256)
    requires bytes == if value.None? then [] else [code, |value.value|] + value.value
    ensures ReadOptions(bytes + rest) == (if value.None? then [] else [Tagged(code, value.value)]) + ReadOptions(rest)
  {
    if value.None? {
      assert bytes + rest == rest && [] + ReadOptions(rest) == ReadOptions(rest);
    } else {
      OneOption(code, value.value, rest);
    }
  }

  lemma LastOptionsAreRead(q: Query, rest: Bytes)
    requires q.Packable()
    ensures ReadOptions(LeaseOption(q) + ([55, 10] + ParameterRequestList + ([255] + rest)))
         == (if q.lease.None? then [] else [Tagged(51, Put32(q.lease.value))]) + [Tagged(55, ParameterRequestList)]
  {
    hide ReadOptions, Put32;
    var e := [255] + rest;
    EndMarker(rest);
    OneOption(55, ParameterRequestList, e);
    assert [Tagged(55, ParameterRequestList)] + [] == [Tagged(55, ParameterRequestList)];
    MaybeOption(51, if q.lease.None? then None else Some(Put32(q.lease.value)), LeaseOption(q), [55, 10] + ParameterRequestList + e);
  }

  lemma FirstOptionsAreRead(q: Query, c: Bytes)
    requires q.Packable()
    ensures ReadOptions(TypeOption(q) + (HostOption(q) + (RequestedOption(q) + c)))
         == [Tagged(53, [if q.kind == Discover then 1 else 3])] + ((if Name(q) == [] then [] else [Tagged(12, Name(q))])
            + ((if q.requested.None? then [] else [Tagged(50, q.requested.value)]) + ReadOptions(c)))
  {
    hide ReadOptions, Name;
    var b := RequestedOption(q) + c;
    var a := HostOption(q) + b;
    MaybeOption(50, if q.requested.None? then None else Some(q.requested.value), RequestedOption(q), c);
    MaybeOption(12, if Name(q) == [] then None else Some(Name(q)), HostOption(q), b);
    var kind: Bytes := [if q.kind == Discover then 1 else 3];
    OneOption(53, kind, a);
    assert TypeOption(q) + a == [53, 1] + kind + a;
  }

  lemma Regrouped<T>(a: seq<T>, b: seq<T>, c: seq<T>, d: seq<T>, e: seq<T>, f: seq<T>)
    ensures a + b + c + d + e + f == a + (b + (c + (d + (e + f))))
  {
  }

  lemma AskedIs(q: Query)
    requires q.Packable()
    ensures Asked(q) == [Tagged(53, [if q.kind == Discover then 1 else 3])]
                        + (if Name(q) == [] then [] else [Tagged(12, Name(q))])
                        + (if q.requested.None? then [] else [Tagged(50, q.requested.value)])
                        + (if q.lease.None? then [] else [Tagged(51, Put32(q.lease.value))])
                        + [Tagged(55, ParameterRequestList)]
  {
  }

  /** The options of a query are read as what it asks for, whatever follows their end marker. */
  lemma OptionsAreRead(q: Query, rest: Bytes)
    requires q.Packable()
    ensures ReadOptions(Options(q) + rest) == Asked(q)
  {
    hide *;
    AskedIs(q);
    OptionsGrouped(q, rest);
    LastOptionsAreRead(q, rest);
    FirstOptionsAreRead(q, LeaseOption(q) + ([55, 10] + ParameterRequestList + ([255] + rest)));
    Regrouped([Tagged(53, [if q.kind == Discover then 1 else 3])], if Name(q) == [] then [] else [Tagged(12, Name(q))],
              if q.requested.None? then [] else [Tagged(50, q.requested.value)],
              if q.lease.None? then [] else [Tagged(51, Put32(q.lease.value))], [Tagged(55, ParameterRequestList)], []);
  }

  lemma OptionsGrouped(q: Query, rest: Bytes)
    requires q.Packable()
    ensures Options(q) + rest ==
            TypeOption(q) + (HostOption(q) + (RequestedOption(q) + (LeaseOption(q) + ([55, 10] + ParameterRequestList + ([255] + rest)))))
  {
    hide TypeOption, HostOption, RequestedOption, LeaseOption, ParameterRequestList;
    Regrouped(TypeOption(q), HostOption(q), RequestedOption(q), LeaseOption(q), [55, 10] + ParameterRequestList, [255] + rest);
    var parts := TypeOption(q) + HostOption(q) + RequestedOption(q) + LeaseOption(q) + ([55, 10] + ParameterRequestList);
    hide *;
    assert parts + [255] + rest == parts + ([255] + rest);
  }

  lemma EndMarker(rest: Bytes)
    ensures ReadOptions([255] + rest) == []
  {
  }

  /** Options with zero bytes before each of them */
  datatype Padded = Padded(zeros: nat, option: Tagged)

  predicate Writable(t: Tagged) {
    0 < t.code < 255 && |t.value| < 256
  }

  function PaddedBytes(ps: seq<Padded>): Bytes
    requires forall p :: p in ps ==> Writable(p.option)
  {
    if ps == [] then []
    else
      assert Writable(ps[0].option);
      Zeros(ps[0].zeros) + ([ps[0].option.code, |ps[0].option.value|] + ps[0].option.value + PaddedBytes(ps[1..]))
  }

  function Unpadded(ps: seq<Padded>): (r: seq<Tagged>)
    ensures |r| == |ps| && forall i :: 0 <= i < |ps| ==> r[i] == ps[i].option
  {
    seq(|ps|, i requires 0 <= i < |ps| => ps[i].option)
  }

  lemma {:induction false} ZerosAreSkipped(n: nat, rest: Bytes)
    ensures ReadOptions(Zeros(n) + rest) == ReadOptions(rest)
  {
    if n == 0 {
      assert Zeros(0) + rest == rest;
    } else {
      ZerosAreSkipped(n - 1, rest);
      assert (Zeros(n) + rest)[0] == 0 && (Zeros(n) + rest)[1..] == Zeros(n - 1) + rest;
    }
  }

  /** What may follow the options: nothing, an end marker and anything, a code alone, or an option whose value is
      cut short, which is read as far as it goes. */
  lemma EndIsRead(code: Byte, length: Byte, value: Bytes)
    requires 0 < code < 255 && |value| <= length
    ensures ReadOptions([]) == [] && ReadOptions([255] + value) == [] && ReadOptions([code]) == []
    ensures ReadOptions([code, length] + value) == [Tagged(code, value)]
  {
    CutIsRead(code, length, value);
  }

  lemma CutIsRead(code: Byte, length: Byte, value: Bytes)
    requires 0 < code < 255 && |value| <= length
    ensures ReadOptions([code, length] + value) == [Tagged(code, value)]
  {
    var opts := [code, length] + value;
    assert OptionEnd(opts) == |opts| && opts[2..|opts|] == value && opts[|opts|..] == [];
    hide OptionEnd;
    NothingRead();
  }

  /** Any options are read in order, whatever zero bytes are between them and whatever comes after them. */
  lemma {:induction false} AnyOptionsAreRead(ps: seq<Padded>, rest: Bytes)
    requires forall p :: p in ps ==> Writable(p.option)
    ensures ReadOptions(PaddedBytes(ps) + rest) == Unpadded(ps) + ReadOptions(rest)
  {
    hide ReadOptions, Zeros, Writable;
    if ps == [] {
      assert PaddedBytes(ps) + rest == rest && Unpadded(ps) + ReadOptions(rest) == ReadOptions(rest);
    } else {
      assert Writable(ps[0].option);
      AnyOptionsAreRead(ps[1..], rest);
      FirstPadded(ps, rest);
      hide PaddedBytes;
      assert Unpadded(ps) == [ps[0].option] + Unpadded(ps[1..]);
      assert [ps[0].option] + (Unpadded(ps[1..]) + ReadOptions(rest)) == [ps[0].option] + Unpadded(ps[1..]) + ReadOptions(rest);
    }
  }

  lemma FirstPadded(ps: seq<Padded>, rest: Bytes)
    requires ps != [] && (forall p :: p in ps ==> Writable(p.option)) && Writable(ps[0].option)
    ensures ReadOptions(PaddedBytes(ps) + rest) == [ps[0].option] + ReadOptions(PaddedBytes(ps[1..]) + rest)
  {
    var p := ps[0];
    var more := PaddedBytes(ps[1..]) + rest;
    var first: Bytes := [p.option.code, |p.option.value|] + p.option.value;
    OneOption(p.option.code, p.option.value, more);
    PaddedFirst(ps, first, rest);
    hide ReadOptions, Zeros, PaddedBytes, Writable;
    ZerosAreSkipped(p.zeros, first + more);
  }

  lemma PaddedFirst(ps: seq<Padded>, first: Bytes, rest: Bytes)
    requires ps != [] && (forall p :: p in ps ==> Writable(p.option)) && Writable(ps[0].option)
    requires first == [ps[0].option.code, |ps[0].option.value|] + ps[0].option.value
    ensures PaddedBytes(ps) + rest == Zeros(ps[0].zeros) + (first + (PaddedBytes(ps[1..]) + rest))
  {
    hide Zeros;
    assert PaddedBytes(ps) == Zeros(ps[0].zeros) + (first + PaddedBytes(ps[1..]));
  }

  // ----- the frame -----

  /** The first part of `build_request` */
  method BuildOptions(q: Query) returns (options: Bytes)
    requires q.Packable()
    ensures options == Options(q)
  {
    PartsAre(q);
    hide HostOption, RequestedOption, LeaseOption, Put32, ParameterRequestList, TypeOption;
    options := [53, 1, if q.kind == Discover then 1 else 3];
    AddNothing(options);
    if q.hostname.Some? && q.hostname.value != [] {
      var name := if |q.hostname.value| > 63 then q.hostname.value[..63] else q.hostname.value;
      options := options + ([12, |name|] + name);
    }
    assert options == TypeOption(q) + HostOption(q);
    AddNothing(options);
    if q.requested.Some? {
      options := options + ([50, 4] + q.requested.value);
    }
    assert options == TypeOption(q) + HostOption(q) + RequestedOption(q);
    AddNothing(options);
    if q.lease.Some? {
      options := options + ([51, 4] + Put32(q.lease.value));
    }
    options := options + ([55, |ParameterRequestList|] + ParameterRequestList);
    options := options + [255];
  }

  lemma AddNothing(options: Bytes)
    ensures options + [] == options
  {
  }

  lemma PartsAre(q: Query)
    requires q.Packable()
    ensures TypeOption(q) == [53, 1, if q.kind == Discover then 1 else 3] && |ParameterRequestList| == 10
    ensures HostOption(q) == if q.hostname.None? || q.hostname.value == [] then [] else [12, |Name(q)|] + Name(q)
    ensures q.requested.None? ==> RequestedOption(q) == []
    ensures q.requested.Some? ==> RequestedOption(q) == [50, 4] + q.requested.value
    ensures q.lease.None? ==> LeaseOption(q) == []
    ensures q.lease.Some? ==> LeaseOption(q) == [51, 4] + Put32(q.lease.value)
  {
  }

  method BuildBootp(chaddr: Mac, xid: nat, q: Query) returns (bootp: Bytes)
    requires q.Packable() && xid < 0x1_0000_0000
    ensures bootp == Bootp(chaddr, xid, q)
  {
    var options := BuildOptions(q);
    hide Options, Put32, Zeros, Put16;
    bootp := [1, 1, 6, 0] + Put32(xid) + Put16(q.secs) + Put16(0x8000) + Zeros(16) + (chaddr + Zeros(10)) + Zeros(192);
    bootp := bootp + MAGIC + options;
    bootp := bootp + Zeros(if |bootp| < BootpMinLen then BootpMinLen - |bootp| else 0);
  }

  /** The fields of the message before its options, byte by byte (RFC 951, RFC 2131): a broadcast request
      over Ethernet, without addresses, server name and file, then the magic number. */
  ghost predicate BootpHead(b: Bytes, chaddr: Mac, xid: nat, secs: nat) {
    && |b| >= 240
    && b[0] == 1 && b[1] == 1 && b[2] == 6 && b[3] == 0
    && Word32(b[4], b[5], b[6], b[7]) == xid
    && Word16(b[8], b[9]) == secs
    && b[10] == 0x80 && b[11] == 0
    && (forall i :: 12 <= i < 28 ==> b[i] == 0)
    && b[28..34] == chaddr
    && (forall i :: 34 <= i < 236 ==> b[i] == 0)
    && b[236] == 99 && b[237] == 130 && b[238] == 83 && b[239] == 99
  }

  lemma FixedIs(chaddr: Mac, xid: nat, secs: nat, rest: Bytes)
    requires xid < 0x1_0000_0000 && secs < 0x1_0000
    ensures BootpHead(Fixed(chaddr, xid, secs) + MAGIC + rest, chaddr, xid, secs)
  {
    var w, s, g := Put32(xid), Put16(secs), Put16(0x8000);
    assert g == [0x80, 0];
    hide Word32, Word16, Put32, Put16;
    var b := Fixed(chaddr, xid, secs) + MAGIC + rest;
    assert b == [1, 1, 6, 0] + w + s + g + Zeros(16) + chaddr + Zeros(202) + MAGIC + rest by {
      assert Zeros(10) + Zeros(192) == Zeros(202);
    }
  }

  /** The message, with its options after the magic number and zeros up to its minimal length */
  lemma BootpIsRead(chaddr: Mac, xid: nat, q: Query)
    requires q.Packable() && xid < 0x1_0000_0000
    ensures var b := Bootp(chaddr, xid, q); BootpHead(b, chaddr, xid, q.secs) && ReadOptions(b[240..]) == Asked(q)
  {
    hide ReadOptions, Put32, Put16, Options, Asked, Zeros, BootpHead;
    var message := Fixed(chaddr, xid, q.secs) + MAGIC + Options(q);
    var padding := Zeros(if |message| < BootpMinLen then BootpMinLen - |message| else 0);
    var b := Bootp(chaddr, xid, q);
    assert b == Fixed(chaddr, xid, q.secs) + MAGIC + (Options(q) + padding);
    assert b[240..] == Options(q) + padding;
    OptionsAreRead(q, padding);
    FixedIs(chaddr, xid, q.secs, Options(q) + padding);
  }

  /** `build_request`: a broadcast frame whose headers say what they should, byte by byte. Both checksums
      are the ones a receiver accepts, and the UDP one is never the zero that would mean that there is none. */
  method BuildRequest(src: Mac, chaddr: Mac, xid: nat, q: Query) returns (frame: Bytes)
    requires q.Packable() && xid < 0x1_0000_0000
    ensures |frame| >= 42 + 300
    ensures frame[..14] == [255, 255, 255, 255, 255, 255] + src + [8, 0]
    ensures IpAccepted(frame[14..34], 28 + |frame[42..]|)
    ensures UdpAccepted(frame[14..34], frame[34..42], frame[42..])
    ensures BootpHead(frame[42..], chaddr, xid, q.secs) && ReadOptions(frame[282..]) == Asked(q)
  {
    hide Bootp, BootpHead, IpAccepted, UdpAccepted, ChecksumOf, Pseudo, Udp, IpHead, IpTail, Put16, ReadOptions, Asked, MAGIC;
    var bootp := BuildBootp(chaddr, xid, q);
    BootpIsRead(chaddr, xid, q);
    var udpLen := 8 + |bootp|;
    var udpSum := Checksum(Pseudo(udpLen) + Udp(udpLen, 0) + bootp);
    if udpSum == 0 {
      udpSum := 0xFFFF;
    }
    var udp := Udp(udpLen, udpSum);
    var ipSum := Checksum(IpHead(20 + udpLen) + Put16(0) + IpTail());
    var ip := IpHead(20 + udpLen) + Put16(ipSum) + IpTail();
    IpIsAccepted(20 + udpLen, ipSum);
    IpBytes(20 + udpLen, ipSum);
    UdpBytes(udpLen, udpSum);
    UdpChecks(udpLen, udpSum, bootp);
    UdpIsAccepted(ip, udp, bootp);
    var head := [255, 255, 255, 255, 255, 255] + src + [8, 0];
    frame := head + ip + udp + bootp;
    assert frame[..14] == head;
    assert frame[14..34] == ip && frame[34..42] == udp && frame[42..] == bootp;
    assert frame[282..] == bootp[240..];
  }

  /** An IP header (RFC 791) of a broadcast UDP datagram without a source, with a total length and a
      checksum that a receiver accepts */
  ghost predicate IpAccepted(ip: Bytes, total: nat) {
    && |ip| == 20
    && ip[0] == 0x45 && ip[1] == 0x10
    && Word16(ip[2], ip[3]) == total
    && (forall i :: 4 <= i < 8 ==> ip[i] == 0)
    && ip[8] == 64 && ip[9] == 17
    && (forall i :: 12 <= i < 16 ==> ip[i] == 0)
    && (forall i :: 16 <= i < 20 ==> ip[i] == 255)
    && ChecksumOf(ip) == 0
  }

  /** A UDP header (RFC 768) in front of a message, from the client's port to the server's: its length covers
      both, its checksum is not missing, and holds for the message with the pseudo header, which consists of
      the addresses and the protocol of the IP header and of the length. */
  ghost predicate UdpAccepted(ip: Bytes, udp: Bytes, message: Bytes)
    requires |ip| == 20
  {
    && |udp| == 8
    && Word16(udp[0], udp[1]) == 68 && Word16(udp[2], udp[3]) == 67
    && Word16(udp[4], udp[5]) == |udp| + |message|
    && Word16(udp[6], udp[7]) != 0
    && ChecksumOf(ip[12..20] + [0, ip[9]] + udp[4..6] + udp + message) == 0
  }

  lemma IpIsAccepted(total: nat, sum: nat)
    requires total < 0x1_0000 && sum == ChecksumOf(IpHead(total) + Put16(0) + IpTail())
    ensures IpAccepted(IpHead(total) + Put16(sum) + IpTail(), total)
  {
    hide ChecksumOf, Word16, Put16, IpHead, IpTail;
    FilledIsAccepted(IpHead(total), IpTail());
    IpBytes(total, sum);
  }

  lemma IpBytes(total: nat, sum: nat)
    requires total < 0x1_0000 && sum < 0x1_0000
    ensures var ip := IpHead(total) + Put16(sum) + IpTail();
      && |ip| == 20 && ip[0] == 0x45 && ip[1] == 0x10 && Word16(ip[2], ip[3]) == total
      && (forall i :: 4 <= i < 8 ==> ip[i] == 0) && ip[8] == 64 && ip[9] == 17
      && (forall i :: 12 <= i < 16 ==> ip[i] == 0) && (forall i :: 16 <= i < 20 ==> ip[i] == 255)
      && ip[12..20] == IpTail()
  {
    IpHeadIs(total);
    hide Put16, Word16, IpHead;
    var t, s := Put16(total), Put16(sum);
    var ip := IpHead(total) + s + IpTail();
    assert forall i :: 0 <= i < 10 ==> ip[i] == IpHead(total)[i];
    assert ip[12..20] == IpTail();
  }

  lemma IpHeadIs(total: nat)
    requires total < 0x1_0000
    ensures IpHead(total) == [0x45, 0x10, Put16(total)[0], Put16(total)[1], 0, 0, 0, 0, 64, 17]
  {
    hide Put16;
  }

  lemma UdpChecks(udpLen: nat, sum: nat, bootp: Bytes)
    requires udpLen < 0x1_0000 && sum < 0x1_0000
    requires var c := ChecksumOf(Pseudo(udpLen) + Udp(udpLen, 0) + bootp); sum == if c == 0 then 0xFFFF else c
    ensures ChecksumOf(Pseudo(udpLen) + Udp(udpLen, sum) + bootp) == 0
  {
    PseudoIs(udpLen, sum, bootp);
    hide ChecksumOf, Word16, Put16, Pseudo, Udp, Zeros;
    FilledIsAccepted(Pseudo(udpLen) + Put16(68) + Put16(67) + Put16(udpLen), bootp);
  }

  lemma UdpIsAccepted(ip: Bytes, udp: Bytes, bootp: Bytes)
    requires |ip| == 20 && ip[12..20] == IpTail() && ip[9] == 17
    requires |udp| == 8 && udp[..4] == [0, 68, 0, 67] && Word16(udp[4], udp[5]) == 8 + |bootp| && Word16(udp[6], udp[7]) != 0
    requires ChecksumOf(IpTail() + [0, 17] + udp[4..6] + udp + bootp) == 0
    ensures UdpAccepted(ip, udp, bootp)
  {
    assert udp[..4][1] == udp[1] && udp[..4][3] == udp[3];
    hide ChecksumOf, IpTail;
  }

  lemma PseudoIs(udpLen: nat, sum: nat, bootp: Bytes)
    requires udpLen < 0x1_0000 && sum < 0x1_0000
    ensures var before := Pseudo(udpLen) + Put16(68) + Put16(67) + Put16(udpLen);
      && |before| == 18
      && Pseudo(udpLen) + Udp(udpLen, 0) + bootp == before + Put16(0) + bootp
      && Pseudo(udpLen) + Udp(udpLen, sum) + bootp == before + Put16(sum) + bootp
  {
    hide Put16, Word16, Zeros, Pseudo;
    Grouped(Pseudo(udpLen), Put16(68), Put16(67), Put16(udpLen), Put16(0), bootp);
    Grouped(Pseudo(udpLen), Put16(68), Put16(67), Put16(udpLen), Put16(sum), bootp);
  }

  lemma Grouped<T>(p: seq<T>, a: seq<T>, b: seq<T>, c: seq<T>, d: seq<T>, m: seq<T>)
    ensures p + (a + b + c + d) + m == p + a + b + c + d + m
  {
  }

  lemma UdpBytes(udpLen: nat, sum: nat)
    requires udpLen < 0x1_0000 && sum < 0x1_0000
    ensures var udp := Udp(udpLen, sum);
      && udp[..4] == [0, 68, 0, 67] && udp[4..6] == Put16(udpLen)
      && Word16(udp[4], udp[5]) == udpLen && Word16(udp[6], udp[7]) == sum
    ensures Pseudo(udpLen) == IpTail() + [0, 17] + Put16(udpLen)
  {
    PortsAre();
    hide Put16, Word16, Zeros;
  }

  lemma PortsAre()
    ensures Put16(68) == [0, 68] && Put16(67) == [0, 67]
  {
  }
}
