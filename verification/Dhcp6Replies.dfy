/**
 `build_dhcp6` and `parse_dhcp6`. `Dhcp6Messages` says what is parsed from the messages of clients and servers.
 */
module Dhcp6Replies {
  import opened Wrappers
  import opened Bytes
  import opened DnsNames
  import opened Dhcp6

  datatype Leased = Leased(address: Bytes, preferred: nat, valid: nat)

  datatype Ia = Ia(iaid: nat, t1: nat, t2: nat, addresses: seq<Leased>, statusCode: Option<nat>, statusMessage: Option<Bytes>)

  datatype Reply = Reply(msgType: Byte, xid: nat, serverDuid: Option<Bytes>, clientDuid: Option<Bytes>,
                         iaNa: seq<Ia>, addresses: seq<Leased>, statusCode: Option<nat>, statusMessage: Option<Bytes>,
                         dnsServers: seq<Bytes>, domainSearch: seq<Bytes>, preference: Option<Byte>, rapidCommit: bool,
                         options: seq<nat>)

  function EmptyReply(msgType: Byte, xid: nat): Reply {
    Reply(msgType, xid, None, None, [], [], None, None, [], [], None, false, [])
  }

  function Read32(b: Bytes, at: nat): nat
    requires at + 4 <= |b|
  {
    Word32(b[at], b[at + 1], b[at + 2], b[at + 3])
  }

  /** `_ip6_list` */
  function Ip6List(raw: Bytes): seq<Bytes> {
    if |raw| < 16 then [] else [raw[..16]] + Ip6List(raw[16..])
  }

  // ----- inside an IA_NA -----

  function WithSub(ia: Ia, sub: Option6): Ia {
    if sub.code == 5 && |sub.value| >= 24 then
      ia.(addresses := ia.addresses + [Leased(sub.value[..16], Read32(sub.value, 16), Read32(sub.value, 20))])
    else if sub.code == 13 && |sub.value| >= 2 then
      ia.(statusCode := Some(Word16(sub.value[0], sub.value[1])), statusMessage := Some(sub.value[2..]))
    else ia
  }

  function WithSubs(ia: Ia, subs: seq<Option6>): Ia {
    if subs == [] then ia else WithSub(WithSubs(ia, subs[..|subs| - 1]), subs[|subs| - 1])
  }

  function IaOf(value: Bytes): Ia
    requires |value| >= 12
  {
    WithSubs(Ia(Read32(value, 0), Read32(value, 4), Read32(value, 8), [], None, None), OptionsOf(value[12..]))
  }

  // ----- a whole message -----

  /** The options that only set or extend a field of the reply */
  function WithOther(r: Reply, t: Option6): (r2: Reply)
    requires !(t.code == 3 && |t.value| >= 12)
    ensures r2.addresses == r.addresses && r2.iaNa == r.iaNa && r2.options == r.options
  {
    if t.code == 1 then r.(clientDuid := Some(t.value))
    else if t.code == 2 then r.(serverDuid := Some(t.value))
    else if t.code == 7 && t.value != [] then r.(preference := Some(t.value[0]))
    else if t.code == 13 && |t.value| >= 2 then
      r.(statusCode := Some(Word16(t.value[0], t.value[1])), statusMessage := Some(t.value[2..]))
    else if t.code == 14 then r.(rapidCommit := true)
    else if t.code == 23 then r.(dnsServers := r.dnsServers + Ip6List(t.value))
    else if t.code == 24 then r.(domainSearch := r.domainSearch + Decode(t.value, []))
    else r
  }

  function WithOption(r: Reply, t: Option6): Reply {
    var r := r.(options := r.options + [t.code]);
    if t.code == 3 && |t.value| >= 12 then
      r.(iaNa := r.iaNa + [IaOf(t.value)], addresses := r.addresses + IaOf(t.value).addresses)
    else WithOther(r, t)
  }

  function WithOptions(r: Reply, ts: seq<Option6>): Reply {
    if ts == [] then r else WithOption(WithOptions(r, ts[..|ts| - 1]), ts[|ts| - 1])
  }

  function ReplyOf(data: Bytes): Option<Reply> {
    if |data| < 4 then None
    else Some(WithOptions(EmptyReply(data[0], Word16(data[1], data[2]) * 256 + data[3]), OptionsOf(data[4..])))
  }

  method ParseDhcp6(data: Bytes) returns (r: Option<Reply>)
    ensures r == ReplyOf(data)
    ensures r.Some? ==> r.value.addresses == AllAddresses(r.value.iaNa)
  {
    hide Word16, Word32, OptionsOf, Ip6List, Decode;
    if |data| < 4 {
      return None;
    }
    var reply := EmptyReply(data[0], Word16(data[1], data[2]) * 256 + data[3]);
    ghost var start := reply;
    var ts := IterOptions(data[4..]);
    for i := 0 to |ts|
      invariant reply == WithOptions(start, ts[..i])
      invariant reply.addresses == AllAddresses(reply.iaNa)
    {
      assert ts[..i + 1][..i] == ts[..i];
      var code, value := ts[i].code, ts[i].value;
      reply := reply.(options := reply.options + [code]);
      if code == 3 && |value| >= 12 {
        var ia := ParseIa(value);
        assert (reply.iaNa + [ia])[..|reply.iaNa|] == reply.iaNa;
        reply := reply.(iaNa := reply.iaNa + [ia], addresses := reply.addresses + ia.addresses);
      } else {
        reply := WithOther(reply, ts[i]);
      }
    }
    assert ts[..|ts|] == ts;
    return Some(reply);
  }

  method ParseIa(value: Bytes) returns (ia: Ia)
    requires |value| >= 12
    ensures ia == IaOf(value)
  {
    hide Word16, Word32, OptionsOf;
    ia := Ia(Read32(value, 0), Read32(value, 4), Read32(value, 8), [], None, None);
    ghost var start := ia;
    var subs := IterOptions(value[12..]);
    for i := 0 to |subs|
      invariant ia == WithSubs(start, subs[..i])
    {
      assert subs[..i + 1][..i] == subs[..i];
      var code, sub := subs[i].code, subs[i].value;
      if code == 5 && |sub| >= 24 {
        ia := ia.(addresses := ia.addresses + [Leased(sub[..16], Read32(sub, 16), Read32(sub, 20))]);
      } else if code == 13 && |sub| >= 2 {
        ia := ia.(statusCode := Some(Word16(sub[0], sub[1])), statusMessage := Some(sub[2..]));
      }
    }
    assert subs[..|subs|] == subs;
  }

  /** The addresses of all IA_NAs, in order */
  function AllAddresses(ias: seq<Ia>): seq<Leased> {
    if ias == [] then [] else AllAddresses(ias[..|ias| - 1]) + ias[|ias| - 1].addresses
  }

  // ----- build_dhcp6 -----

  datatype Solicit = Solicit(msgType: Byte, xid: nat, duid: Bytes, iaNa: bool, iaid: nat) {
    predicate Packable() {
      xid < 0x100_0000 && |duid| < 0x1_0000 && iaid < 0x1_0000_0000
    }
  }

  function IaValue(iaid: nat): (r: Bytes)
    requires iaid < 0x1_0000_0000
    ensures |r| == 12
  {
    Put32(iaid) + Put32(0) + Put32(0)
  }

  function ClientId(q: Solicit): Option6
    requires q.Packable()
  {
    Tlv(1, q.duid)
  }

  const ElapsedTime: Option6 := Tlv(8, [0, 0])

  /** DNS servers and domain list */
  const OptionRequest: Option6 := Tlv(6, Put16(23) + Put16(24))

  function RequestOptions(q: Solicit): seq<Option6>
    requires q.Packable()
  {
    [ClientId(q), ElapsedTime, OptionRequest] + (if q.iaNa then [Tlv(3, IaValue(q.iaid))] else [])
  }

  /** The type of a message and the three bytes of its transaction */
  function Header(msgType: Byte, xid: nat): (r: Bytes)
    requires xid < 0x100_0000
    ensures |r| == 4
  {
    [msgType] + [xid / 0x1_0000, xid / 256 % 256, xid % 256]
  }

  function RequestBytes(q: Solicit): Bytes
    requires q.Packable()
  {
    Header(q.msgType, q.xid) + Encoded(RequestOptions(q))
  }

  method BuildDhcp6(q: Solicit) returns (message: Bytes)
    requires q.Packable()
    ensures message == RequestBytes(q)
  {
    hide OptionBytes, Encoded;
    message := [q.msgType] + [q.xid / 0x1_0000, q.xid / 256 % 256, q.xid % 256];
    var options := OptionBytes(ClientId(q)) + OptionBytes(ElapsedTime);
    options := options + OptionBytes(OptionRequest);
    EncodedThree(ClientId(q), ElapsedTime, OptionRequest);
    assert [ClientId(q), ElapsedTime, OptionRequest] + [] == [ClientId(q), ElapsedTime, OptionRequest];
    if q.iaNa {
      options := options + OptionBytes(Tlv(3, IaValue(q.iaid)));
      EncodedAppend([ClientId(q), ElapsedTime, OptionRequest], Tlv(3, IaValue(q.iaid)));
    }
    message := message + options;
  }

  lemma {:induction false} EncodedAppend(ts: seq<Option6>, t: Option6)
    ensures Encoded(ts + [t]) == Encoded(ts) + OptionBytes(t)
  {
    hide OptionBytes;
    if ts == [] {
      assert Encoded([t]) == OptionBytes(t) + Encoded([t][1..]);
      assert ts + [t] == [t];
    } else {
      EncodedAppend(ts[1..], t);
      assert (ts + [t])[1..] == ts[1..] + [t];
    }
  }

  lemma EncodedThree(a: Option6, b: Option6, c: Option6)
    ensures Encoded([a, b, c]) == OptionBytes(a) + OptionBytes(b) + OptionBytes(c)
  {
    hide OptionBytes;
    EncodedAppend([], a);
    EncodedAppend([a], b);
    EncodedAppend([a, b], c);
    assert [] + [a] == [a] && [a] + [b] == [a, b] && [a, b] + [c] == [a, b, c];
  }
}
