/**
 Round trips of DHCPv6 messages: whatever options a server puts into a message, and into the IA_NAs in
 it, `parse_dhcp6` tells what they say.
 */
module Dhcp6Messages {
  import opened Wrappers
  import opened Bytes
  import opened DnsNames
  import opened Dhcp6
  import opened Dhcp6Replies

  // ----- the last and all of something in a list -----

  function Last<S, T>(list: seq<S>, pick: S -> Option<T>): Option<T> {
    if list == [] then None
    else
      var x := pick(list[|list| - 1]);
      if x.Some? then x else Last(list[..|list| - 1], pick)
  }

  function Gather<S, T>(list: seq<S>, pick: S -> seq<T>): seq<T> {
    if list == [] then [] else Gather(list[..|list| - 1], pick) + pick(list[|list| - 1])
  }

  lemma LastNext<S, T>(list: seq<S>, s: S, pick: S -> Option<T>)
    ensures Last(list + [s], pick) == if pick(s).Some? then pick(s) else Last(list, pick)
  {
    assert (list + [s])[..|list|] == list;
  }

  lemma GatherNext<S, T>(list: seq<S>, s: S, pick: S -> seq<T>)
    ensures Gather(list + [s], pick) == Gather(list, pick) + pick(s)
  {
    assert (list + [s])[..|list|] == list;
  }

  // ----- options inside an IA_NA -----

  datatype Status = Status(code: nat, message: Bytes) {
    predicate Packable() {
      code < 0x1_0000 && |message| + 2 < 0x1_0000
    }

    function Value(): Bytes
      requires Packable()
    {
      Put16(code) + message
    }
  }

  /** An IA Address with its own options, a status, or another option that `parse_dhcp6` only passes over */
  datatype Sub = Address(lease: Leased, more: Bytes) | SubStatus(status: Status) | OtherSub(option: Tlv) {
    predicate Packable() {
      match this
      case Address(l, more) =>
        |l.address| == 16 && l.preferred < 0x1_0000_0000 && l.valid < 0x1_0000_0000 && 24 + |more| < 0x1_0000
      case SubStatus(s) => s.Packable()
      case OtherSub(t) =>
        && t.code < 0x1_0000 && |t.value| < 0x1_0000
        && (t.code == 5 ==> |t.value| < 24) && (t.code == 13 ==> |t.value| < 2)
    }

    function Option(): Option6
      requires Packable()
    {
      match this
      case Address(l, more) => Tlv(5, l.address + Put32(l.preferred) + Put32(l.valid) + more)
      case SubStatus(s) => Tlv(13, s.Value())
      case OtherSub(t) => t
    }

    function Leases(): seq<Leased> {
      if Address? then [lease] else []
    }

    function TheStatus(): Option<Status> {
      if SubStatus? then Some(status) else None
    }
  }

  predicate AllPackable(subs: seq<Sub>) {
    forall s :: s in subs ==> s.Packable()
  }

  function SubOptions(subs: seq<Sub>): seq<Option6>
    requires AllPackable(subs)
  {
    seq(|subs|, i requires 0 <= i < |subs| => subs[i].Option())
  }

  function Code(s: Option<Status>): Option<nat> {
    if s.Some? then Some(s.value.code) else None
  }

  function Message(s: Option<Status>): Option<Bytes> {
    if s.Some? then Some(s.value.message) else None
  }

  function TimersValue(iaid: nat, t1: nat, t2: nat): (r: Bytes)
    requires iaid < 0x1_0000_0000 && t1 < 0x1_0000_0000 && t2 < 0x1_0000_0000
    ensures |r| == 12
  {
    Put32(iaid) + Put32(t1) + Put32(t2)
  }

  /** An IA_NA with a list of options, and bytes after them that hold no whole one */
  datatype IaNa = IaNa(iaid: nat, t1: nat, t2: nat, subs: seq<Sub>, rest: Bytes) {
    predicate Packable() {
      && iaid < 0x1_0000_0000 && t1 < 0x1_0000_0000 && t2 < 0x1_0000_0000
      && AllPackable(subs) && !Whole(rest) && |Value()| < 0x1_0000
    }

    function Value(): (r: Bytes)
      requires iaid < 0x1_0000_0000 && t1 < 0x1_0000_0000 && t2 < 0x1_0000_0000 && AllPackable(subs)
      ensures |r| >= 12
    {
      TimersValue(iaid, t1, t2) + (Encoded(SubOptions(subs)) + rest)
    }

    /** All addresses in order, and the last status */
    function Told(): Ia {
      var status := Last(subs, (s: Sub) => s.TheStatus());
      Ia(iaid, t1, t2, Gather(subs, (s: Sub) => s.Leases()), Code(status), Message(status))
    }
  }

  lemma ReadPut(a: Bytes, x: nat, b: Bytes)
    requires x < 0x1_0000_0000
    ensures Read32(a + Put32(x) + b, |a|) == x
  {
    var p := Put32(x);
    hide Put32, Word32;
    var all := a + p + b;
    assert all[|a|] == p[0] && all[|a| + 1] == p[1] && all[|a| + 2] == p[2] && all[|a| + 3] == p[3];
  }

  lemma StatusIsRead(s: Status)
    requires s.Packable()
    ensures |s.Value()| >= 2 && Word16(s.Value()[0], s.Value()[1]) == s.code && s.Value()[2..] == s.message
  {
    hide Word16, Put16;
  }

  lemma TimersAreRead(iaid: nat, t1: nat, t2: nat, rest: Bytes)
    requires iaid < 0x1_0000_0000 && t1 < 0x1_0000_0000 && t2 < 0x1_0000_0000
    ensures var value := TimersValue(iaid, t1, t2) + rest;
      Read32(value, 0) == iaid && Read32(value, 4) == t1 && Read32(value, 8) == t2 && value[12..] == rest
  {
    var a, b, c := Put32(iaid), Put32(t1), Put32(t2);
    ReadPut([], iaid, b + c + rest);
    ReadPut(a, t1, c + rest);
    ReadPut(a + b, t2, rest);
    hide Put32, Read32;
    var value := TimersValue(iaid, t1, t2) + rest;
    assert value == [] + a + (b + c + rest) && value == a + b + (c + rest) && value == (a + b) + c + rest;
  }

  lemma LeaseIsRead(l: Leased, more: Bytes)
    requires Address(l, more).Packable()
    ensures var v := Address(l, more).Option().value;
      |v| >= 24 && v[..16] == l.address && Read32(v, 16) == l.preferred && Read32(v, 20) == l.valid
  {
    var p, q := Put32(l.preferred), Put32(l.valid);
    ReadPut(l.address, l.preferred, q + more);
    ReadPut(l.address + p, l.valid, more);
    hide Put32, Read32;
    var v := Address(l, more).Option().value;
    assert v == l.address + p + (q + more) && v == (l.address + p) + q + more;
  }

  /** What one option adds */
  lemma SubIsRead(ia: Ia, s: Sub)
    requires s.Packable()
    ensures WithSub(ia, s.Option()) ==
            ia.(addresses := ia.addresses + s.Leases(),
                statusCode := if s.SubStatus? then Some(s.status.code) else ia.statusCode,
                statusMessage := if s.SubStatus? then Some(s.status.message) else ia.statusMessage)
  {
    hide Put32, Read32, Word16, Put16;
    match s {
      case Address(l, more) => LeaseIsRead(l, more);
      case SubStatus(status) => StatusIsRead(status); assert ia.addresses + [] == ia.addresses;
      case OtherSub(t) => assert ia.addresses + [] == ia.addresses;
    }
  }

  lemma {:induction false} SubsAreRead(iaid: nat, t1: nat, t2: nat, subs: seq<Sub>)
    requires AllPackable(subs)
    ensures WithSubs(Ia(iaid, t1, t2, [], None, None), SubOptions(subs)) == IaNa(iaid, t1, t2, subs, []).Told()
  {
    if subs == [] {
      return;
    }
    var front, s := subs[..|subs| - 1], subs[|subs| - 1];
    assert subs == front + [s] && SubOptions(subs)[..|front|] == SubOptions(front);
    SubsAreRead(iaid, t1, t2, front);
    hide WithSub, Sub.Option, Sub.Leases;
    SubIsRead(IaNa(iaid, t1, t2, front, []).Told(), s);
    LastNext(front, s, (s: Sub) => s.TheStatus());
    GatherNext(front, s, (s: Sub) => s.Leases());
  }

  /** An IA_NA is read with its timers, the addresses of its options in order, and its last status,
      whatever other options are between them and whatever bytes follow. */
  lemma NestedOptions(ia: IaNa)
    requires ia.Packable()
    ensures IaOf(ia.Value()) == ia.Told()
  {
    hide TimersValue, Read32, Encoded, SubOptions, OptionsOf, WithSubs, IaNa.Told;
    TimersAreRead(ia.iaid, ia.t1, ia.t2, Encoded(SubOptions(ia.subs)) + ia.rest);
    IterEncoded(SubOptions(ia.subs), ia.rest);
    NothingWhole(ia.rest);
    assert SubOptions(ia.subs) + [] == SubOptions(ia.subs);
    SubsAreRead(ia.iaid, ia.t1, ia.t2, ia.subs);
    RestIsNotTold(ia);
  }

  lemma RestIsNotTold(ia: IaNa)
    ensures IaNa(ia.iaid, ia.t1, ia.t2, ia.subs, []).Told() == ia.Told()
  {
  }

  lemma NothingWhole(raw: Bytes)
    requires !Whole(raw)
    ensures OptionsOf(raw) == []
  {
  }

  // ----- options of a message -----

  datatype Field =
    | ClientDuid(duid: Bytes) | ServerDuid(duid: Bytes) | Identity(ia: IaNa)
    | Preference(value: Byte, more: Bytes) | MessageStatus(status: Status) | RapidCommit(more: Bytes)
    | DnsServers(servers: seq<Bytes>, more: Bytes) | DomainList(names: seq<Bytes>) | Other(option: Tlv)
  {
    predicate Packable() {
      match this
      case ClientDuid(duid) => |duid| < 0x1_0000
      case ServerDuid(duid) => |duid| < 0x1_0000
      case Identity(ia) => ia.Packable()
      case Preference(value, more) => 1 + |more| < 0x1_0000
      case MessageStatus(s) => s.Packable()
      case RapidCommit(more) => |more| < 0x1_0000
      case DnsServers(servers, more) =>
        (forall s :: s in servers ==> |s| == 16) && |more| < 16 && 16 * |servers| + |more| < 0x1_0000
      case DomainList(names) => (forall n :: n in names ==> Encodable(n)) && |Wires(names)| < 0x1_0000
      case Other(t) =>
        && t.code < 0x1_0000 && |t.value| < 0x1_0000 && t.code !in {1, 2, 14, 23, 24}
        && (t.code == 3 ==> |t.value| < 12) && (t.code == 7 ==> t.value == []) && (t.code == 13 ==> |t.value| < 2)
    }

    function Option(): Option6
      requires Packable()
    {
      match this
      case ClientDuid(duid) => Tlv(1, duid)
      case ServerDuid(duid) => Tlv(2, duid)
      case Identity(ia) => Tlv(3, ia.Value())
      case Preference(value, more) => Tlv(7, [value] + more)
      case MessageStatus(s) => Tlv(13, s.Value())
      case RapidCommit(more) => Tlv(14, more)
      case DnsServers(servers, more) =>
        ListLength(servers);
        Tlv(23, Concat(servers) + more)
      case DomainList(names) => Tlv(24, Wires(names))
      case Other(t) => t
    }
  }

  function Concat(parts: seq<Bytes>): Bytes {
    if parts == [] then [] else parts[0] + Concat(parts[1..])
  }

  lemma {:induction false} ListLength(servers: seq<Bytes>)
    requires forall s :: s in servers ==> |s| == 16
    ensures |Concat(servers)| == 16 * |servers|
  {
    if servers != [] {
      ListLength(servers[1..]);
    }
  }

  lemma {:induction false} ListIsRead(servers: seq<Bytes>, more: Bytes)
    requires (forall s :: s in servers ==> |s| == 16) && |more| < 16
    ensures Ip6List(Concat(servers) + more) == servers
  {
    if servers == [] {
      assert [] + more == more;
    } else {
      var rest := Concat(servers[1..]) + more;
      assert Concat(servers) + more == servers[0] + rest;
      assert (servers[0] + rest)[..16] == servers[0] && (servers[0] + rest)[16..] == rest;
      ListIsRead(servers[1..], more);
    }
  }

  predicate Sendable(fields: seq<Field>) {
    forall f :: f in fields ==> f.Packable()
  }

  function FieldOptions(fields: seq<Field>): seq<Option6>
    requires Sendable(fields)
  {
    seq(|fields|, i requires 0 <= i < |fields| => fields[i].Option())
  }

  /** The message with these options, and bytes after them that hold no whole one */
  function MessageBytes(msgType: Byte, xid: nat, fields: seq<Field>, rest: Bytes): Bytes
    requires xid < 0x100_0000 && Sendable(fields)
  {
    Header(msgType, xid) + (Encoded(FieldOptions(fields)) + rest)
  }

  function StatusOf(fields: seq<Field>): Option<Status> {
    Last(fields, (f: Field) => if f.MessageStatus? then Some(f.status) else None)
  }

  function ServerOf(fields: seq<Field>): Option<Bytes> {
    Last(fields, (f: Field) => if f.ServerDuid? then Some(f.duid) else None)
  }

  function ClientOf(fields: seq<Field>): Option<Bytes> {
    Last(fields, (f: Field) => if f.ClientDuid? then Some(f.duid) else None)
  }

  function PreferenceOf(fields: seq<Field>): Option<Byte> {
    Last(fields, (f: Field) => if f.Preference? then Some(f.value) else None)
  }

  function RapidCommitOf(fields: seq<Field>): Option<Bytes> {
    Last(fields, (f: Field) => if f.RapidCommit? then Some(f.more) else None)
  }

  function Servers(fields: seq<Field>): seq<Bytes> {
    Gather(fields, (f: Field) => if f.DnsServers? then f.servers else [])
  }

  function Names(fields: seq<Field>): seq<Bytes> {
    Gather(fields, (f: Field) => if f.DomainList? then Keys(f.names) else [])
  }

  function Codes(fields: seq<Field>): seq<nat> {
    Gather(fields, (f: Field) => [CodeOf(f)])
  }

  function Identities(fields: seq<Field>): seq<Ia> {
    Gather(fields, (f: Field) => if f.Identity? then [f.ia.Told()] else [])
  }

  function CodeOf(f: Field): nat {
    match f
    case ClientDuid(_) => 1
    case ServerDuid(_) => 2
    case Identity(_) => 3
    case Preference(_, _) => 7
    case MessageStatus(_) => 13
    case RapidCommit(_) => 14
    case DnsServers(_, _) => 23
    case DomainList(_) => 24
    case Other(t) => t.code
  }

  /** What a message says: the last identifiers, status and preference, and all identities, addresses,
      servers, names and codes in order */
  function Told(msgType: Byte, xid: nat, fields: seq<Field>): Reply {
    Reply(msgType, xid, ServerOf(fields), ClientOf(fields), Identities(fields), AllAddresses(Identities(fields)),
          Code(StatusOf(fields)), Message(StatusOf(fields)), Servers(fields), Names(fields),
          PreferenceOf(fields), RapidCommitOf(fields).Some?, Codes(fields))
  }

  /** What one option adds to the reply */
  function Adds(r: Reply, f: Field): Reply {
    var r := r.(options := r.options + [CodeOf(f)]);
    match f
    case ClientDuid(duid) => r.(clientDuid := Some(duid))
    case ServerDuid(duid) => r.(serverDuid := Some(duid))
    case Identity(ia) => r.(iaNa := r.iaNa + [ia.Told()], addresses := r.addresses + ia.Told().addresses)
    case Preference(value, _) => r.(preference := Some(value))
    case MessageStatus(s) => r.(statusCode := Some(s.code), statusMessage := Some(s.message))
    case RapidCommit(_) => r.(rapidCommit := true)
    case DnsServers(servers, _) => r.(dnsServers := r.dnsServers + servers)
    case DomainList(names) => r.(domainSearch := r.domainSearch + Keys(names))
    case Other(_) => r
  }

  lemma FieldIsRead(r: Reply, f: Field)
    requires f.Packable()
    ensures WithOption(r, f.Option()) == Adds(r, f)
  {
    hide Put16, Word16, IaNa.Told, IaNa.Value, IaOf, Wires, Decode, Keys, Concat, Ip6List, Encodable;
    match f {
      case Identity(ia) => NestedOptions(ia);
      case MessageStatus(s) => StatusIsRead(s);
      case DnsServers(servers, more) => ListIsRead(servers, more);
      case DomainList(names) => DecodeWires(names);
      case _ =>
    }
  }

  lemma LastsNext(fields: seq<Field>, f: Field)
    ensures ServerOf(fields + [f]) == if f.ServerDuid? then Some(f.duid) else ServerOf(fields)
    ensures ClientOf(fields + [f]) == if f.ClientDuid? then Some(f.duid) else ClientOf(fields)
    ensures StatusOf(fields + [f]) == if f.MessageStatus? then Some(f.status) else StatusOf(fields)
    ensures PreferenceOf(fields + [f]) == if f.Preference? then Some(f.value) else PreferenceOf(fields)
    ensures RapidCommitOf(fields + [f]) == if f.RapidCommit? then Some(f.more) else RapidCommitOf(fields)
  {
    hide Last;
    LastNext(fields, f, (f: Field) => if f.ServerDuid? then Some(f.duid) else None);
    LastNext(fields, f, (f: Field) => if f.ClientDuid? then Some(f.duid) else None);
    LastNext(fields, f, (f: Field) => if f.MessageStatus? then Some(f.status) else None);
    LastNext(fields, f, (f: Field) => if f.Preference? then Some(f.value) else None);
    LastNext(fields, f, (f: Field) => if f.RapidCommit? then Some(f.more) else None);
  }

  lemma ListsNext(fields: seq<Field>, f: Field)
    ensures Identities(fields + [f]) == Identities(fields) + (if f.Identity? then [f.ia.Told()] else [])
    ensures Servers(fields + [f]) == Servers(fields) + (if f.DnsServers? then f.servers else [])
    ensures Names(fields + [f]) == Names(fields) + (if f.DomainList? then Keys(f.names) else [])
    ensures Codes(fields + [f]) == Codes(fields) + [CodeOf(f)]
  {
    hide Gather, IaNa.Told, Keys, CodeOf;
    GatherNext(fields, f, (f: Field) => if f.Identity? then [f.ia.Told()] else []);
    GatherNext(fields, f, (f: Field) => if f.DnsServers? then f.servers else []);
    GatherNext(fields, f, (f: Field) => if f.DomainList? then Keys(f.names) else []);
    GatherNext(fields, f, (f: Field) => [CodeOf(f)]);
  }

  lemma ToldNext(msgType: Byte, xid: nat, fields: seq<Field>, f: Field)
    ensures Told(msgType, xid, fields + [f]) == Adds(Told(msgType, xid, fields), f)
  {
    hide IaNa.Told, Keys, CodeOf, AllAddresses, ServerOf, ClientOf, StatusOf, PreferenceOf, RapidCommitOf,
      Identities, Servers, Names, Codes;
    LastsNext(fields, f);
    ListsNext(fields, f);
    AddressesNext(Identities(fields), if f.Identity? then [f.ia.Told()] else []);
    NothingAdded(Told(msgType, xid, fields));
  }

  lemma NothingAdded(r: Reply)
    ensures r.iaNa + [] == r.iaNa && r.dnsServers + [] == r.dnsServers && r.domainSearch + [] == r.domainSearch
  {
  }

  lemma AddressesNext(ias: seq<Ia>, more: seq<Ia>)
    requires |more| <= 1
    ensures AllAddresses(ias + more) == AllAddresses(ias) + (if more == [] then [] else more[0].addresses)
  {
    if more == [] {
      assert ias + more == ias;
    } else {
      assert (ias + more)[..|ias|] == ias;
    }
  }

  lemma {:induction false} FieldsAreRead(msgType: Byte, xid: nat, fields: seq<Field>)
    requires Sendable(fields)
    ensures WithOptions(EmptyReply(msgType, xid), FieldOptions(fields)) == Told(msgType, xid, fields)
  {
    hide WithOptions, WithOption, FieldOptions, Field.Option, Told, Adds, Field.Packable;
    if fields == [] {
      NothingTold(msgType, xid);
    } else {
      var front, f := fields[..|fields| - 1], fields[|fields| - 1];
      assert fields == front + [f];
      FieldsAreRead(msgType, xid, front);
      OptionsNext(EmptyReply(msgType, xid), front, f);
      FieldIsRead(Told(msgType, xid, front), f);
      ToldNext(msgType, xid, front, f);
    }
  }

  lemma NothingTold(msgType: Byte, xid: nat)
    ensures WithOptions(EmptyReply(msgType, xid), FieldOptions([])) == Told(msgType, xid, [])
  {
  }

  lemma OptionsNext(r: Reply, fields: seq<Field>, f: Field)
    requires Sendable(fields + [f]) && Sendable(fields) && f.Packable()
    ensures WithOptions(r, FieldOptions(fields + [f])) == WithOption(WithOptions(r, FieldOptions(fields)), f.Option())
  {
    hide WithOption, Field.Option, Field.Packable;
    assert FieldOptions(fields + [f])[..|fields|] == FieldOptions(fields);
  }

  /** The transaction is in network order after the type. */
  lemma HeaderIs(msgType: Byte, xid: nat)
    requires xid < 0x100_0000
    ensures var b := Header(msgType, xid); var x: int, y: int, z: int := b[1], b[2], b[3];
            |b| == 4 && b[0] == msgType && 0x1_0000 * x + 0x100 * y + z == xid
  {
  }

  lemma HeaderIsRead(msgType: Byte, xid: nat, rest: Bytes)
    requires xid < 0x100_0000
    ensures var data := Header(msgType, xid) + rest;
      && data[0] == msgType && Word16(data[1], data[2]) * 256 + data[3] == xid
      && data[4..] == rest
  {
  }

  /** A message is read as what its options say, whatever they are and whatever bytes follow. */
  lemma MessageIsParsed(msgType: Byte, xid: nat, fields: seq<Field>, rest: Bytes)
    requires xid < 0x100_0000 && Sendable(fields) && !Whole(rest)
    ensures ReplyOf(MessageBytes(msgType, xid, fields, rest)) == Some(Told(msgType, xid, fields))
  {
    hide Encoded, OptionsOf, WithOptions, FieldOptions, Told, Header, Word16;
    HeaderIsRead(msgType, xid, Encoded(FieldOptions(fields)) + rest);
    IterEncoded(FieldOptions(fields), rest);
    NothingWhole(rest);
    assert FieldOptions(fields) + [] == FieldOptions(fields);
    FieldsAreRead(msgType, xid, fields);
  }

  // ----- the message of a client -----

  /** What a built message tells */
  function Expected(q: Solicit): Reply {
    EmptyReply(q.msgType, q.xid).(
      clientDuid := Some(q.duid),
      iaNa := if q.iaNa then [Ia(q.iaid, 0, 0, [], None, None)] else [],
      options := if q.iaNa then [1, 8, 6, 3] else [1, 8, 6])
  }

  function RequestFields(q: Solicit): seq<Field> {
    [ClientDuid(q.duid), Other(ElapsedTime), Other(OptionRequest)] + (if q.iaNa then [Identity(IaNa(q.iaid, 0, 0, [], []))] else [])
  }

  lemma RequestIsMessage(q: Solicit)
    requires q.Packable()
    ensures Sendable(RequestFields(q)) && RequestBytes(q) == MessageBytes(q.msgType, q.xid, RequestFields(q), [])
  {
    hide Put16, Put32, Header;
    assert SubOptions([]) == [] && Encoded([]) == [];
    assert TimersValue(q.iaid, 0, 0) + ([] + []) == IaValue(q.iaid);
    assert FieldOptions(RequestFields(q)) == RequestOptions(q);
    hide Encoded;
    assert Encoded(RequestOptions(q)) + [] == Encoded(RequestOptions(q));
  }

  lemma ThreeTold(msgType: Byte, xid: nat, a: Field, b: Field, c: Field)
    ensures Told(msgType, xid, [a, b, c]) == Adds(Adds(Adds(Told(msgType, xid, []), a), b), c)
  {
    hide Told, Adds;
    ToldNext(msgType, xid, [], a);
    ToldNext(msgType, xid, [a], b);
    ToldNext(msgType, xid, [a, b], c);
    assert [] + [a] == [a] && [a] + [b] == [a, b] && [a, b] + [c] == [a, b, c];
  }

  lemma RequestTells(q: Solicit)
    ensures Told(q.msgType, q.xid, RequestFields(q)) == Expected(q)
  {
    var a, b, c := ClientDuid(q.duid), Other(ElapsedTime), Other(OptionRequest);
    var d := Identity(IaNa(q.iaid, 0, 0, [], []));
    assert Told(q.msgType, q.xid, []) == EmptyReply(q.msgType, q.xid);
    assert d.ia.Told() == Ia(q.iaid, 0, 0, [], None, None);
    hide Told, IaNa.Told, Put16;
    ThreeTold(q.msgType, q.xid, a, b, c);
    ToldNext(q.msgType, q.xid, [a, b, c], d);
    assert RequestFields(q) == if q.iaNa then [a, b, c] + [d] else [a, b, c];
  }

  /** The bytes of a built message: its header, the client identifier, an elapsed time of zero, the request for
      DNS servers and domain lists, and an IA_NA without timers if there is to be one (RFC 8415). */
  lemma BuiltIs(q: Solicit)
    requires q.Packable()
    ensures RequestBytes(q) ==
            Header(q.msgType, q.xid) + ([0, 1] + Put16(|q.duid|) + q.duid + [0, 8, 0, 2, 0, 0] + [0, 6, 0, 4, 0, 23, 0, 24]
            + (if q.iaNa then [0, 3, 0, 12] + Put32(q.iaid) + [0, 0, 0, 0, 0, 0, 0, 0] else []))
  {
    OptionsAre(q);
    hide Header, Put16, Put32, Encoded, OptionBytes, ElapsedTime, OptionRequest, ClientId, IaValue;
    EncodedThree(ClientId(q), ElapsedTime, OptionRequest);
    var three := [ClientId(q), ElapsedTime, OptionRequest];
    if q.iaNa {
      EncodedAppend(three, Tlv(3, IaValue(q.iaid)));
    } else {
      assert three + [] == three;
    }
  }

  lemma OptionsAre(q: Solicit)
    requires q.Packable()
    ensures OptionBytes(ClientId(q)) == [0, 1] + Put16(|q.duid|) + q.duid
    ensures OptionBytes(ElapsedTime) == [0, 8, 0, 2, 0, 0]
    ensures OptionBytes(OptionRequest) == [0, 6, 0, 4, 0, 23, 0, 24]
    ensures OptionBytes(Tlv(3, IaValue(q.iaid))) == [0, 3, 0, 12] + Put32(q.iaid) + [0, 0, 0, 0, 0, 0, 0, 0]
  {
    hide Put16, Put32, OptionBytes, ClientId, ElapsedTime, OptionRequest, IaValue;
    ClientIdIs(q);
    ElapsedTimeIs();
    OptionRequestIs();
    IaIs(q);
  }

  lemma OptionText(t: Option6, c: Byte, d: Byte, m: Byte, n: Byte)
    requires Put16(t.code) == [c, d] && Put16(|t.value|) == [m, n]
    ensures OptionBytes(t) == [c, d, m, n] + t.value
  {
    hide Put16;
    assert [c, d] + [m, n] == [c, d, m, n];
  }

  lemma ClientIdIs(q: Solicit)
    requires q.Packable()
    ensures OptionBytes(ClientId(q)) == [0, 1] + Put16(|q.duid|) + q.duid
  {
    assert Put16(1) == [0, 1];
    hide Put16, Put32;
  }

  lemma ElapsedTimeIs()
    ensures OptionBytes(ElapsedTime) == [0, 8, 0, 2, 0, 0]
  {
    assert Put16(8) == [0, 8] && Put16(2) == [0, 2];
    hide Put16;
    var t: Option6 := Tlv(8, [0, 0]);
    OptionText(t, 0, 8, 0, 2);
  }

  lemma OptionRequestIs()
    ensures OptionBytes(OptionRequest) == [0, 6, 0, 4, 0, 23, 0, 24]
  {
    assert Put16(6) == [0, 6] && Put16(4) == [0, 4] && Put16(23) == [0, 23] && Put16(24) == [0, 24];
    hide Put16;
    var value: Bytes := [0, 23, 0, 24];
    assert [0, 23] + [0, 24] == value;
    OptionText(Tlv(6, value), 0, 6, 0, 4);
  }

  lemma IaIs(q: Solicit)
    requires q.Packable()
    ensures OptionBytes(Tlv(3, IaValue(q.iaid))) == [0, 3, 0, 12] + Put32(q.iaid) + [0, 0, 0, 0, 0, 0, 0, 0]
  {
    assert Put16(3) == [0, 3] && Put16(12) == [0, 12];
    Word32Bytes(0, 0, 0, 0);
    hide Put16, Put32;
    OptionText(Tlv(3, IaValue(q.iaid)), 0, 3, 0, 12);
    ZeroTimers([0, 3, 0, 12], Put32(q.iaid));
  }

  lemma ZeroTimers(a: Bytes, b: Bytes)
    ensures a + (b + [0, 0, 0, 0] + [0, 0, 0, 0]) == a + b + [0, 0, 0, 0, 0, 0, 0, 0]
  {
    assert [0, 0, 0, 0] + [0, 0, 0, 0] == [0, 0, 0, 0, 0, 0, 0, 0];
  }

  /** A message that was built is parsed into its fields. */
  lemma BuiltIsParsed(q: Solicit)
    requires q.Packable()
    ensures ReplyOf(RequestBytes(q)) == Some(Expected(q))
  {
    hide RequestFields, Expected, Told, MessageBytes, RequestBytes, ReplyOf;
    RequestIsMessage(q);
    MessageIsParsed(q.msgType, q.xid, RequestFields(q), []);
    RequestTells(q);
  }
}
