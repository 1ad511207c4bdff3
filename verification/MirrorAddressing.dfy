/**
 The addressing side of the hidden mirror: the entries of the lab are copied under the names of
 the clones.
 */
module MirrorAddressing {
  import opened Wrappers
  import opened Dicts
  import opened Topologies
  import opened IpAddresses
  import opened TopologyConfig

  // ----- machines_by_net -----

  /** `result.setdefault(m, []).append(net)` for the members of one network. */
  function AddNet(d: Dict<Name, seq<Name>>, net: Name, members: seq<Attachment>): Dict<Name, seq<Name>> {
    if members == [] then d
    else
      var before := AddNet(d, net, members[..|members| - 1]);
      var m := members[|members| - 1].machine;
      before.Put(m, before.GetOr(m, []) + [net])
  }

  function MachinesByNet(t: Topology): Dict<Name, seq<Name>> {
    if t == [] then EmptyDict()
    else AddNet(MachinesByNet(t[..|t| - 1]), t[|t| - 1].name, t[|t| - 1].members)
  }

  method ListMachines(t: Topology) returns (d: Dict<Name, seq<Name>>)
    ensures d == MachinesByNet(t)
  {
    d := EmptyDict();
    for k := 0 to |t|
      invariant d == MachinesByNet(t[..k])
    {
      ghost var before := d;
      for i := 0 to |t[k].members|
        invariant d == AddNet(before, t[k].name, t[k].members[..i])
      {
        var m := t[k].members[i].machine;
        assert t[k].members[..i + 1][..i] == t[k].members[..i];
        d := d.Put(m, d.GetOr(m, []) + [t[k].name]);
      }
      assert t[k].members[..|t[k].members|] == t[k].members;
      assert t[..k + 1][..k] == t[..k];
    }
    assert t[..|t|] == t;
  }

  lemma {:induction false} AddNetKeys(d: Dict<Name, seq<Name>>, net: Name, members: seq<Attachment>)
    requires d.Valid()
    ensures AddNet(d, net, members).Valid()
    ensures AddNet(d, net, members).keys == AddMembers(d.keys, members)
  {
    if members != [] {
      var front := members[..|members| - 1];
      AddNetKeys(d, net, front);
      var before := AddNet(d, net, front);
      var m := members[|members| - 1].machine;
      PutKeepsValid(before, m, before.GetOr(m, []) + [net]);
    }
  }

  /** How often `members` lists machine `m` */
  function Times(members: seq<Attachment>, m: Name): nat {
    if members == [] then 0
    else Times(members[..|members| - 1], m) + (if members[|members| - 1].machine == m then 1 else 0)
  }

  function Repeat(net: Name, n: nat): (r: seq<Name>)
    ensures |r| == n && forall i :: 0 <= i < n ==> r[i] == net
  {
    seq(n, _ => net)
  }

  /** A network is appended to a machine's list once for each time that it lists the machine. */
  lemma {:induction false} AddNetRow(d: Dict<Name, seq<Name>>, net: Name, members: seq<Attachment>, m: Name)
    ensures AddNet(d, net, members).GetOr(m, []) == d.GetOr(m, []) + Repeat(net, Times(members, m))
  {
    if members != [] {
      var front := members[..|members| - 1];
      AddNetRow(d, net, front, m);
      if members[|members| - 1].machine == m {
        assert Repeat(net, Times(members, m)) == Repeat(net, Times(front, m)) + [net];
      }
    } else {
      assert Repeat(net, 0) == [];
    }
  }

  lemma {:induction false} TimesMember(members: seq<Attachment>, m: Name)
    ensures Times(members, m) > 0 <==> exists i :: 0 <= i < |members| && members[i].machine == m
  {
    if members != [] {
      var front := members[..|members| - 1];
      TimesMember(front, m);
      if i :| 0 <= i < |front| && front[i].machine == m {
        assert members[i].machine == m;
      }
      if i :| 0 <= i < |members| && members[i].machine == m {
        assert i < |front| ==> front[i].machine == m;
      }
    }
  }

  lemma {:induction false} ListedOnce(members: seq<Attachment>, m: Name)
    requires DistinctMembers(members)
    ensures Times(members, m) <= 1
  {
    if members != [] {
      var front := members[..|members| - 1];
      ListedOnce(front, m);
      TimesMember(front, m);
      assert forall i :: 0 <= i < |front| ==> front[i] == members[i];
    }
  }

  lemma {:induction false} ListedTwice(members: seq<Attachment>) returns (m: Name)
    requires !DistinctMembers(members)
    ensures Times(members, m) > 1
  {
    var i, j :| 0 <= i < j < |members| && members[i].machine == members[j].machine;
    var front := members[..|members| - 1];
    assert forall x :: 0 <= x < |front| ==> front[x] == members[x];
    if DistinctMembers(front) {
      m := members[j].machine;
      assert front[i].machine == m;
      TimesMember(front, m);
    } else {
      m := ListedTwice(front);
    }
  }

  function ListOf(t: Topology, m: Name): seq<Name> {
    MachinesByNet(t).GetOr(m, [])
  }

  /** The list of a machine grows with the last network by its memberships there, the numbering by one
      if there is any. */
  lemma LastNetwork(t: Topology, m: Name)
    requires t != []
    ensures var front, net := t[..|t| - 1], t[|t| - 1];
            && ListOf(t, m) == ListOf(front, m) + Repeat(net.name, Times(net.members, m))
            && NetsOf(t, m) == NetsOf(front, m) + (if Times(net.members, m) > 0 then [net.name] else [])
  {
    var front, net := t[..|t| - 1], t[|t| - 1];
    AddNetRow(MachinesByNet(front), net.name, net.members, m);
    TimesMember(net.members, m);
  }

  /** The list is never shorter than the networks numbered, and empty only with them. */
  lemma {:induction false} ListLength(t: Topology, m: Name)
    ensures |NetsOf(t, m)| <= |ListOf(t, m)|
    ensures NetsOf(t, m) == [] <==> ListOf(t, m) == []
  {
    if t != [] {
      ListLength(t[..|t| - 1], m);
      LastNetwork(t, m);
      hide ListOf, NetsOf, Times;
    }
  }

  /** Without duplicate members, the dictionary lists the machines in order of appearance with their
      networks in topology order, as the interface numbering does. */
  lemma MachinesByNetIs(t: Topology, m: Name)
    requires SingleMembership(t)
    ensures MachinesByNet(t).Valid() && MachinesByNet(t).keys == Machines(t)
    ensures MachinesByNet(t).GetOr(m, []) == NetsOf(t, m)
  {
    MachinesByNetKeys(t);
    ListsAreNumbered(t, m);
  }

  lemma {:induction false} MachinesByNetKeys(t: Topology)
    ensures MachinesByNet(t).Valid() && MachinesByNet(t).keys == Machines(t)
  {
    if t != [] {
      MachinesByNetKeys(t[..|t| - 1]);
      AddNetKeys(MachinesByNet(t[..|t| - 1]), t[|t| - 1].name, t[|t| - 1].members);
    }
  }

  lemma {:induction false} ListsAreNumbered(t: Topology, m: Name)
    requires SingleMembership(t)
    ensures ListOf(t, m) == NetsOf(t, m)
  {
    if t != [] {
      var net := t[|t| - 1];
      ListsAreNumbered(t[..|t| - 1], m);
      LastNetwork(t, m);
      ListedOnce(net.members, m);
      hide ListOf, NetsOf;
      assert Repeat(net.name, Times(net.members, m)) == if Times(net.members, m) > 0 then [net.name] else [];
    }
  }

  /** The two sides agree on the networks of every machine exactly when no network lists a machine twice. */
  lemma {:induction false} ListsAgree(t: Topology)
    ensures (forall m :: ListOf(t, m) == NetsOf(t, m)) <==> SingleMembership(t)
  {
    if SingleMembership(t) {
      forall m
        ensures ListOf(t, m) == NetsOf(t, m)
      {
        ListsAreNumbered(t, m);
      }
    } else if t != [] {
      var front, net := t[..|t| - 1], t[|t| - 1];
      var m: Name;
      if SingleMembership(front) {
        m := ListedTwice(net.members);
      } else {
        ListsAgree(front);
        m :| ListOf(front, m) != NetsOf(front, m);
        if |ListOf(front, m)| == |NetsOf(front, m)| {
          LengthTells(front, m);
          assert false;
        }
      }
      ListLength(front, m);
      LastNetwork(t, m);
      hide ListOf, NetsOf;
      assert |ListOf(t, m)| > |NetsOf(t, m)|;
    }
  }

  lemma {:induction false} LengthTells(t: Topology, m: Name)
    requires |ListOf(t, m)| == |NetsOf(t, m)|
    ensures ListOf(t, m) == NetsOf(t, m)
  {
    if t != [] {
      var front, net := t[..|t| - 1], t[|t| - 1];
      LastNetwork(t, m);
      ListLength(front, m);
      hide ListOf, NetsOf;
      LengthTells(front, m);
      assert Repeat(net.name, Times(net.members, m)) == if Times(net.members, m) > 0 then [net.name] else [];
    }
  }

  /** The two sides give the addresses of machine `m` the same names, unless the machine has one
      network that lists it more than once. */
  lemma NamesAgree(t: Topology, m: Name)
    ensures (forall n :: n in NetsOf(t, m) ==> AttrName(|ListOf(t, m)|, m, n) == AttrName(|NetsOf(t, m)|, m, n))
       <==> !(|NetsOf(t, m)| == 1 && |ListOf(t, m)| > 1)
  {
    ListLength(t, m);
    if |NetsOf(t, m)| == 1 && |ListOf(t, m)| > 1 {
      var n := NetsOf(t, m)[0];
      assert n in NetsOf(t, m) && |AttrName(|ListOf(t, m)|, m, n)| > |m|;
    }
  }

  /** A machine listed twice by its only network: the names differ. */
  lemma DuplicateMemberDisagrees(net: Name, m: Name)
    ensures var t := [Network(net, [Attachment(m, None), Attachment(m, None)])];
            && NetsOf(t, m) == [net] && ListOf(t, m) == [net, net]
            && AttrName(2, m, net) != AttrName(1, m, net)
  {
    var a := Attachment(m, None);
    var t := [Network(net, [a, a])];
    assert t[..0] == [] && [a, a][..1] == [a] && [a][..0] == [];
    assert Times([a], m) == 1;
    assert Times([a, a], m) == 2;
    LastNetwork(t, m);
    assert |AttrName(2, m, net)| > |m|;
  }

  /** A machine listed twice by one of two networks: the lists differ, the names do not. */
  lemma DuplicateMemberAgrees(a: Name, b: Name, m: Name)
    ensures var t := [Network(a, [Attachment(m, None), Attachment(m, None)]), Network(b, [Attachment(m, None)])];
            && |NetsOf(t, m)| == 2 && |ListOf(t, m)| == 3
            && forall n :: n in NetsOf(t, m) ==> AttrName(3, m, n) == AttrName(2, m, n)
  {
    var x := Attachment(m, None);
    var t := [Network(a, [x, x]), Network(b, [x])];
    assert t[..1] == [Network(a, [x, x])] && t[..1][..0] == [];
    assert [x, x][..1] == [x] && [x][..0] == [];
    assert Times([x], m) == 1;
    assert Times([x, x], m) == 2;
    LastNetwork(t[..1], m);
    LastNetwork(t, m);
  }

  // ----- copying entries -----

  /** Entries copied one after the other, each read from the container as it then is. */
  function CopyEntries<V>(c: map<Name, V>, pairs: seq<(Name, Name)>): Result<map<Name, V>, Name> {
    if pairs == [] then Success(c)
    else
      var before :- CopyEntries(c, pairs[..|pairs| - 1]);
      var p := pairs[|pairs| - 1];
      if p.0 in before then Success(before[p.1 := before[p.0]]) else Failure(p.0)
  }

  /** What the container holds afterwards, also when an entry is missing: the ones before it are copied. */
  function CopiedSoFar<V>(c: map<Name, V>, pairs: seq<(Name, Name)>): map<Name, V> {
    if pairs == [] then c
    else
      var before, p := CopiedSoFar(c, pairs[..|pairs| - 1]), pairs[|pairs| - 1];
      if CopyEntries(c, pairs[..|pairs| - 1]).Success? && p.0 in before then before[p.1 := before[p.0]] else before
  }

  lemma {:induction false} CopiedAll<V>(c: map<Name, V>, pairs: seq<(Name, Name)>)
    ensures var copied := CopyEntries(c, pairs); copied.Success? ==> copied.value == CopiedSoFar(c, pairs)
  {
    if pairs != [] {
      CopiedAll(c, pairs[..|pairs| - 1]);
    }
  }

  function NetPairs(t: Topology, s: string): (r: seq<(Name, Name)>)
    ensures |r| == |t| && forall k :: 0 <= k < |t| ==> r[k] == (t[k].name, t[k].name + s)
  {
    seq(|t|, k requires 0 <= k < |t| => (t[k].name, t[k].name + s))
  }

  /** The attribute of machine `m` on its `i`-th network, and the clone's. */
  function AttrPair(m: Name, nets: seq<Name>, i: nat, s: string): (Name, Name)
    requires i < |nets|
  {
    (AttrName(|nets|, m, nets[i]), AttrName(|nets|, m + s, nets[i] + s))
  }

  function RowPairs(m: Name, nets: seq<Name>, s: string): (r: seq<(Name, Name)>)
    ensures |r| == |nets| && forall i :: 0 <= i < |nets| ==> r[i] == AttrPair(m, nets, i, s)
  {
    seq(|nets|, i requires 0 <= i < |nets| => AttrPair(m, nets, i, s))
  }

  function IpPairs(d: Dict<Name, seq<Name>>, k: nat, s: string): seq<(Name, Name)>
    requires k <= |d.keys|
  {
    if k == 0 then []
    else IpPairs(d, k - 1, s) + RowPairs(d.keys[k - 1], d.GetOr(d.keys[k - 1], []), s)
  }

  /** The containers of a lab, which the lab fills in place. */
  class AddressBook {
    var nets: map<Name, Subnet>
    var ips: map<Name, Interface>

    constructor (nets: map<Name, Subnet>, ips: map<Name, Interface>)
      ensures this.nets == nets && this.ips == ips
    {
      this.nets, this.ips := nets, ips;
    }

    /** `setattr(data.nets, f"{net}{suffix}", getattr(data.nets, net))` for every network */
    method CopyNets(t: Topology, s: string) returns (r: Result<(), Name>)
      modifies this`nets
      ensures nets == CopiedSoFar(old(nets), NetPairs(t, s))
      ensures Reports(r, CopyEntries(old(nets), NetPairs(t, s)))
    {
      var pairs := NetPairs(t, s);
      r := Success(());
      for k := 0 to |pairs|
        invariant nets == CopiedSoFar(old(nets), pairs[..k])
        invariant Reports(r, CopyEntries(old(nets), pairs[..k]))
      {
        CopiedAll(old(nets), pairs[..k]);
        assert pairs[..k + 1][..k] == pairs[..k];
        if r.Success? {
          var p := pairs[k];
          if p.0 in nets {
            nets := nets[p.1 := nets[p.0]];
          } else {
            r := Failure(p.0);
          }
        }
      }
      assert pairs[..|pairs|] == pairs;
    }

    method CopyPairs(pairs: seq<(Name, Name)>) returns (r: Result<(), Name>)
      modifies this`ips
      ensures ips == CopiedSoFar(old(ips), pairs)
      ensures Reports(r, CopyEntries(old(ips), pairs))
    {
      r := Success(());
      for k := 0 to |pairs|
        invariant ips == CopiedSoFar(old(ips), pairs[..k])
        invariant Reports(r, CopyEntries(old(ips), pairs[..k]))
      {
        CopiedAll(old(ips), pairs[..k]);
        assert pairs[..k + 1][..k] == pairs[..k];
        if r.Success? {
          var p := pairs[k];
          if p.0 in ips {
            ips := ips[p.1 := ips[p.0]];
          } else {
            r := Failure(p.0);
          }
        }
      }
      assert pairs[..|pairs|] == pairs;
    }

    /** `copy_addressing`: the networks, then the addresses machine by machine; the first missing entry
        ends it, with what was copied before left in place. */
    method CopyAddressing(t: Topology, s: string) returns (r: Result<(), Name>)
      modifies this
      ensures nets == CopiedSoFar(old(nets), NetPairs(t, s))
      ensures var copied := CopyEntries(old(nets), NetPairs(t, s));
              copied.Failure? ==> r == Failure(copied.error) && ips == old(ips)
      ensures var d := MachinesByNet(t); var pairs := IpPairs(d, |d.keys|, s);
              CopyEntries(old(nets), NetPairs(t, s)).Success? ==>
                ips == CopiedSoFar(old(ips), pairs) && Reports(r, CopyEntries(old(ips), pairs))
      ensures r.Success? ==>
                && CopyEntries(old(nets), NetPairs(t, s)) == Success(nets)
                && var d := MachinesByNet(t);
                   CopyEntries(old(ips), IpPairs(d, |d.keys|, s)) == Success(ips)
    {
      var d := ListMachines(t);
      CopiedAll(nets, NetPairs(t, s));
      CopiedAll(ips, IpPairs(d, |d.keys|, s));
      r := CopyNets(t, s);
      if r.Failure? {
        return;
      }
      r := CopyPairs(IpPairs(d, |d.keys|, s));
    }
  }

  /** The outcome of a copy, without the container */
  predicate Reports<V>(r: Result<(), Name>, copied: Result<map<Name, V>, Name>) {
    if copied.Success? then r.Success? else r == Failure(copied.error)
  }

  /** Clean pairs are copied if and only if all their sources are there. */
  lemma {:induction false} CopySucceeds<V>(c: map<Name, V>, pairs: seq<(Name, Name)>)
    requires CleanPairs(pairs)
    ensures CopyEntries(c, pairs).Success? <==> forall p :: p in pairs ==> p.0 in c
  {
    if pairs != [] {
      var front, last := pairs[..|pairs| - 1], pairs[|pairs| - 1];
      assert pairs == front + [last];
      assert CleanPairs(front);
      CopySucceeds(c, front);
      if CopyEntries(c, front).Success? {
        CopyIs(c, front);
        assert forall p :: p in front ==> p.1 != last.0;
      }
    }
  }

  /** The pairs neither overwrite an entry that is read, nor write two different entries in one. */
  ghost predicate CleanPairs(pairs: seq<(Name, Name)>) {
    && (forall p, q :: p in pairs && q in pairs ==> p.1 != q.0)
    && (forall p, q :: p in pairs && q in pairs && p.1 == q.1 ==> p.0 == q.0)
  }

  /** Clean pairs copy every entry and change no other. */
  lemma {:induction false} CopyIs<V>(c: map<Name, V>, pairs: seq<(Name, Name)>)
    requires CleanPairs(pairs) && CopyEntries(c, pairs).Success?
    ensures var r := CopyEntries(c, pairs).value;
      && (forall p :: p in pairs ==> p.0 in c && p.1 in r && r[p.1] == c[p.0])
      && (forall x :: x in c && (forall p :: p in pairs ==> p.1 != x) ==> x in r && r[x] == c[x])
      && (forall x :: x in r && (forall p :: p in pairs ==> p.1 != x) ==> x in c)
  {
    if pairs != [] {
      var front := pairs[..|pairs| - 1];
      assert forall p :: p in front ==> p in pairs;
      CopyIs(c, front);
      var last := pairs[|pairs| - 1];
      assert last in pairs && pairs == front + [last];
      var before := CopyEntries(c, front).value;
      assert forall p :: p in front ==> p.1 != last.0;
      assert before[last.0] == c[last.0];
    }
  }
}
