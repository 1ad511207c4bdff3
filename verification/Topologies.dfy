/**
 The topology of a lab and the interface numbers derived from it: the counter loop that opens
 `get_net_config_from_topology` and its second copy in `hidden_mirror._normalize_topology`.
 */
module Topologies {
  import opened Wrappers
  import opened Dicts

  type Name = string

  /** A machine listed in a network, with its interface number when the topology gives one. */
  datatype Attachment = Attachment(machine: Name, spec: Option<nat>)

  datatype Network = Network(name: Name, members: seq<Attachment>)

  type Topology = seq<Network>

  /** Interface numbers: machine, then network, then number. */
  type Interfaces = Dict<Name, Dict<Name, nat>>

  predicate HasMember(net: Network, m: Name) {
    exists i :: 0 <= i < |net.members| && net.members[i].machine == m
  }

  ghost predicate DistinctMembers(members: seq<Attachment>) {
    forall i, j :: 0 <= i < j < |members| ==> members[i].machine != members[j].machine
  }

  /** The networks are the keys of a dictionary. */
  ghost predicate UniqueNames(t: Topology) {
    forall i, j :: 0 <= i < j < |t| ==> t[i].name != t[j].name
  }

  /** No network lists a machine twice (the list form of a network allows it). */
  ghost predicate SingleMembership(t: Topology) {
    forall i :: 0 <= i < |t| ==> DistinctMembers(t[i].members)
  }

  function NetNames(t: Topology): (names: seq<Name>)
    ensures |names| == |t|
    ensures forall i :: 0 <= i < |t| ==> names[i] == t[i].name
  {
    seq(|t|, i requires 0 <= i < |t| => t[i].name)
  }

  lemma NetNamesAppend(a: Topology, b: Topology)
    ensures NetNames(a + b) == NetNames(a) + NetNames(b)
  {
  }

  // ----- the counter loop -----

  datatype Numbering = Numbering(next: map<Name, nat>, ifaces: Interfaces)

  function Max(a: nat, b: nat): nat {
    if a < b then b else a
  }

  /** The number an attachment receives: the declared one, else the machine's counter. */
  function NumberFor(st: Numbering, a: Attachment): nat {
    match a.spec
    case Some(i) => i
    case None => if a.machine in st.next then st.next[a.machine] else 0
  }

  function Attach(st: Numbering, net: Name, a: Attachment): Numbering {
    var count := if a.machine in st.next then st.next[a.machine] else 0;
    var iface := NumberFor(st, a);
    Numbering(
      st.next[a.machine := Max(count, iface) + 1],
      st.ifaces.Put(a.machine, st.ifaces.GetOr(a.machine, EmptyDict()).Put(net, iface)))
  }

  function AttachAll(st: Numbering, net: Name, members: seq<Attachment>): Numbering {
    if members == [] then st
    else Attach(AttachAll(st, net, members[..|members| - 1]), net, members[|members| - 1])
  }

  function Assign(t: Topology): Numbering {
    if t == [] then Numbering(map[], EmptyDict())
    else
      var net := t[|t| - 1];
      AttachAll(Assign(t[..|t| - 1]), net.name, net.members)
  }

  method AttachNetwork(before: Numbering, net: Network) returns (st: Numbering)
    ensures st == AttachAll(before, net.name, net.members)
  {
    st := before;
    for i := 0 to |net.members|
      invariant st == AttachAll(before, net.name, net.members[..i])
    {
      assert net.members[..i + 1][..i] == net.members[..i];
      st := Attach(st, net.name, net.members[i]);
    }
    assert net.members[..|net.members|] == net.members;
  }

  method AssignInterfaces(t: Topology) returns (ifaces: Interfaces)
    ensures ifaces == Assign(t).ifaces
  {
    var st := Numbering(map[], EmptyDict());
    for k := 0 to |t|
      invariant st == Assign(t[..k])
    {
      st := AttachNetwork(st, t[k]);
      assert t[..k + 1][..k] == t[..k];
    }
    assert t[..|t|] == t;
    ifaces := st.ifaces;
  }

  // ----- what the numbering contains -----

  /** The networks of machine `m`, in topology order. */
  function NetsOf(t: Topology, m: Name): seq<Name> {
    if t == [] then []
    else NetsOf(t[..|t| - 1], m) + (if HasMember(t[|t| - 1], m) then [t[|t| - 1].name] else [])
  }

  function AddMembers(machines: seq<Name>, members: seq<Attachment>): seq<Name> {
    if members == [] then machines
    else
      var before := AddMembers(machines, members[..|members| - 1]);
      var m := members[|members| - 1].machine;
      if m in before then before else before + [m]
  }

  /** The machines of the topology in the order of their first appearance. */
  function Machines(t: Topology): seq<Name> {
    if t == [] then []
    else AddMembers(Machines(t[..|t| - 1]), t[|t| - 1].members)
  }

  ghost predicate OnNet(t: Topology, m: Name, n: Name) {
    exists k :: 0 <= k < |t| && t[k].name == n && HasMember(t[k], m)
  }

  lemma NetsOfNext(t: Topology, net: Network, m: Name)
    ensures NetsOf(t + [net], m) == NetsOf(t, m) + (if HasMember(net, m) then [net.name] else [])
  {
    assert (t + [net])[..|t|] == t;
  }

  lemma {:induction false} NetsOfMembers(t: Topology, m: Name)
    ensures forall n :: n in NetsOf(t, m) <==> OnNet(t, m, n)
  {
    if t != [] {
      NetsOfMembers(t[..|t| - 1], m);
      forall n
        ensures n in NetsOf(t, m) <==> OnNet(t, m, n)
      {
        var last := t[|t| - 1];
        if OnNet(t, m, n) {
          var k :| 0 <= k < |t| && t[k].name == n && HasMember(t[k], m);
          assert k < |t| - 1 ==> t[..|t| - 1][k] == t[k];
        }
        if OnNet(t[..|t| - 1], m, n) {
          var k :| 0 <= k < |t| - 1 && t[..|t| - 1][k].name == n && HasMember(t[..|t| - 1][k], m);
          assert t[k].name == n;
        }
      }
    }
  }

  lemma {:induction false} NetsOfDistinct(t: Topology, m: Name)
    requires UniqueNames(t)
    ensures Distinct(NetsOf(t, m))
  {
    if t != [] {
      var front := t[..|t| - 1];
      NetsOfDistinct(front, m);
      NetsOfMembers(front, m);
      assert t[|t| - 1].name !in NetsOf(front, m);
    }
  }

  /** The interfaces of one machine; none yet for a machine not seen. */
  function Row(st: Numbering, m: Name): Dict<Name, nat> {
    st.ifaces.GetOr(m, EmptyDict())
  }

  /** What the loop keeps for machine `m`: its counter is above every number it holds. */
  ghost predicate GoodRow(st: Numbering, m: Name) {
    && (m in st.next <==> m in st.ifaces.vals)
    && Row(st, m).Valid()
    && (forall n :: n in Row(st, m).vals ==> m in st.next && Row(st, m).vals[n] < st.next[m])
  }

  lemma LastMember(net: Name, members: seq<Attachment>, m: Name)
    requires members != []
    ensures HasMember(Network(net, members), m)
       <==> HasMember(Network(net, members[..|members| - 1]), m) || members[|members| - 1].machine == m
  {
    var front := members[..|members| - 1];
    if HasMember(Network(net, front), m) {
      var i :| 0 <= i < |front| && front[i].machine == m;
      assert members[i].machine == m;
    }
    if HasMember(Network(net, members), m) {
      var i :| 0 <= i < |members| && members[i].machine == m;
      assert i < |front| ==> front[i].machine == m;
    }
  }

  /** One attachment adds the network to the machine's row, unless it is already there, and nothing
      else to any row. */
  lemma AttachRow(st: Numbering, net: Name, a: Attachment, m: Name)
    requires GoodRow(st, m)
    ensures var st' := Attach(st, net, a);
      && GoodRow(st', m)
      && Row(st', m).keys == Row(st, m).keys + (if a.machine == m && net !in Row(st, m).vals then [net] else [])
      && (forall n :: n in Row(st, m).vals && n != net ==>
            n in Row(st', m).vals && Row(st', m).vals[n] == Row(st, m).vals[n])
      && (m in st'.ifaces.vals <==> m in st.ifaces.vals || a.machine == m)
  {
    if a.machine == m {
      PutKeepsValid(Row(st, m), net, NumberFor(st, a));
    }
  }

  /** One network adds at most one interface to a machine and renumbers none. */
  lemma {:induction false} AttachAllRow(st: Numbering, net: Name, members: seq<Attachment>, m: Name)
    requires GoodRow(st, m) && net !in Row(st, m).vals
    ensures GoodRow(AttachAll(st, net, members), m)
    ensures Row(AttachAll(st, net, members), m).keys
         == Row(st, m).keys + (if HasMember(Network(net, members), m) then [net] else [])
    ensures forall n :: n in Row(st, m).vals ==>
              n in Row(AttachAll(st, net, members), m).vals
              && Row(AttachAll(st, net, members), m).vals[n] == Row(st, m).vals[n]
    ensures m in AttachAll(st, net, members).ifaces.vals
       <==> m in st.ifaces.vals || HasMember(Network(net, members), m)
  {
    if members != [] {
      var front := members[..|members| - 1];
      var a := members[|members| - 1];
      AttachAllRow(st, net, front, m);
      LastMember(net, members, m);
      var mid := AttachAll(st, net, front);
      AttachRow(mid, net, a, m);
      hide HasMember, Attach, Row;
      assert net in Row(mid, m).keys <==> HasMember(Network(net, front), m) by {
        LastKey(Row(st, m), Row(mid, m), net, HasMember(Network(net, front), m));
      }
    }
  }

  lemma LastKey(d: Dict<Name, nat>, e: Dict<Name, nat>, n: Name, added: bool)
    requires d.Valid() && n !in d.vals && e.keys == d.keys + (if added then [n] else [])
    ensures n in e.keys <==> added
  {
    if added {
      assert e.keys[|e.keys| - 1] == n;
    }
  }

  lemma {:induction false} AttachAllKeys(st: Numbering, net: Name, members: seq<Attachment>)
    requires st.ifaces.Valid()
    ensures AttachAll(st, net, members).ifaces.Valid()
    ensures AttachAll(st, net, members).ifaces.keys == AddMembers(st.ifaces.keys, members)
  {
    if members != [] {
      var front := members[..|members| - 1];
      var a := members[|members| - 1];
      AttachAllKeys(st, net, front);
      var mid := AttachAll(st, net, front);
      PutKeepsValid(mid.ifaces, a.machine, Row(mid, a.machine).Put(net, NumberFor(mid, a)));
    }
  }

  /** The counter loop numbers exactly the memberships of machine `m`, in topology order. */
  lemma {:induction false} AssignRow(t: Topology, m: Name)
    requires UniqueNames(t)
    ensures GoodRow(Assign(t), m)
    ensures Row(Assign(t), m).keys == NetsOf(t, m)
    ensures m in Assign(t).ifaces.vals <==> NetsOf(t, m) != []
  {
    if t != [] {
      var front := t[..|t| - 1];
      var net := t[|t| - 1];
      AssignRow(front, m);
      NetsOfMembers(front, m);
      assert net.name !in NetsOf(front, m);
      AttachAllRow(Assign(front), net.name, net.members, m);
      assert HasMember(Network(net.name, net.members), m) <==> HasMember(net, m);
    }
  }

  lemma {:induction false} AssignKeys(t: Topology)
    ensures Assign(t).ifaces.Valid()
    ensures Assign(t).ifaces.keys == Machines(t)
  {
    if t != [] {
      AssignKeys(t[..|t| - 1]);
      AttachAllKeys(Assign(t[..|t| - 1]), t[|t| - 1].name, t[|t| - 1].members);
    }
  }

  // ----- when the numbers of a machine are distinct -----

  /** The member at `i` receives the number that the state before the network gives it, and its counter
      goes on from there. */
  lemma {:induction false} AttachAllNumber(st: Numbering, net: Name, members: seq<Attachment>, i: nat)
    requires i < |members| && DistinctMembers(members)
    ensures var st', m := AttachAll(st, net, members), members[i].machine;
            && net in Row(st', m).vals && Row(st', m).vals[net] == NumberFor(st, members[i])
            && m in st'.next
            && st'.next[m] == Max(if m in st.next then st.next[m] else 0, NumberFor(st, members[i])) + 1
    decreases |members|
  {
    var front := members[..|members| - 1];
    if i < |front| {
      AttachAllNumber(st, net, front, i);
      assert front[i] == members[i] && members[i].machine != members[|front|].machine;
      hide DistinctMembers;
    } else {
      AttachAllCounter(st, net, front, members[i].machine);
    }
  }

  lemma {:induction false} AttachAllCounter(st: Numbering, net: Name, members: seq<Attachment>, m: Name)
    requires !HasMember(Network(net, members), m)
    ensures var st' := AttachAll(st, net, members);
            && (m in st'.next <==> m in st.next)
            && (m in st.next ==> st'.next[m] == st.next[m])
  {
    if members != [] {
      LastMember(net, members, m);
      AttachAllCounter(st, net, members[..|members| - 1], m);
    }
  }

  ghost predicate Injective(d: Dict<Name, nat>) {
    forall a, b :: a in d.vals && b in d.vals && a != b ==> d.vals[a] != d.vals[b]
  }

  /** The number that `members` declares for machine `m`, if any */
  function DeclaredIn(members: seq<Attachment>, m: Name): Option<nat> {
    if members == [] then None
    else if members[|members| - 1].machine == m then members[|members| - 1].spec
    else DeclaredIn(members[..|members| - 1], m)
  }

  /** What the networks of machine `m` declare for it, in topology order */
  function Declared(t: Topology, m: Name): seq<Option<nat>> {
    if t == [] then []
    else
      Declared(t[..|t| - 1], m)
      + (if HasMember(t[|t| - 1], m) then [DeclaredIn(t[|t| - 1].members, m)] else [])
  }

  /** How far the declared numbers among the first `i` push the counter ahead of their count */
  function Lead(specs: seq<Option<nat>>, i: nat): nat
    requires i <= |specs|
  {
    if i == 0 then 0
    else if specs[i - 1].Some? && specs[i - 1].value > i - 1 + Lead(specs, i - 1) then specs[i - 1].value - (i - 1)
    else Lead(specs, i - 1)
  }

  /** The number at place `i`: the declared one, or the count of the places before, pushed ahead */
  function NumberAtPlace(specs: seq<Option<nat>>, i: nat): nat
    requires i < |specs|
  {
    if specs[i].Some? then specs[i].value else i + Lead(specs, i)
  }

  /** No number declared for machine `m` is the number of an earlier place. */
  ghost predicate NoReuse(t: Topology, m: Name) {
    var specs := Declared(t, m);
    forall i, j :: 0 <= i < j < |specs| && specs[j].Some? ==> NumberAtPlace(specs, i) != specs[j].value
  }

  lemma {:induction false} LeadPrefix(specs: seq<Option<nat>>, more: seq<Option<nat>>, i: nat)
    requires i <= |specs|
    ensures Lead(specs + more, i) == Lead(specs, i)
  {
    if i > 0 {
      LeadPrefix(specs, more, i - 1);
    }
  }

  lemma {:induction false} DeclaredInIs(members: seq<Attachment>, i: nat)
    requires i < |members| && DistinctMembers(members)
    ensures DeclaredIn(members, members[i].machine) == members[i].spec
    decreases |members|
  {
    var front := members[..|members| - 1];
    if i < |front| {
      DeclaredInIs(front, i);
      assert front[i] == members[i] && members[i].machine != members[|front|].machine;
    }
  }

  /** What the counter loop keeps for machine `m`, in terms of what is declared for it */
  ghost predicate NumberedAs(st: Numbering, m: Name, nets: seq<Name>, specs: seq<Option<nat>>) {
    && |nets| == |specs|
    && (m in st.next <==> nets != [])
    && (m in st.next ==> st.next[m] == |specs| + Lead(specs, |specs|))
    && forall i :: 0 <= i < |nets| ==> nets[i] in Row(st, m).vals && Row(st, m).vals[nets[i]] == NumberAtPlace(specs, i)
  }

  /** The machine's counter */
  function Count(st: Numbering, m: Name): nat {
    if m in st.next then st.next[m] else 0
  }

  lemma NumberedNext(st: Numbering, st': Numbering, net: Name, m: Name, nets: seq<Name>, specs: seq<Option<nat>>,
                     spec: Option<nat>)
    requires NumberedAs(st, m, nets, specs) && net !in Row(st, m).vals
    requires var n := if spec.Some? then spec.value else Count(st, m);
             && net in Row(st', m).vals && Row(st', m).vals[net] == n
             && m in st'.next && st'.next[m] == Max(Count(st, m), n) + 1
    requires forall x :: x in Row(st, m).vals ==> x in Row(st', m).vals && Row(st', m).vals[x] == Row(st, m).vals[x]
    ensures NumberedAs(st', m, nets + [net], specs + [spec])
  {
    hide Row;
    var specs' := specs + [spec];
    LeadPrefix(specs, [spec], |specs|);
    assert Count(st, m) == |specs| + Lead(specs, |specs|);
    forall i | 0 <= i < |specs|
      ensures NumberAtPlace(specs', i) == NumberAtPlace(specs, i)
    {
      LeadPrefix(specs, [spec], i);
    }
    forall i | 0 <= i < |nets|
      ensures nets[i] in Row(st', m).vals && Row(st', m).vals[nets[i]] == NumberAtPlace(specs', i)
    {
      assert nets[i] in Row(st, m).vals;
    }
  }

  /** The last network numbers its member as its declarations say. */
  lemma NumberedMember(st: Numbering, net: Network, m: Name, nets: seq<Name>, specs: seq<Option<nat>>, i: nat)
    requires GoodRow(st, m) && NumberedAs(st, m, nets, specs) && net.name !in Row(st, m).vals
    requires DistinctMembers(net.members) && i < |net.members| && net.members[i].machine == m
    ensures NumberedAs(AttachAll(st, net.name, net.members), m, nets + [net.name], specs + [DeclaredIn(net.members, m)])
  {
    AttachAllNumber(st, net.name, net.members, i);
    AttachAllRow(st, net.name, net.members, m);
    DeclaredInIs(net.members, i);
    hide AttachAll, DistinctMembers, GoodRow, HasMember, NumberedAs, Row, DeclaredIn;
    NumberedNext(st, AttachAll(st, net.name, net.members), net.name, m, nets, specs, net.members[i].spec);
  }

  /** It leaves the other machines as they are. */
  lemma NumberedOther(st: Numbering, net: Network, m: Name, nets: seq<Name>, specs: seq<Option<nat>>)
    requires GoodRow(st, m) && NumberedAs(st, m, nets, specs) && net.name !in Row(st, m).vals
    requires !HasMember(net, m)
    ensures NumberedAs(AttachAll(st, net.name, net.members), m, nets, specs)
  {
    assert !HasMember(Network(net.name, net.members), m);
    AttachAllRow(st, net.name, net.members, m);
    AttachAllCounter(st, net.name, net.members, m);
    hide AttachAll, GoodRow, HasMember, Row;
  }

  /** The numbers of a machine in terms of what is declared for it: what the counter gives is the count
      of its networks before, pushed ahead by the declared numbers among them. */
  lemma {:induction false} AssignNumbers(t: Topology, m: Name)
    requires UniqueNames(t) && SingleMembership(t)
    ensures NumberedAs(Assign(t), m, NetsOf(t, m), Declared(t, m))
  {
    if t != [] {
      var front, net := t[..|t| - 1], t[|t| - 1];
      var st := Assign(front);
      AssignNumbers(front, m);
      AssignRow(front, m);
      NetsOfMembers(front, m);
      assert net.name !in NetsOf(front, m);
      hide NumberedAs, AttachAll;
      if HasMember(net, m) {
        var i :| 0 <= i < |net.members| && net.members[i].machine == m;
        NumberedMember(st, net, m, NetsOf(front, m), Declared(front, m), i);
      } else {
        NumberedOther(st, net, m, NetsOf(front, m), Declared(front, m));
        assert NetsOf(front, m) + [] == NetsOf(front, m) && Declared(front, m) + [] == Declared(front, m);
      }
    } else {
      assert Row(Assign(t), m).keys == [];
    }
  }

  /** A number is below the counter ever after. */
  lemma {:induction false} BelowCounter(specs: seq<Option<nat>>, i: nat, j: nat)
    requires i < j <= |specs|
    ensures NumberAtPlace(specs, i) < j + Lead(specs, j)
  {
    if i < j - 1 {
      BelowCounter(specs, i, j - 1);
    }
  }

  /** A machine's interface numbers are distinct exactly when no declared number is the number of an
      earlier network: a number taken from the counter never collides, whatever was declared before. */
  lemma NumbersDistinct(t: Topology, m: Name)
    requires UniqueNames(t) && SingleMembership(t)
    ensures Injective(Row(Assign(t), m)) <==> NoReuse(t, m)
  {
    AssignNumbers(t, m);
    AssignRow(t, m);
    NetsOfDistinct(t, m);
    hide Assign, NetsOf, Declared;
    var row, nets, specs := Row(Assign(t), m), NetsOf(t, m), Declared(t, m);
    if Injective(row) {
      forall i, j | 0 <= i < j < |specs| && specs[j].Some?
        ensures NumberAtPlace(specs, i) != specs[j].value
      {
        assert nets[i] != nets[j] && nets[i] in row.vals && nets[j] in row.vals;
      }
    }
    if NoReuse(t, m) {
      forall i, j | 0 <= i < j < |specs|
        ensures NumberAtPlace(specs, i) != NumberAtPlace(specs, j)
      {
        if specs[j].None? {
          BelowCounter(specs, i, j);
        }
      }
      forall a, b | a in row.vals && b in row.vals && a != b
        ensures row.vals[a] != row.vals[b]
      {
        assert a in row.keys && b in row.keys;
        var i :| 0 <= i < |nets| && nets[i] == a;
        var j :| 0 <= j < |nets| && nets[j] == b;
      }
    }
  }

  /** Without declared numbers there is nothing to reuse. */
  lemma {:induction false} NothingDeclared(t: Topology, m: Name)
    requires forall k, i :: 0 <= k < |t| && 0 <= i < |t[k].members| ==> t[k].members[i].spec == None
    ensures forall j :: 0 <= j < |Declared(t, m)| ==> Declared(t, m)[j] == None
    ensures NoReuse(t, m)
  {
    if t != [] {
      NothingDeclared(t[..|t| - 1], m);
      NothingDeclaredIn(t[|t| - 1].members, m);
    }
  }

  lemma {:induction false} NothingDeclaredIn(members: seq<Attachment>, m: Name)
    requires forall i :: 0 <= i < |members| ==> members[i].spec == None
    ensures DeclaredIn(members, m) == None
  {
    if members != [] {
      NothingDeclaredIn(members[..|members| - 1], m);
    }
  }

  /** A declared number that the counter has already given */
  lemma DeclaredAfterCounter(m: Name)
    ensures var t := [Network("n1", [Attachment(m, None)]), Network("n2", [Attachment(m, Some(0))])];
            UniqueNames(t) && SingleMembership(t) && !NoReuse(t, m) && !Injective(Row(Assign(t), m))
  {
    var t := [Network("n1", [Attachment(m, None)]), Network("n2", [Attachment(m, Some(0))])];
    assert t[0].members[0].machine == m && t[1].members[0].machine == m;
    assert t[..1] == [t[0]] && t[..1][..0] == [];
    assert DeclaredIn(t[0].members, m) == None && DeclaredIn(t[1].members, m) == Some(0);
    assert Declared([t[0]], m) == [None];
    assert Declared(t, m) == [None, Some(0)];
    NumbersDistinct(t, m);
    hide Assign, Declared, Row, Injective;
    var specs := Declared(t, m);
    assert NumberAtPlace(specs, 0) == 0 == specs[1].value;
  }
}
