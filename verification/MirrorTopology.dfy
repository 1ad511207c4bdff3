/**
 The topology side of the hidden mirror: every network and machine of a lab is cloned under a
 suffixed name, on the same interface numbers.
 */
module MirrorTopology {
  import opened Wrappers
  import opened Dicts
  import opened Topologies

  // ----- normalisation: the second copy of the counter loop -----

  /** `norm` holds, for the networks of `t`, their members with their numbers in `st`. */
  ghost predicate NormalizesTo(norm: Dict<Name, Dict<Name, nat>>, t: Topology, st: Numbering) {
    && norm.Valid() && norm.keys == NetNames(t)
    && forall k :: 0 <= k < |t| ==> NormalizesNet(norm.vals[t[k].name], t[k].name, t[k].members, st)
  }

  /** `norm` holds, for the networks of `t`, their members with the numbers of the counter loop. */
  ghost predicate Normalizes(norm: Dict<Name, Dict<Name, nat>>, t: Topology) {
    NormalizesTo(norm, t, Assign(t))
  }

  /** `row` maps the members of one network to their numbers in `st`, in order of appearance. */
  ghost predicate NormalizesNet(row: Dict<Name, nat>, net: Name, members: seq<Attachment>, st: Numbering) {
    && row.Valid()
    && row.keys == AddMembers([], members)
    && forall m :: m in row.vals ==> net in Row(st, m).vals && row.vals[m] == Row(st, m).vals[net]
  }

  lemma NormalizeStep(row: Dict<Name, nat>, net: Name, members: seq<Attachment>, st: Numbering, a: Attachment)
    requires NormalizesNet(row, net, members, st)
    ensures NormalizesNet(row.Put(a.machine, NumberFor(st, a)), net, members + [a], Attach(st, net, a))
  {
    PutKeepsValid(row, a.machine, NumberFor(st, a));
    assert (members + [a])[..|members|] == members;
    assert a.machine in row.keys <==> a.machine in row.vals;
  }

  lemma NormalizeStart(net: Network, st: Numbering)
    ensures AttachAll(st, net.name, net.members[..0]) == st
    ensures NormalizesNet(EmptyDict(), net.name, net.members[..0], st)
  {
  }

  lemma AttachNext(st: Numbering, net: Name, members: seq<Attachment>, a: Attachment)
    ensures AttachAll(st, net, members + [a]) == Attach(AttachAll(st, net, members), net, a)
  {
    assert (members + [a])[..|members|] == members;
  }

  lemma AttachCounts(st: Numbering, net: Name, a: Attachment)
    ensures var count := if a.machine in st.next then st.next[a.machine] else 0;
            Attach(st, net, a).next == st.next[a.machine := Max(count, NumberFor(st, a)) + 1]
  {
  }

  /** One round of the loop over the members of a network. */
  lemma NormalizeRound(before: Numbering, net: Network, i: nat, row: Dict<Name, nat>)
    requires i < |net.members|
    requires NormalizesNet(row, net.name, net.members[..i], AttachAll(before, net.name, net.members[..i]))
    ensures var st := AttachAll(before, net.name, net.members[..i]);
            var a := net.members[i];
            var count := if a.machine in st.next then st.next[a.machine] else 0;
            var iface := if a.spec.Some? then a.spec.value else count;
      && AttachAll(before, net.name, net.members[..i + 1]).next == st.next[a.machine := Max(count, iface) + 1]
      && NormalizesNet(row.Put(a.machine, iface), net.name, net.members[..i + 1],
                       AttachAll(before, net.name, net.members[..i + 1]))
  {
    hide NormalizesNet, AttachAll, Attach;
    var st := AttachAll(before, net.name, net.members[..i]);
    assert net.members[..i + 1] == net.members[..i] + [net.members[i]];
    AttachNext(before, net.name, net.members[..i], net.members[i]);
    NormalizeStep(row, net.name, net.members[..i], st, net.members[i]);
    AttachCounts(st, net.name, net.members[i]);
  }

  method NormalizeNetwork(net: Network, before: Numbering, counter: map<Name, nat>)
    returns (row: Dict<Name, nat>, counter': map<Name, nat>)
    requires counter == before.next
    ensures counter' == AttachAll(before, net.name, net.members).next
    ensures NormalizesNet(row, net.name, net.members, AttachAll(before, net.name, net.members))
  {
    hide AttachAll, NormalizesNet, Dict.Put;
    row, counter' := EmptyDict(), counter;
    NormalizeStart(net, before);
    var i := 0;
    while i < |net.members|
      invariant i <= |net.members|
      invariant counter' == AttachAll(before, net.name, net.members[..i]).next
      invariant NormalizesNet(row, net.name, net.members[..i], AttachAll(before, net.name, net.members[..i]))
    {
      NormalizeRound(before, net, i, row);
      var a := net.members[i];
      var count := if a.machine in counter' then counter'[a.machine] else 0;
      var iface := if a.spec.Some? then a.spec.value else count;
      counter' := counter'[a.machine := Max(count, iface) + 1];
      row := row.Put(a.machine, iface);
      i := i + 1;
    }
    assert net.members[..|net.members|] == net.members;
  }

  lemma NumberKept(t: Topology, m: Name, n: Name)
    requires UniqueNames(t) && t != [] && n in Row(Assign(t[..|t| - 1]), m).vals
    ensures n in Row(Assign(t), m).vals && Row(Assign(t), m).vals[n] == Row(Assign(t[..|t| - 1]), m).vals[n]
  {
    var front := t[..|t| - 1];
    var last := t[|t| - 1];
    assert Assign(t) == AttachAll(Assign(front), last.name, last.members);
    hide Assign, AttachAll, Attach, NetsOf, HasMember;
    AssignRow(front, m);
    NetsOfMembers(front, m);
    assert last.name !in NetsOf(front, m);
    AttachAllRow(Assign(front), last.name, last.members, m);
  }

  lemma NetNormalizedLater(row: Dict<Name, nat>, t: Topology, net: Network)
    requires UniqueNames(t) && t != []
    requires NormalizesNet(row, net.name, net.members, Assign(t[..|t| - 1]))
    ensures NormalizesNet(row, net.name, net.members, Assign(t))
  {
    hide Assign, AddMembers;
    forall m | m in row.vals
      ensures net.name in Row(Assign(t), m).vals && row.vals[m] == Row(Assign(t), m).vals[net.name]
    {
      NumberKept(t, m, net.name);
    }
  }

  lemma FrontNormalizedLater(norm: Dict<Name, Dict<Name, nat>>, t: Topology)
    requires UniqueNames(t) && t != []
    requires Normalizes(norm, t[..|t| - 1])
    ensures NormalizesTo(norm, t[..|t| - 1], Assign(t))
  {
    hide Assign, NormalizesNet;
    var front := t[..|t| - 1];
    forall k | 0 <= k < |front|
      ensures NormalizesNet(norm.vals[front[k].name], front[k].name, front[k].members, Assign(t))
    {
      NetNormalizedLater(norm.vals[front[k].name], t, front[k]);
    }
  }

  lemma OneMoreNetwork(norm: Dict<Name, Dict<Name, nat>>, front: Topology, last: Network, row: Dict<Name, nat>, st: Numbering)
    requires NormalizesTo(norm, front, st) && last.name !in NetNames(front)
    requires NormalizesNet(row, last.name, last.members, st)
    ensures NormalizesTo(norm.Put(last.name, row), front + [last], st)
  {
    hide NormalizesNet;
    PutKeepsValid(norm, last.name, row);
    NetNamesAppend(front, [last]);
    forall k | 0 <= k < |front + [last]|
      ensures NormalizesNet(norm.Put(last.name, row).vals[(front + [last])[k].name],
                            (front + [last])[k].name, (front + [last])[k].members, st)
    {
      if k < |front| {
        assert NetNames(front)[k] == front[k].name;
      }
    }
  }

  /** `_normalize_topology`: its numbers are those of `get_net_config_from_topology`. */
  method NormalizeTopology(t: Topology) returns (norm: Dict<Name, Dict<Name, nat>>)
    requires UniqueNames(t)
    ensures Normalizes(norm, t)
  {
    norm := EmptyDict();
    var counter: map<Name, nat> := map[];
    for k := 0 to |t|
      invariant counter == Assign(t[..k]).next
      invariant Normalizes(norm, t[..k])
    {
      hide NormalizesTo, NormalizesNet;
      assert t[..k + 1][..k] == t[..k];
      var row;
      row, counter := NormalizeNetwork(t[k], Assign(t[..k]), counter);
      FrontNormalizedLater(norm, t[..k + 1]);
      OneMoreNetwork(norm, t[..k], t[k], row, Assign(t[..k + 1]));
      assert t[..k + 1] == t[..k] + [t[k]];
      norm := norm.Put(t[k].name, row);
    }
    assert t[..|t|] == t;
  }

  // ----- the expanded topology -----

  /** The topology with every interface number spelled out. */
  function Explicit(t: Topology): (e: Topology)
    ensures |e| == |t|
  {
    seq(|t|, k requires 0 <= k < |t| => ExplicitNet(Assign(t), t[k]))
  }

  function NumberAt(st: Numbering, m: Name, n: Name): nat {
    if n in Row(st, m).vals then Row(st, m).vals[n] else 0
  }

  function ExplicitNet(st: Numbering, net: Network): (e: Network)
    ensures e.name == net.name && |e.members| == |net.members|
    ensures forall i :: 0 <= i < |net.members| ==> e.members[i].machine == net.members[i].machine
  {
    Network(net.name, seq(|net.members|, i requires 0 <= i < |net.members| =>
      Attachment(net.members[i].machine, Some(NumberAt(st, net.members[i].machine, net.name)))))
  }

  /** The clones of names. */
  function Clones(names: seq<Name>, s: string): (r: seq<Name>)
    ensures |r| == |names| && forall i :: 0 <= i < |names| ==> r[i] == names[i] + s
  {
    seq(|names|, i requires 0 <= i < |names| => names[i] + s)
  }

  function CloneNet(net: Network, s: string): (c: Network)
    ensures c.name == net.name + s && |c.members| == |net.members|
    ensures forall i :: 0 <= i < |net.members| ==>
              c.members[i] == Attachment(net.members[i].machine + s, net.members[i].spec)
  {
    Network(net.name + s, seq(|net.members|, i requires 0 <= i < |net.members| =>
      Attachment(net.members[i].machine + s, net.members[i].spec)))
  }

  function CloneOf(t: Topology, s: string): (c: Topology)
    ensures |c| == |t| && forall k :: 0 <= k < |t| ==> c[k] == CloneNet(t[k], s)
  {
    seq(|t|, k requires 0 <= k < |t| => CloneNet(t[k], s))
  }

  /** The topology with its hidden clone. */
  function Expanded(t: Topology, s: string): Topology {
    Explicit(t) + CloneOf(Explicit(t), s)
  }

  ghost predicate IsMachine(t: Topology, m: Name) {
    NetsOf(t, m) != []
  }

  /** No clone has the name of a network or of a machine of the lab. */
  ghost predicate Fresh(t: Topology, s: string) {
    && (forall n, n2 :: n in NetNames(t) && n2 in NetNames(t) ==> n + s != n2)
    && (forall m, m2 :: IsMachine(t, m) && IsMachine(t, m2) ==> m + s != m2)
  }

  lemma SuffixInjective(a: Name, b: Name, s: string)
    requires a + s == b + s
    ensures a == b
  {
    assert |a| == |b|;
    assert a == (a + s)[..|a|] && b == (b + s)[..|b|];
  }

  /** The rows of a normalised dictionary, as a topology. */
  function DictNetwork(name: Name, row: Dict<Name, nat>): Network
    requires row.Valid()
  {
    Network(name, seq(|row.keys|, i requires 0 <= i < |row.keys| =>
      Attachment(row.keys[i], Some(row.vals[row.keys[i]]))))
  }

  ghost predicate ValidRows(norm: Dict<Name, Dict<Name, nat>>) {
    norm.Valid() && forall n :: n in norm.vals ==> norm.vals[n].Valid()
  }

  function DictTopology(norm: Dict<Name, Dict<Name, nat>>): (t: Topology)
    requires ValidRows(norm)
    ensures |t| == |norm.keys|
  {
    seq(|norm.keys|, k requires 0 <= k < |norm.keys| => DictNetwork(norm.keys[k], norm.vals[norm.keys[k]]))
  }

  lemma {:induction false} AddDistinctMembers(members: seq<Attachment>)
    requires DistinctMembers(members)
    ensures |AddMembers([], members)| == |members|
    ensures forall i :: 0 <= i < |members| ==> AddMembers([], members)[i] == members[i].machine
  {
    if members != [] {
      AddDistinctMembers(members[..|members| - 1]);
    }
  }

  lemma RowIsExplicit(row: Dict<Name, nat>, net: Network, st: Numbering)
    requires DistinctMembers(net.members) && NormalizesNet(row, net.name, net.members, st)
    ensures DictNetwork(net.name, row) == ExplicitNet(st, net)
  {
    AddDistinctMembers(net.members);
    forall i | 0 <= i < |net.members|
      ensures DictNetwork(net.name, row).members[i] == ExplicitNet(st, net).members[i]
    {
      assert row.keys[i] in row.vals;
    }
  }

  lemma NormRowsValid(norm: Dict<Name, Dict<Name, nat>>, t: Topology)
    requires Normalizes(norm, t)
    ensures ValidRows(norm)
  {
    forall n | n in norm.vals
      ensures norm.vals[n].Valid()
    {
      assert n in norm.keys;
      var k :| 0 <= k < |t| && NetNames(t)[k] == n;
      assert NormalizesNet(norm.vals[t[k].name], t[k].name, t[k].members, Assign(t));
    }
  }

  /** Without duplicate members, the normalised dictionary is the explicit topology. */
  lemma NormIsExplicit(norm: Dict<Name, Dict<Name, nat>>, t: Topology)
    requires Normalizes(norm, t) && SingleMembership(t)
    ensures ValidRows(norm) && DictTopology(norm) == Explicit(t)
  {
    NormRowsValid(norm, t);
    hide Assign, NormalizesNet;
    forall k | 0 <= k < |t|
      ensures DictTopology(norm)[k] == Explicit(t)[k]
    {
      RowIsExplicit(norm.vals[t[k].name], t[k], Assign(t));
    }
  }

  /** `{f"{m}{suffix}": i for m, i in m2i.items()}` */
  function CloneRow(row: Dict<Name, nat>, s: string): (r: Dict<Name, nat>)
    requires row.Valid()
  {
    Dict(Clones(row.keys, s), map x | x in Clones(row.keys, s) && |x| >= |s| && x[..|x| - |s|] in row.vals :: row.vals[x[..|x| - |s|]])
  }

  lemma CloneRowIs(row: Dict<Name, nat>, s: string)
    requires row.Valid()
    ensures CloneRow(row, s).Valid()
    ensures forall i :: 0 <= i < |row.keys| ==>
              row.keys[i] + s in CloneRow(row, s).vals && CloneRow(row, s).vals[row.keys[i] + s] == row.vals[row.keys[i]]
  {
    var r := CloneRow(row, s);
    forall i | 0 <= i < |row.keys|
      ensures row.keys[i] + s in r.vals && r.vals[row.keys[i] + s] == row.vals[row.keys[i]]
    {
      var x := row.keys[i] + s;
      assert x[..|x| - |s|] == row.keys[i];
      assert Clones(row.keys, s)[i] == x;
      assert row.keys[i] in row.keys;
    }
    forall i, j | 0 <= i < j < |r.keys|
      ensures r.keys[i] != r.keys[j]
    {
      if r.keys[i] == r.keys[j] {
        SuffixInjective(row.keys[i], row.keys[j], s);
      }
    }
    forall x | x in r.keys
      ensures x in r.vals
    {
      var i :| 0 <= i < |r.keys| && r.keys[i] == x;
      assert row.keys[i] + s in r.vals;
    }
  }
}
