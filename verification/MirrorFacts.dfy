/**
 What the expanded topology contains: the lab itself, unchanged, and its clone.
 */
module MirrorFacts {
  import opened Wrappers
  import opened Dicts
  import opened Topologies
  import opened MirrorTopology

  // ----- building it -----

  lemma ClonedNetwork(name: Name, row: Dict<Name, nat>, s: string)
    requires row.Valid() && CloneRow(row, s).Valid()
    ensures DictNetwork(name + s, CloneRow(row, s)) == CloneNet(DictNetwork(name, row), s)
  {
    CloneRowIs(row, s);
    forall i | 0 <= i < |row.keys|
      ensures DictNetwork(name + s, CloneRow(row, s)).members[i] == CloneNet(DictNetwork(name, row), s).members[i]
    {
    }
  }

  /** The dictionary of the lab followed by the clones of its first `k` networks. */
  ghost predicate PartlyCloned(full: Dict<Name, Dict<Name, nat>>, norm: Dict<Name, Dict<Name, nat>>, k: nat, s: string)
    requires k <= |norm.keys| && ValidRows(norm)
  {
    && ValidRows(full)
    && full.keys == norm.keys + Clones(norm.keys[..k], s)
    && DictTopology(full) == DictTopology(norm) + CloneOf(DictTopology(norm)[..k], s)
  }

  ghost predicate FreshKeys(norm: Dict<Name, Dict<Name, nat>>, s: string) {
    forall n, n2 :: n in norm.keys && n2 in norm.keys ==> n + s != n2
  }

  lemma DictTopologyPut(d: Dict<Name, Dict<Name, nat>>, n: Name, row: Dict<Name, nat>)
    requires ValidRows(d) && row.Valid() && n !in d.keys
    ensures ValidRows(d.Put(n, row)) && d.Put(n, row).keys == d.keys + [n]
    ensures DictTopology(d.Put(n, row)) == DictTopology(d) + [DictNetwork(n, row)]
  {
    PutKeepsValid(d, n, row);
    var e := d.Put(n, row);
    forall k | 0 <= k < |d.keys|
      ensures DictTopology(e)[k] == DictTopology(d)[k]
    {
      assert d.keys[k] in d.keys;
    }
  }

  lemma CloneKeyIsNew(norm: Dict<Name, Dict<Name, nat>>, k: nat, s: string)
    requires norm.Valid() && FreshKeys(norm, s) && k < |norm.keys|
    ensures norm.keys[k] + s !in norm.keys + Clones(norm.keys[..k], s)
  {
    var n := norm.keys[k];
    assert n in norm.keys;
    if n + s in norm.keys + Clones(norm.keys[..k], s) {
      var i :| 0 <= i < |norm.keys[..k]| && Clones(norm.keys[..k], s)[i] == n + s;
      SuffixInjective(norm.keys[i], n, s);
    }
  }

  lemma CloneNext(full: Dict<Name, Dict<Name, nat>>, norm: Dict<Name, Dict<Name, nat>>, k: nat, s: string)
    requires ValidRows(norm) && FreshKeys(norm, s) && k < |norm.keys| && PartlyCloned(full, norm, k, s)
    requires norm.keys[k] in norm.vals
    ensures PartlyCloned(full.Put(norm.keys[k] + s, CloneRow(norm.vals[norm.keys[k]], s)), norm, k + 1, s)
  {
    hide Dict.Put;
    var n := norm.keys[k];
    var row := norm.vals[n];
    CloneRowIs(row, s);
    CloneKeyIsNew(norm, k, s);
    DictTopologyPut(full, n + s, CloneRow(row, s));
    ClonedNetwork(n, row, s);
    assert DictTopology(norm)[k] == DictNetwork(n, row);
    hide CloneRow, DictTopology, DictNetwork, CloneNet, ValidRows, FreshKeys;
    ClonesNext(norm.keys, k, s);
    CloneOfNext(DictTopology(norm), k, s);
  }

  lemma ClonesNext(names: seq<Name>, k: nat, s: string)
    requires k < |names|
    ensures Clones(names[..k + 1], s) == Clones(names[..k], s) + [names[k] + s]
  {
  }

  lemma CloneOfNext(t: Topology, k: nat, s: string)
    requires k < |t|
    ensures CloneOf(t[..k + 1], s) == CloneOf(t[..k], s) + [CloneNet(t[k], s)]
  {
    hide CloneNet;
  }

  /** The dictionary once the first `k` networks have their clones, whatever the names are */
  function WithClones(norm: Dict<Name, Dict<Name, nat>>, k: nat, s: string): Dict<Name, Dict<Name, nat>>
    requires k <= |norm.keys| && ValidRows(norm)
  {
    if k == 0 then norm
    else
      var n := norm.keys[k - 1];
      assert n in norm.keys;
      WithClones(norm, k - 1, s).Put(n + s, CloneRow(norm.vals[n], s))
  }

  /** Every network has its clone. */
  lemma {:induction false} CloneIsThere(norm: Dict<Name, Dict<Name, nat>>, k: nat, s: string, i: nat)
    requires i < k <= |norm.keys| && ValidRows(norm) && norm.keys[i] in norm.vals
    ensures norm.keys[i] + s in WithClones(norm, k, s).vals
    ensures WithClones(norm, k, s).vals[norm.keys[i] + s] == CloneRow(norm.vals[norm.keys[i]], s)
    decreases k
  {
    hide CloneRow;
    if i < k - 1 {
      CloneIsThere(norm, k - 1, s, i);
      if norm.keys[i] + s == norm.keys[k - 1] + s {
        SuffixInjective(norm.keys[i], norm.keys[k - 1], s);
      }
    }
  }

  /** What has not the name of a clone is as it was. */
  lemma {:induction false} OthersAreKept(norm: Dict<Name, Dict<Name, nat>>, k: nat, s: string, n: Name)
    requires k <= |norm.keys| && ValidRows(norm) && forall i :: 0 <= i < k ==> norm.keys[i] + s != n
    ensures n in WithClones(norm, k, s).vals <==> n in norm.vals
    ensures n in norm.vals ==> WithClones(norm, k, s).vals[n] == norm.vals[n]
    decreases k
  {
    hide CloneRow;
    if k > 0 {
      OthersAreKept(norm, k - 1, s, n);
    }
  }

  lemma RowAt(norm: Dict<Name, Dict<Name, nat>>, k: nat)
    requires ValidRows(norm) && k < |norm.keys|
    ensures norm.keys[k] in norm.vals
  {
    assert norm.keys[k] in norm.keys;
  }

  lemma NothingCloned(norm: Dict<Name, Dict<Name, nat>>, s: string)
    requires ValidRows(norm)
    ensures PartlyCloned(norm, norm, 0, s)
  {
    assert Clones(norm.keys[..0], s) == [] && CloneOf(DictTopology(norm)[..0], s) == [];
  }

  /** With fresh names, the clones follow the networks of the lab. */
  lemma {:induction false} ClonesFollow(norm: Dict<Name, Dict<Name, nat>>, k: nat, s: string)
    requires k <= |norm.keys| && ValidRows(norm) && FreshKeys(norm, s)
    ensures PartlyCloned(WithClones(norm, k, s), norm, k, s)
  {
    hide PartlyCloned, FreshKeys, ValidRows, CloneRow, Dict.Put;
    if k == 0 {
      NothingCloned(norm, s);
    } else {
      ClonesFollow(norm, k - 1, s);
      RowAt(norm, k - 1);
      CloneNext(WithClones(norm, k - 1, s), norm, k - 1, s);
    }
  }

  method CloneNetworks(norm: Dict<Name, Dict<Name, nat>>, s: string) returns (full: Dict<Name, Dict<Name, nat>>)
    requires ValidRows(norm)
    ensures full == WithClones(norm, |norm.keys|, s)
  {
    full := norm;
    for k := 0 to |norm.keys|
      invariant full == WithClones(norm, k, s)
    {
      hide Dict.Put, CloneRow;
      var n := norm.keys[k];
      assert n in norm.keys && n in norm.vals;
      full := full.Put(n + s, CloneRow(norm.vals[n], s));
    }
  }

  /** The networks of `expand_topology`: with fresh names, the numbered lab followed by its clone. */
  method ExpandTopology(t: Topology, s: string) returns (full: Dict<Name, Dict<Name, nat>>)
    requires UniqueNames(t)
    ensures exists norm :: Normalizes(norm, t) && ValidRows(norm) && full == WithClones(norm, |norm.keys|, s)
    ensures Fresh(t, s) && SingleMembership(t) ==> ValidRows(full) && DictTopology(full) == Expanded(t, s)
  {
    var norm := NormalizeTopology(t);
    NormRowsValid(norm, t);
    full := CloneNetworks(norm, s);
    if Fresh(t, s) && SingleMembership(t) {
      assert FreshKeys(norm, s);
      hide Fresh, Normalizes, WithClones;
      NormIsExplicit(norm, t);
      ClonesFollow(norm, |norm.keys|, s);
      assert DictTopology(norm)[..|norm.keys|] == DictTopology(norm);
    }
  }

  // ----- its machines -----

  lemma {:induction false} NetsOfAppend(a: Topology, b: Topology, m: Name)
    ensures NetsOf(a + b, m) == NetsOf(a, m) + NetsOf(b, m)
  {
    if b == [] {
      assert a + b == a;
    } else {
      NetsOfAppend(a, b[..|b| - 1], m);
      assert (a + b)[..|a + b| - 1] == a + b[..|b| - 1];
    }
  }

  lemma {:induction false} SameNames(a: Topology, b: Topology, m: Name)
    requires |a| == |b|
    requires forall k :: 0 <= k < |a| ==> a[k].name == b[k].name && (HasMember(a[k], m) <==> HasMember(b[k], m))
    ensures NetsOf(a, m) == NetsOf(b, m)
  {
    if a != [] {
      SameNames(a[..|a| - 1], b[..|b| - 1], m);
    }
  }

  lemma ExplicitMember(net: Network, st: Numbering, m: Name)
    ensures HasMember(ExplicitNet(st, net), m) <==> HasMember(net, m)
  {
    var e := ExplicitNet(st, net);
    if HasMember(net, m) {
      var i :| 0 <= i < |net.members| && net.members[i].machine == m;
      assert e.members[i].machine == m;
    }
    if HasMember(e, m) {
      var i :| 0 <= i < |e.members| && e.members[i].machine == m;
      assert net.members[i].machine == m;
    }
  }

  lemma NetsOfExplicit(t: Topology, m: Name)
    ensures NetsOf(Explicit(t), m) == NetsOf(t, m)
  {
    hide Assign, HasMember;
    forall k | 0 <= k < |t|
      ensures HasMember(Explicit(t)[k], m) <==> HasMember(t[k], m)
    {
      ExplicitMember(t[k], Assign(t), m);
    }
    SameNames(Explicit(t), t, m);
  }

  lemma CloneMember(net: Network, m: Name, s: string)
    ensures HasMember(CloneNet(net, s), m + s) <==> HasMember(net, m)
  {
    var c := CloneNet(net, s);
    if HasMember(net, m) {
      var i :| 0 <= i < |net.members| && net.members[i].machine == m;
      assert c.members[i].machine == m + s;
    }
    if HasMember(c, m + s) {
      var i :| 0 <= i < |c.members| && c.members[i].machine == m + s;
      SuffixInjective(net.members[i].machine, m, s);
    }
  }

  lemma {:induction false} NetsOfClone(t: Topology, m: Name, s: string)
    ensures NetsOf(CloneOf(t, s), m + s) == Clones(NetsOf(t, m), s)
  {
    if t != [] {
      var front := t[..|t| - 1];
      NetsOfClone(front, m, s);
      assert CloneOf(t, s)[..|t| - 1] == CloneOf(front, s);
      CloneMember(t[|t| - 1], m, s);
    }
  }

  /** A name that is no machine's clone is in no cloned network. */
  lemma {:induction false} NetsOfNoClone(t: Topology, x: Name, s: string)
    requires forall m :: IsMachine(t, m) ==> m + s != x
    ensures NetsOf(CloneOf(t, s), x) == []
  {
    if t != [] {
      var front := t[..|t| - 1];
      var last := t[|t| - 1];
      forall m | IsMachine(front, m)
        ensures IsMachine(t, m)
      {
      }
      NetsOfNoClone(front, x, s);
      assert CloneOf(t, s)[..|t| - 1] == CloneOf(front, s);
      if HasMember(CloneNet(last, s), x) {
        var i :| 0 <= i < |last.members| && last.members[i].machine + s == x;
        assert HasMember(last, last.members[i].machine);
        assert false;
      }
    }
  }

  lemma MachineExplicit(t: Topology, m: Name)
    ensures IsMachine(Explicit(t), m) <==> IsMachine(t, m)
  {
    NetsOfExplicit(t, m);
  }

  /** A machine of the lab keeps its networks, and its clone has the cloned ones. */
  lemma NetsOfExpanded(t: Topology, s: string, m: Name)
    requires Fresh(t, s) && IsMachine(t, m)
    ensures NetsOf(Expanded(t, s), m) == NetsOf(t, m)
    ensures NetsOf(Expanded(t, s), m + s) == Clones(NetsOf(t, m), s)
  {
    var e := Explicit(t);
    NetsOfAppend(e, CloneOf(e, s), m);
    NetsOfAppend(e, CloneOf(e, s), m + s);
    NetsOfExplicit(t, m);
    NetsOfExplicit(t, m + s);
    NetsOfClone(e, m, s);
    forall m2 | IsMachine(e, m2)
      ensures m2 + s != m
    {
      MachineExplicit(t, m2);
    }
    NetsOfNoClone(e, m, s);
    assert !IsMachine(t, m + s);
  }

  // ----- the order of its machines -----

  /** `AddMembers`, network after network. */
  function MachinesOver(machines: seq<Name>, t: Topology): seq<Name> {
    if t == [] then machines
    else AddMembers(MachinesOver(machines, t[..|t| - 1]), t[|t| - 1].members)
  }

  lemma {:induction false} MachinesAppend(a: Topology, b: Topology)
    ensures Machines(a + b) == MachinesOver(Machines(a), b)
  {
    if b == [] {
      assert a + b == a;
    } else {
      MachinesAppend(a, b[..|b| - 1]);
      assert (a + b)[..|a + b| - 1] == a + b[..|b| - 1];
    }
  }

  lemma {:induction false} AddSameMembers(machines: seq<Name>, a: seq<Attachment>, b: seq<Attachment>)
    requires |a| == |b| && forall i :: 0 <= i < |a| ==> a[i].machine == b[i].machine
    ensures AddMembers(machines, a) == AddMembers(machines, b)
  {
    if a != [] {
      AddSameMembers(machines, a[..|a| - 1], b[..|b| - 1]);
    }
  }

  lemma {:induction false} MachinesExplicit(t: Topology, e: Topology, st: Numbering)
    requires |e| == |t| && forall k :: 0 <= k < |t| ==> e[k] == ExplicitNet(st, t[k])
    ensures Machines(e) == Machines(t)
  {
    if t != [] {
      MachinesExplicit(t[..|t| - 1], e[..|e| - 1], st);
      AddSameMembers(Machines(t[..|t| - 1]), e[|e| - 1].members, t[|t| - 1].members);
    }
  }

  /** Adding clones after names that are no clones adds the clones alone. */
  lemma {:induction false} AddClones(machines: seq<Name>, done: seq<Name>, members: seq<Attachment>,
                                     cloned: seq<Attachment>, s: string)
    requires |cloned| == |members| && forall i :: 0 <= i < |members| ==> cloned[i].machine == members[i].machine + s
    requires forall i, m :: 0 <= i < |members| && m in machines ==> m != members[i].machine + s
    ensures AddMembers(machines + Clones(done, s), cloned) == machines + Clones(AddMembers(done, members), s)
  {
    if members != [] {
      var front := members[..|members| - 1];
      var m := members[|members| - 1].machine;
      AddClones(machines, done, front, cloned[..|cloned| - 1], s);
      var before := AddMembers(done, front);
      CloneIn(before, m, s);
      assert cloned[|cloned| - 1].machine == m + s;
      assert m + s in machines + Clones(before, s) <==> m in before;
      assert Clones(before + [m], s) == Clones(before, s) + [m + s];
      assert machines + (Clones(before, s) + [m + s]) == (machines + Clones(before, s)) + [m + s];
    }
  }

  lemma CloneIn(names: seq<Name>, m: Name, s: string)
    ensures m + s in Clones(names, s) <==> m in names
  {
    if m in names {
      var i :| 0 <= i < |names| && names[i] == m;
      assert Clones(names, s)[i] == m + s;
    }
    if m + s in Clones(names, s) {
      var i :| 0 <= i < |names| && Clones(names, s)[i] == m + s;
      SuffixInjective(names[i], m, s);
    }
  }

  ghost predicate NoneIsClone(machines: seq<Name>, t: Topology, s: string) {
    forall k, i, m :: 0 <= k < |t| && 0 <= i < |t[k].members| && m in machines ==> m != t[k].members[i].machine + s
  }

  lemma {:induction false} MachinesOfClone(machines: seq<Name>, t: Topology, s: string)
    requires NoneIsClone(machines, t, s)
    ensures MachinesOver(machines, CloneOf(t, s)) == machines + Clones(Machines(t), s)
  {
    if t == [] {
      assert Clones([], s) == [];
    } else {
      var front := t[..|t| - 1];
      var last := t[|t| - 1];
      MachinesOfClone(machines, front, s);
      assert CloneOf(t, s)[..|t| - 1] == CloneOf(front, s);
      AddClones(machines, Machines(front), last.members, CloneNet(last, s).members, s);
    }
  }

  lemma {:induction false} MachinesAre(t: Topology, m: Name)
    ensures m in Machines(t) <==> IsMachine(t, m)
  {
    if t != [] {
      MachinesAre(t[..|t| - 1], m);
      AddedMembers(Machines(t[..|t| - 1]), t[|t| - 1], m);
    }
  }

  lemma {:induction false} AddedMembers(machines: seq<Name>, net: Network, m: Name)
    ensures m in AddMembers(machines, net.members) <==> m in machines || HasMember(net, m)
    decreases |net.members|
  {
    if net.members != [] {
      var front := Network(net.name, net.members[..|net.members| - 1]);
      AddedMembers(machines, front, m);
      LastMember(net.name, net.members, m);
      assert HasMember(net, m) <==> HasMember(Network(net.name, net.members), m);
    }
  }

  /** The machines of the lab come first, then their clones in the same order. */
  lemma MachinesExpanded(t: Topology, s: string)
    requires Fresh(t, s)
    ensures Machines(Expanded(t, s)) == Machines(t) + Clones(Machines(t), s)
  {
    var e := Explicit(t);
    MachinesExplicit(t, e, Assign(t));
    MachinesAppend(e, CloneOf(e, s));
    forall k, i, m | 0 <= k < |e| && 0 <= i < |e[k].members| && m in Machines(t)
      ensures m != e[k].members[i].machine + s
    {
      MachinesAre(t, m);
      var m2 := e[k].members[i].machine;
      assert HasMember(t[k], m2) by {
        assert t[k].members[i].machine == m2;
      }
      NetsOfMembers(t, m2);
      assert OnNet(t, m2, t[k].name);
      assert t[k].name in NetsOf(t, m2);
    }
    MachinesOfClone(Machines(t), e, s);
  }

  // ----- its numbers -----

  lemma {:induction false} DeclaredNumber(t: Topology, k: nat, i: nat, v: nat)
    requires UniqueNames(t) && SingleMembership(t) && k < |t| && i < |t[k].members|
    requires t[k].members[i].spec == Some(v)
    ensures t[k].name in Row(Assign(t), t[k].members[i].machine).vals
    ensures Row(Assign(t), t[k].members[i].machine).vals[t[k].name] == v
    decreases |t|
  {
    var m := t[k].members[i].machine;
    if k < |t| - 1 {
      DeclaredNumber(t[..|t| - 1], k, i, v);
      NumberKept(t, m, t[k].name);
    } else {
      AttachAllNumber(Assign(t[..|t| - 1]), t[k].name, t[k].members, i);
    }
  }

  lemma ExpandedWellFormed(t: Topology, s: string)
    requires Fresh(t, s) && UniqueNames(t) && SingleMembership(t)
    ensures UniqueNames(Expanded(t, s)) && SingleMembership(Expanded(t, s))
  {
    hide Assign;
    var f := Expanded(t, s);
    forall i, j | 0 <= i < j < |f|
      ensures f[i].name != f[j].name
    {
      if i >= |t| {
        if f[i].name == f[j].name {
          SuffixInjective(t[i - |t|].name, t[j - |t|].name, s);
        }
      } else if j >= |t| {
        assert NetNames(t)[i] == t[i].name && NetNames(t)[j - |t|] == t[j - |t|].name;
        assert t[i].name in NetNames(t) && t[j - |t|].name in NetNames(t);
      }
    }
    forall k | 0 <= k < |f|
      ensures DistinctMembers(f[k].members)
    {
      var net := if k < |t| then t[k] else t[k - |t|];
      assert DistinctMembers(net.members);
      forall i, j | 0 <= i < j < |net.members|
        ensures f[k].members[i].machine != f[k].members[j].machine
      {
        if k >= |t| && f[k].members[i].machine == f[k].members[j].machine {
          SuffixInjective(net.members[i].machine, net.members[j].machine, s);
        }
      }
    }
  }

  lemma ExpandedAt(t: Topology, s: string, k: nat)
    requires k < |t|
    ensures var f := Expanded(t, s);
            |f| == 2 * |t| && f[k] == ExplicitNet(Assign(t), t[k]) && f[|t| + k] == CloneNet(f[k], s)
  {
    hide Assign;
  }

  /** Machine and clone keep the number that the lab's counter loop gave on each network. */
  lemma NumbersExpanded(t: Topology, s: string, m: Name, n: Name)
    requires Fresh(t, s) && UniqueNames(t) && SingleMembership(t)
    requires n in NetsOf(t, m)
    ensures n in Row(Assign(t), m).vals
    ensures n in Row(Assign(Expanded(t, s)), m).vals
         && Row(Assign(Expanded(t, s)), m).vals[n] == Row(Assign(t), m).vals[n]
    ensures n + s in Row(Assign(Expanded(t, s)), m + s).vals
         && Row(Assign(Expanded(t, s)), m + s).vals[n + s] == Row(Assign(t), m).vals[n]
  {
    AssignRow(t, m);
    assert n in Row(Assign(t), m).keys;
    NetsOfMembers(t, m);
    var k :| 0 <= k < |t| && t[k].name == n && HasMember(t[k], m);
    var i :| 0 <= i < |t[k].members| && t[k].members[i].machine == m;
    var v := Row(Assign(t), m).vals[n];
    ExpandedWellFormed(t, s);
    var f := Expanded(t, s);
    hide Assign, NetsOf, HasMember, Fresh, SingleMembership, DistinctMembers;
    ExpandedAt(t, s, k);
    hide Expanded;
    assert f[k].members[i] == Attachment(m, Some(v));
    DeclaredNumber(f, k, i, v);
    DeclaredNumber(f, |t| + k, i, v);
  }
}
