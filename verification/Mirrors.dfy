/**
 The hidden mirror: in the expanded topology, with the addressing copied, every machine is
 configured as in the lab alone, and every clone as its original.
 */
module Mirrors {
  import opened Dicts
  import opened Topologies
  import opened RoutingGraph
  import opened FirstHops
  import opened IpAddresses
  import opened TopologyConfig
  import opened MirrorTopology
  import opened MirrorFacts
  import opened MirrorSearch
  import opened MirrorRouting

  // ----- the graph of the expanded topology -----

  /** The rows of a machine and of its clone, on the networks and on their clones. */
  lemma {:induction false} StepsOfLab(machines: seq<Name>, rows: map<Name, Dict<Name, nat>>, rows2: map<Name, Dict<Name, nat>>, n: Name)
    requires forall m :: m in machines ==> m in rows && m in rows2 && rows2[m].keys == rows[m].keys
    ensures StepsFrom(machines, rows2, n) == StepsFrom(machines, rows, n)
  {
    hide StepsAt;
    if machines != [] {
      var m := machines[|machines| - 1];
      assert m in machines;
      StepsOfLab(machines[..|machines| - 1], rows, rows2, n);
    }
  }

  lemma {:induction false} StepsAppend(a: seq<Name>, b: seq<Name>, rows: map<Name, Dict<Name, nat>>, n: Name)
    requires forall m :: m in a ==> m in rows
    requires forall m :: m in b ==> m in rows
    ensures StepsFrom(a + b, rows, n) == StepsFrom(a, rows, n) + StepsFrom(b, rows, n)
  {
    hide StepsAt;
    if b == [] {
      assert a + b == a;
    } else {
      assert (a + b)[..|a + b| - 1] == a + b[..|b| - 1];
      StepsAppend(a, b[..|b| - 1], rows, n);
    }
  }

  lemma {:induction false} NoSteps(machines: seq<Name>, rows: map<Name, Dict<Name, nat>>, n: Name)
    requires forall m :: m in machines ==> m in rows && n !in rows[m].keys
    ensures StepsFrom(machines, rows, n) == []
  {
    if machines != [] {
      assert machines[|machines| - 1] in machines;
      NoSteps(machines[..|machines| - 1], rows, n);
    }
  }

  lemma IndexOfClone(nets: seq<Name>, n: Name, s: string)
    requires n in nets && n + s in Clones(nets, s)
    ensures IndexOf(Clones(nets, s), n + s) == IndexOf(nets, n)
    decreases |nets|
  {
    if nets[0] == n {
    } else {
      if nets[0] + s == n + s {
        SuffixInjective(nets[0], n, s);
      }
      assert Clones(nets, s)[1..] == Clones(nets[1..], s);
      IndexOfClone(nets[1..], n, s);
    }
  }

  lemma StepsAtClone(nets: seq<Name>, m: Name, n: Name, s: string)
    ensures StepsAt(Clones(nets, s), m + s, n + s) == CloneEdges(StepsAt(nets, m, n), s)
  {
    CloneMembers(nets, n, s);
    if n in nets {
      IndexOfClone(nets, n, s);
      var k := IndexOf(nets, n);
      var rest := nets[..k] + nets[k + 1..];
      assert Clones(nets, s)[..k] + Clones(nets, s)[k + 1..] == Clones(rest, s);
      assert StepsThrough(Clones(rest, s), m + s) == CloneEdges(StepsThrough(rest, m), s);
    } else {
      assert CloneEdges([], s) == [];
    }
  }

  lemma CloneEdgesAppend(a: seq<Edge>, b: seq<Edge>, s: string)
    ensures CloneEdges(a + b, s) == CloneEdges(a, s) + CloneEdges(b, s)
  {
  }

  lemma {:induction false} StepsOfClones(machines: seq<Name>, rows: map<Name, Dict<Name, nat>>,
                                         rows2: map<Name, Dict<Name, nat>>, n: Name, s: string)
    requires forall m :: m in machines ==> m in rows && m + s in rows2 && rows2[m + s].keys == Clones(rows[m].keys, s)
    requires forall x :: x in Clones(machines, s) ==> x in rows2
    ensures StepsFrom(Clones(machines, s), rows2, n + s) == CloneEdges(StepsFrom(machines, rows, n), s)
  {
    if machines == [] {
      assert Clones(machines, s) == [] && CloneEdges([], s) == [];
    } else {
      var front := machines[..|machines| - 1];
      var m := machines[|machines| - 1];
      assert m in machines;
      assert Clones(machines, s)[..|machines| - 1] == Clones(front, s);
      assert Clones(machines, s)[|machines| - 1] == m + s;
      hide StepsAt, Clones, CloneEdges;
      StepsOfClones(front, rows, rows2, n, s);
      StepsAtClone(rows[m].keys, m, n, s);
      CloneEdgesAppend(StepsFrom(front, rows, n), StepsAt(rows[m].keys, m, n), s);
    }
  }

  lemma FrontOfClones(t: Topology, s: string, n: Name)
    requires Fresh(t, s) && n in NetNames(t)
    ensures forall n2 :: n2 in NetNames(t) ==> n + s != n2 && n2 + s != n
  {
  }

  lemma NamesExpanded(t: Topology, s: string)
    ensures NetNames(Expanded(t, s)) == NetNames(t) + Clones(NetNames(t), s)
  {
    var e := Explicit(t);
    NetNamesAppend(e, CloneOf(e, s));
    assert NetNames(e) == NetNames(t);
    assert NetNames(CloneOf(e, s)) == Clones(NetNames(t), s);
  }

  /** The rows of the expanded numbering. */
  lemma RowsExpanded(t: Topology, s: string, m: Name)
    requires Fresh(t, s) && UniqueNames(t) && SingleMembership(t) && IsMachine(t, m)
    ensures var i, i2 := Assign(t).ifaces, Assign(Expanded(t, s)).ifaces;
      && m in i.vals && m in i2.vals && m + s in i2.vals
      && i.vals[m].keys == NetsOf(t, m) && i2.vals[m].keys == NetsOf(t, m)
      && i2.vals[m + s].keys == Clones(NetsOf(t, m), s)
      && (forall n :: n in i.vals[m].vals ==>
            && n in i2.vals[m].vals && i2.vals[m].vals[n] == i.vals[m].vals[n]
            && n + s in i2.vals[m + s].vals && i2.vals[m + s].vals[n + s] == i.vals[m].vals[n])
  {
    var f := Expanded(t, s);
    ExpandedWellFormed(t, s);
    NetsOfExpanded(t, s, m);
    AssignRow(t, m);
    AssignRow(f, m);
    AssignRow(f, m + s);
    hide Assign, NetsOf, Expanded;
    forall n | n in Row(Assign(t), m).vals
      ensures && n in Row(Assign(f), m).vals && Row(Assign(f), m).vals[n] == Row(Assign(t), m).vals[n]
              && n + s in Row(Assign(f), m + s).vals && Row(Assign(f), m + s).vals[n + s] == Row(Assign(t), m).vals[n]
    {
      assert n in Row(Assign(t), m).keys;
      NumbersExpanded(t, s, m, n);
    }
  }

  lemma NetIsName(t: Topology, m: Name, n: Name)
    requires n in NetsOf(t, m)
    ensures n in NetNames(t)
  {
    NetsOfMembers(t, m);
    var k :| 0 <= k < |t| && t[k].name == n && HasMember(t[k], m);
    assert NetNames(t)[k] == n;
  }

  lemma RowNames(t: Topology, m: Name)
    ensures forall x :: x in NetsOf(t, m) ==> x in NetNames(t)
  {
    forall x | x in NetsOf(t, m)
      ensures x in NetNames(t)
    {
      NetIsName(t, m, x);
    }
  }

  lemma StepsAre(t: Topology, ifaces: Interfaces, n: Name)
    requires ifaces.Valid() && n in NetNames(t)
    ensures n in GraphOf(t, ifaces) && StepsOf(GraphOf(t, ifaces), n) == StepsFrom(ifaces.keys, ifaces.vals, n)
    ensures GraphOf(t, ifaces)[n] == StepsFrom(ifaces.keys, ifaces.vals, n)
  {
    hide NetNames, StepsFrom;
  }

  /** The steps from a network of the lab, and from its clone, in the expanded graph. */
  lemma StepsExpanded(t: Topology, s: string, n: Name)
    requires Fresh(t, s) && UniqueNames(t) && SingleMembership(t) && n in NetNames(t)
    requires Assign(t).ifaces.Valid() && Assign(Expanded(t, s)).ifaces.Valid()
    ensures n in GraphOf(t, Assign(t).ifaces)
    ensures StepsOf(GraphOf(Expanded(t, s), Assign(Expanded(t, s)).ifaces), n) == GraphOf(t, Assign(t).ifaces)[n]
    ensures StepsOf(GraphOf(Expanded(t, s), Assign(Expanded(t, s)).ifaces), n + s)
         == CloneEdges(GraphOf(t, Assign(t).ifaces)[n], s)
  {
    hide Assign, Machines, NetsOf, Expanded, NetNames, Fresh, StepsFrom, GraphOf, StepsOf;
    var f := Expanded(t, s);
    var i, i2 := Assign(t).ifaces, Assign(f).ifaces;
    var ms := Machines(t);
    AssignKeys(t);
    AssignKeys(f);
    MachinesExpanded(t, s);
    NamesExpanded(t, s);
    CloneMembers(NetNames(t), n, s);
    FrontOfClones(t, s, n);
    forall m | m in ms
      ensures m in i.vals && m in i2.vals && m + s in i2.vals
      ensures i2.vals[m].keys == i.vals[m].keys && i2.vals[m + s].keys == Clones(i.vals[m].keys, s)
      ensures forall x :: x in i.vals[m].keys ==> x in NetNames(t)
    {
      MachinesAre(t, m);
      RowsExpanded(t, s, m);
      RowNames(t, m);
    }
    LabSteps(ms, i.vals, i2.vals, n, s, NetNames(t));
    StepsAre(t, i, n);
    StepsAre(f, i2, n);
    StepsAre(f, i2, n + s);
  }

  lemma NotAClone(names: seq<Name>, n: Name, s: string)
    requires forall x :: x in names ==> x + s != n
    ensures n !in Clones(names, s)
  {
  }

  /** Both kinds of steps, machine by machine: the clones offer none from a network of the lab, and
      the machines of the lab none from a clone. */
  lemma LabSteps(ms: seq<Name>, rows: map<Name, Dict<Name, nat>>, rows2: map<Name, Dict<Name, nat>>, n: Name, s: string,
                 names: seq<Name>)
    requires forall m :: m in ms ==> m in rows && m in rows2 && m + s in rows2
    requires forall m :: m in ms ==> rows2[m].keys == rows[m].keys && rows2[m + s].keys == Clones(rows[m].keys, s)
    requires forall m, x :: m in ms && x in rows[m].keys ==> x in names
    requires n in names && forall x :: x in names ==> x + s != n && n + s != x
    requires forall x :: x in ms + Clones(ms, s) ==> x in rows2
    ensures StepsFrom(ms + Clones(ms, s), rows2, n) == StepsFrom(ms, rows, n)
    ensures StepsFrom(ms + Clones(ms, s), rows2, n + s) == CloneEdges(StepsFrom(ms, rows, n), s)
  {
    hide StepsFrom;
    forall x | x in Clones(ms, s)
      ensures x in rows2 && n !in rows2[x].keys
    {
      var i :| 0 <= i < |ms| && Clones(ms, s)[i] == x;
      assert ms[i] in ms;
      NotAClone(rows[ms[i]].keys, n, s);
    }
    StepsAppend(ms, Clones(ms, s), rows2, n);
    StepsAppend(ms, Clones(ms, s), rows2, n + s);
    StepsOfLab(ms, rows, rows2, n);
    NoSteps(Clones(ms, s), rows2, n);
    NoSteps(ms, rows2, n + s);
    StepsOfClones(ms, rows, rows2, n, s);
  }
}
