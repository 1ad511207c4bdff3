/**
 The graph of networks that the routes are computed on: two networks are joined by every
 machine attached to both.
 */
module RoutingGraph {
  import opened Dicts
  import opened Topologies

  /** A step from a network to `net` through the multi-homed machine `router`. */
  datatype Edge = Edge(net: Name, router: Name)

  type Graph = map<Name, seq<Edge>>

  /** The steps through `router` to each network of `nets`, in order. */
  function StepsThrough(nets: seq<Name>, router: Name): (edges: seq<Edge>)
    ensures |edges| == |nets|
    ensures forall i :: 0 <= i < |nets| ==> edges[i] == Edge(nets[i], router)
  {
    seq(|nets|, i requires 0 <= i < |nets| => Edge(nets[i], router))
  }

  /** The steps that machine `m`, attached to `nets`, offers from network `n`: to each of its
      other networks, in the order of its interfaces. */
  function StepsAt(nets: seq<Name>, m: Name, n: Name): seq<Edge> {
    if n in nets then
      var k := IndexOf(nets, n);
      StepsThrough(nets[..k] + nets[k + 1..], m)
    else
      []
  }

  function IndexOf(nets: seq<Name>, n: Name): (k: nat)
    requires n in nets
    ensures k < |nets| && nets[k] == n
  {
    if nets[0] == n then 0
    else
      1 + IndexOf(nets[1..], n)
  }

  /** All steps from network `n`, machine by machine. */
  function StepsFrom(machines: seq<Name>, rows: map<Name, Dict<Name, nat>>, n: Name): seq<Edge>
    requires forall m :: m in machines ==> m in rows
  {
    if machines == [] then []
    else
      var m := machines[|machines| - 1];
      StepsFrom(machines[..|machines| - 1], rows, n) + StepsAt(rows[m].keys, m, n)
  }

  function GraphOf(t: Topology, ifaces: Interfaces): Graph
    requires ifaces.Valid()
  {
    map n | n in NetNames(t) :: StepsFrom(ifaces.keys, ifaces.vals, n)
  }

  /** Every interface is on a network of the topology. */
  ghost predicate OnTopology(t: Topology, ifaces: Interfaces) {
    && ifaces.Valid()
    && forall m :: m in ifaces.vals ==>
         Distinct(ifaces.vals[m].keys) && forall n :: n in ifaces.vals[m].keys ==> n in NetNames(t)
  }

  // ----- the nested loops that build the graph -----

  /** The part of `StepsAt(nets, m, n)` added once the pairs before `(i, j)` are done. */
  function StepsSoFar(nets: seq<Name>, m: Name, n: Name, i: nat, j: nat): seq<Edge>
    requires i <= |nets| && j <= |nets| && (i < |nets| ==> i < j)
  {
    if n in nets then
      var k := IndexOf(nets, n);
      if k < i then StepsThrough(nets[..k] + nets[k + 1..], m)
      else if k == i then StepsThrough(nets[..i] + nets[i + 1..j], m)
      else StepsThrough(nets[..i] + (if k < j && i < |nets| then [nets[i]] else []), m)
    else
      []
  }

  lemma StepsAppend(a: seq<Name>, n: Name, m: Name)
    ensures StepsThrough(a + [n], m) == StepsThrough(a, m) + [Edge(n, m)]
  {
  }

  /** Handling the pair `(i, j)` appends one step at each of its two ends and nowhere else. */
  lemma PairStep(nets: seq<Name>, m: Name, n: Name, i: nat, j: nat)
    requires Distinct(nets) && i < j < |nets|
    ensures StepsSoFar(nets, m, n, i, j + 1)
         == StepsSoFar(nets, m, n, i, j)
            + (if n == nets[i] then [Edge(nets[j], m)] else if n == nets[j] then [Edge(nets[i], m)] else [])
  {
    if n in nets {
      var k := IndexOf(nets, n);
      if k == i {
        assert nets[..i] + nets[i + 1..j + 1] == (nets[..i] + nets[i + 1..j]) + [nets[j]];
        StepsAppend(nets[..i] + nets[i + 1..j], nets[j], m);
      } else if k == j {
        assert nets[..i] + [] == nets[..i];
        StepsAppend(nets[..i], nets[i], m);
      }
    }
  }

  function FirstPartner(nets: seq<Name>, i: nat): (j: nat)
    requires i <= |nets|
    ensures j <= |nets| && (i < |nets| ==> i < j)
  {
    if i < |nets| then i + 1 else |nets|
  }

  /** Finishing the inner loop for `i` is starting the one for `i + 1`. */
  lemma RowStep(nets: seq<Name>, m: Name, n: Name, i: nat)
    requires Distinct(nets) && i < |nets|
    ensures StepsSoFar(nets, m, n, i, |nets|)
         == StepsSoFar(nets, m, n, i + 1, FirstPartner(nets, i + 1))
  {
    if n in nets {
      var k := IndexOf(nets, n);
      if k == i {
        assert nets[i + 1..|nets|] == nets[i + 1..];
      } else if k == i + 1 {
        assert nets[..i] + [nets[i]] == nets[..i + 1] + nets[i + 2..i + 2];
      } else if i < k {
        assert nets[..i] + [nets[i]] == nets[..i + 1] + [];
      }
    }
  }

  /** `g` with the steps that machine `m` has contributed once the pairs before `(i, j)` are done. */
  function Contributed(g: Graph, nets: seq<Name>, m: Name, i: nat, j: nat): (g': Graph)
    requires i <= |nets| && j <= |nets| && (i < |nets| ==> i < j)
    ensures g'.Keys == g.Keys
  {
    map n | n in g :: g[n] + StepsSoFar(nets, m, n, i, j)
  }

  /** `g` after joining `a` and `b` in both directions through `m`. */
  function Joined(g: Graph, a: Name, b: Name, m: Name): Graph
    requires a in g && b in g && a != b
  {
    g[a := g[a] + [Edge(b, m)]][b := g[b] + [Edge(a, m)]]
  }

  lemma JoinedAt(g: Graph, a: Name, b: Name, m: Name, n: Name)
    requires a in g && b in g && n in g && a != b
    ensures Joined(g, a, b, m)[n] == g[n] + (if n == a then [Edge(b, m)] else if n == b then [Edge(a, m)] else [])
  {
    assert g[n] + [] == g[n];
  }

  lemma ContributedPairAt(g: Graph, nets: seq<Name>, m: Name, i: nat, j: nat, n: Name)
    requires Distinct(nets) && i < j < |nets| && nets[i] in g && nets[j] in g && n in g
    ensures Joined(Contributed(g, nets, m, i, j), nets[i], nets[j], m)[n]
         == Contributed(g, nets, m, i, j + 1)[n]
  {
    JoinedAt(Contributed(g, nets, m, i, j), nets[i], nets[j], m, n);
    PairStep(nets, m, n, i, j);
    hide StepsSoFar, Distinct, Joined;
    var step := if n == nets[i] then [Edge(nets[j], m)] else if n == nets[j] then [Edge(nets[i], m)] else [];
    var s := StepsSoFar(nets, m, n, i, j);
    assert (g[n] + s) + step == g[n] + (s + step);
  }

  lemma ContributedPair(g: Graph, nets: seq<Name>, m: Name, i: nat, j: nat)
    requires Distinct(nets) && i < j < |nets| && nets[i] in g && nets[j] in g
    ensures Joined(Contributed(g, nets, m, i, j), nets[i], nets[j], m) == Contributed(g, nets, m, i, j + 1)
  {
    var g1 := Joined(Contributed(g, nets, m, i, j), nets[i], nets[j], m);
    var g2 := Contributed(g, nets, m, i, j + 1);
    assert g1.Keys == g2.Keys;
    forall n | n in g
      ensures g1[n] == g2[n]
    {
      ContributedPairAt(g, nets, m, i, j, n);
    }
  }

  lemma ContributedRow(g: Graph, nets: seq<Name>, m: Name, i: nat)
    requires Distinct(nets) && i < |nets|
    ensures Contributed(g, nets, m, i, |nets|) == Contributed(g, nets, m, i + 1, FirstPartner(nets, i + 1))
  {
    forall n | n in g
      ensures StepsSoFar(nets, m, n, i, |nets|) == StepsSoFar(nets, m, n, i + 1, FirstPartner(nets, i + 1))
    {
      RowStep(nets, m, n, i);
    }
  }

  lemma ContributedNothing(g: Graph, nets: seq<Name>, m: Name)
    ensures Contributed(g, nets, m, 0, FirstPartner(nets, 0)) == g
  {
    forall n | n in g
      ensures g[n] + StepsSoFar(nets, m, n, 0, FirstPartner(nets, 0)) == g[n]
    {
      if n in nets {
        var k := IndexOf(nets, n);
        assert nets[..0] + nets[1..1] == [];
        assert nets[..0] + [] == [];
      }
    }
  }

  /** `g` with all the steps of machine `m`. */
  function WithMachine(g: Graph, nets: seq<Name>, m: Name): Graph {
    map n | n in g :: g[n] + StepsAt(nets, m, n)
  }

  lemma ContributedAll(g: Graph, nets: seq<Name>, m: Name)
    ensures Contributed(g, nets, m, |nets|, |nets|) == WithMachine(g, nets, m)
  {
    forall n | n in g
      ensures StepsSoFar(nets, m, n, |nets|, |nets|) == StepsAt(nets, m, n)
    {
    }
  }

  /** The inner loop: join the network at `i` to each later one. */
  method JoinRow(g: Graph, ghost base: Graph, nets: seq<Name>, m: Name, i: nat) returns (g': Graph)
    requires Distinct(nets) && i < |nets|
    requires forall n :: n in nets ==> n in base
    requires g == Contributed(base, nets, m, i, i + 1)
    ensures g' == Contributed(base, nets, m, i, |nets|)
  {
    hide Contributed;
    g' := g;
    var j := i + 1;
    while j < |nets|
      invariant i < j <= |nets|
      invariant g' == Contributed(base, nets, m, i, j)
    {
      ContributedPair(base, nets, m, i, j);
      assert nets[i] != nets[j] && nets[i] in nets && nets[j] in nets;
      g' := Joined(g', nets[i], nets[j], m);
      j := j + 1;
    }
  }

  /** The outer loop over the networks of one machine. */
  method JoinAll(g: Graph, nets: seq<Name>, m: Name) returns (g': Graph)
    requires Distinct(nets)
    requires forall n :: n in nets ==> n in g
    ensures g' == WithMachine(g, nets, m)
  {
    g' := g;
    ContributedNothing(g, nets, m);
    var i := 0;
    while i < |nets|
      invariant i <= |nets|
      invariant g' == Contributed(g, nets, m, i, FirstPartner(nets, i))
    {
      g' := JoinRow(g', g, nets, m, i);
      ContributedRow(g, nets, m, i);
      i := i + 1;
    }
    ContributedAll(g, nets, m);
  }

  method BuildGraph(t: Topology, ifaces: Interfaces) returns (g: Graph)
    requires OnTopology(t, ifaces)
    ensures g == GraphOf(t, ifaces)
  {
    g := map n | n in NetNames(t) :: [];
    for k := 0 to |ifaces.keys|
      invariant g.Keys == set n | n in NetNames(t)
      invariant forall n :: n in g ==> g[n] == StepsFrom(ifaces.keys[..k], ifaces.vals, n)
    {
      var m := ifaces.keys[k];
      assert m in ifaces.vals;
      g := JoinAll(g, ifaces.vals[m].keys, m);
      assert ifaces.keys[..k + 1][..k] == ifaces.keys[..k];
    }
    assert ifaces.keys[..|ifaces.keys|] == ifaces.keys;
  }

  // ----- what the graph contains -----

  lemma {:induction false} StepsFromMembers(machines: seq<Name>, rows: map<Name, Dict<Name, nat>>, n: Name, e: Edge)
    requires forall m :: m in machines ==> m in rows && Distinct(rows[m].keys)
    ensures e in StepsFrom(machines, rows, n)
       <==> e.router in machines && n in rows[e.router].keys && e.net in rows[e.router].keys && e.net != n
  {
    if machines != [] {
      var m := machines[|machines| - 1];
      StepsFromMembers(machines[..|machines| - 1], rows, n, e);
      var nets := rows[m].keys;
      assert e in StepsAt(nets, m, n) <==> e.router == m && n in nets && e.net in nets && e.net != n by {
        if n in nets {
          var k := IndexOf(nets, n);
          var rest := nets[..k] + nets[k + 1..];
          forall x
            ensures x in rest <==> x in nets && x != n
          {
            if x in nets && x != n {
              var i :| 0 <= i < |nets| && nets[i] == x;
              assert i < k ==> rest[i] == x;
              assert i > k ==> rest[i - 1] == x;
            }
          }
          if e.net in rest && e.router == m {
            var i :| 0 <= i < |rest| && rest[i] == e.net;
            assert StepsThrough(rest, m)[i] == e;
          }
        }
      }
    }
  }

  /** A step `n -> e.net` through `e.router` is in the graph exactly when that machine is attached
      to both networks and they differ. */
  lemma GraphEdges(t: Topology, ifaces: Interfaces, n: Name, e: Edge)
    requires OnTopology(t, ifaces) && n in NetNames(t)
    ensures e in GraphOf(t, ifaces)[n]
       <==> e.router in ifaces.vals && n in ifaces.vals[e.router].keys
            && e.net in ifaces.vals[e.router].keys && e.net != n
  {
    StepsFromMembers(ifaces.keys, ifaces.vals, n, e);
  }
}
