/**
 The search run on a renamed copy of a graph, inside any larger graph, finds the renamed hop.
 */
module MirrorSearch {
  import opened Wrappers
  import opened Topologies
  import opened RoutingGraph
  import opened FirstHops
  import opened MirrorTopology

  function CloneEdges(edges: seq<Edge>, s: string): (r: seq<Edge>)
    ensures |r| == |edges| && forall i :: 0 <= i < |edges| ==> r[i] == Edge(edges[i].net + s, edges[i].router + s)
  {
    seq(|edges|, i requires 0 <= i < |edges| => Edge(edges[i].net + s, edges[i].router + s))
  }

  function CloneHop(h: Hop, s: string): Hop {
    Hop(h.via + s, h.router + s)
  }

  function CloneFound(r: Option<Hop>, s: string): Option<Hop> {
    match r
    case None => None
    case Some(h) => Some(CloneHop(h, s))
  }

  function CloneOrigin(o: Origin, s: string): Origin {
    match o
    case FromStart(n) => FromStart(n + s)
    case Inherited(h) => Inherited(CloneHop(h, s))
  }

  function CloneItems(q: seq<Item>, s: string): (r: seq<Item>)
    ensures |r| == |q| && forall i :: 0 <= i < |q| ==> r[i] == Item(q[i].net + s, CloneHop(q[i].hop, s))
  {
    seq(|q|, i requires 0 <= i < |q| => Item(q[i].net + s, CloneHop(q[i].hop, s)))
  }

  /** Graph `g2` repeats graph `g` on the renamed networks. */
  ghost predicate Repeats(g: Graph, g2: Graph, s: string) {
    forall n :: n in g ==> StepsOf(g2, n + s) == CloneEdges(g[n], s)
  }

  /** Set `b` holds the renamed networks of `a`, among those of `g`. */
  ghost predicate SameOn(g: Graph, a: set<Name>, b: set<Name>, s: string) {
    forall n :: n in g ==> (n + s in b <==> n in a)
  }

  ghost predicate SameState(g: Graph, a: State, b: State, s: string) {
    && SameOn(g, a.visited, b.visited, s)
    && b.queue == CloneItems(a.queue, s)
    && forall x :: x in a.queue ==> x.net in g
  }

  lemma DiscoverOneSame(g: Graph, a: State, b: State, e: Edge, origin: Origin, s: string)
    requires SameState(g, a, b, s) && e.net in g && e.net !in a.visited
    ensures SameState(g, State(a.visited + {e.net}, a.queue + [Item(e.net, HopOf(origin, e))]),
                      State(b.visited + {e.net + s},
                            b.queue + [Item(e.net + s, HopOf(CloneOrigin(origin, s), Edge(e.net + s, e.router + s)))]), s)
  {
    forall n | n in g && n + s == e.net + s
      ensures n == e.net
    {
      SuffixInjective(n, e.net, s);
    }
    var x := Item(e.net, HopOf(origin, e));
    assert CloneItems(a.queue + [x], s) == CloneItems(a.queue, s) + CloneItems([x], s);
  }

  lemma {:induction false} DiscoverSame(g: Graph, a: State, b: State, edges: seq<Edge>, origin: Origin, s: string)
    requires SameState(g, a, b, s) && forall e :: e in edges ==> e.net in g
    ensures SameState(g, Discover(a, edges, origin), Discover(b, CloneEdges(edges, s), CloneOrigin(origin, s)), s)
  {
    if edges != [] {
      var front := edges[..|edges| - 1];
      var e := edges[|edges| - 1];
      assert e in edges;
      DiscoverSame(g, a, b, front, origin, s);
      assert CloneEdges(edges, s)[..|edges| - 1] == CloneEdges(front, s);
      var mid := Discover(a, front, origin);
      if e.net !in mid.visited {
        DiscoverOneSame(g, mid, Discover(b, CloneEdges(front, s), CloneOrigin(origin, s)), e, origin, s);
      }
    }
  }

  lemma {:induction false} SeedSame(g: Graph, g2: Graph, start: seq<Name>, a: State, b: State, s: string)
    requires Closed(g) && Repeats(g, g2, s) && SameState(g, a, b, s)
    requires forall n :: n in start ==> n in g
    ensures SameState(g, Seed(g, start, a), Seed(g2, Clones(start, s), b), s)
  {
    if start != [] {
      var front := start[..|start| - 1];
      var n := start[|start| - 1];
      assert n in start;
      SeedSame(g, g2, front, a, b, s);
      assert Clones(start, s)[..|start| - 1] == Clones(front, s);
      DiscoverSame(g, Seed(g, front, a), Seed(g2, Clones(front, s), b), g[n], FromStart(n), s);
    }
  }

  lemma {:induction false} SearchSame(g: Graph, g2: Graph, a: State, b: State,
                                      targets: set<Name>, targets2: set<Name>, s: string)
    requires Closed(g) && Closed(g2) && Repeats(g, g2, s) && SameState(g, a, b, s)
    requires SameOn(g, targets, targets2, s)
    ensures Search(g2, b, targets2) == CloneFound(Search(g, a, targets), s)
    decreases g.Keys - a.visited, |a.queue|
  {
    hide SameOn, Repeats, Discover, Closed;
    if a.queue != [] {
      var item := a.queue[0];
      assert item in a.queue;
      assert item.net + s in targets2 <==> item.net in targets by {
        SameAt(g, targets, targets2, item.net, s);
      }
      if item.net !in targets {
        var popped := State(a.visited, a.queue[1..]);
        var popped2 := State(b.visited, b.queue[1..]);
        assert CloneItems(a.queue[1..], s) == CloneItems(a.queue, s)[1..];
        StepsSame(g, g2, item.net, s);
        DiscoverSame(g, popped, popped2, g[item.net], Inherited(item.hop), s);
        SearchShrinks(g, popped, g[item.net], item.hop);
        SearchSame(g, g2, Discover(popped, g[item.net], Inherited(item.hop)),
                   Discover(popped2, StepsOf(g2, item.net + s), Inherited(CloneHop(item.hop, s))),
                   targets, targets2, s);
      }
    }
  }

  lemma SameAt(g: Graph, a: set<Name>, b: set<Name>, n: Name, s: string)
    requires SameOn(g, a, b, s) && n in g
    ensures n + s in b <==> n in a
  {
  }

  lemma StepsSame(g: Graph, g2: Graph, n: Name, s: string)
    requires Closed(g) && Repeats(g, g2, s) && n in g
    ensures StepsOf(g2, n + s) == CloneEdges(g[n], s)
    ensures forall e :: e in g[n] ==> e.net in g
  {
  }

  /** The search commutes with the renaming. */
  lemma FirstHopSame(g: Graph, g2: Graph, start: seq<Name>, targets: set<Name>, targets2: set<Name>, s: string)
    requires Closed(g) && Closed(g2) && Repeats(g, g2, s)
    requires forall n :: n in start ==> n in g
    requires SameOn(g, targets, targets2, s)
    ensures FirstHop(g2, Clones(start, s), targets2) == CloneFound(FirstHop(g, start, targets), s)
  {
    var a, b := State(SetOf(start), []), State(SetOf(Clones(start, s)), []);
    forall n | n in g
      ensures n + s in b.visited <==> n in a.visited
    {
      if n in start {
        var i :| 0 <= i < |start| && start[i] == n;
        assert Clones(start, s)[i] == n + s;
      }
      if n + s in Clones(start, s) {
        var i :| 0 <= i < |start| && Clones(start, s)[i] == n + s;
        SuffixInjective(start[i], n, s);
      }
    }
    assert CloneItems([], s) == [];
    SeedSame(g, g2, start, a, b, s);
    SearchSame(g, g2, Seed(g, start, a), Seed(g2, Clones(start, s), b), targets, targets2, s);
  }

  lemma {:induction false} SearchNothing(g: Graph, st: State)
    requires Closed(g)
    ensures Search(g, st, {}) == None
    decreases g.Keys - st.visited, |st.queue|
  {
    if st.queue != [] {
      var item := st.queue[0];
      var popped := State(st.visited, st.queue[1..]);
      SearchShrinks(g, popped, StepsOf(g, item.net), item.hop);
      SearchNothing(g, Discover(popped, StepsOf(g, item.net), Inherited(item.hop)));
    }
  }

  /** A target that is no renamed network is not found. */
  lemma StrangerNotFound(g: Graph, g2: Graph, start: seq<Name>, targets2: set<Name>, s: string)
    requires Closed(g) && Closed(g2) && Repeats(g, g2, s)
    requires forall n :: n in start ==> n in g
    requires forall n :: n in g ==> n + s !in targets2
    ensures FirstHop(g2, Clones(start, s), targets2) == None
  {
    FirstHopSame(g, g2, start, {}, targets2, s);
    SearchNothing(g, Seed(g, start, State(SetOf(start), [])));
  }
}
