/**
 The breadth-first search that every machine runs on its own to find the first hop toward a
 network or a machine.
 */
module FirstHops {
  import opened Wrappers
  import opened Topologies
  import opened RoutingGraph

  /** The network a packet leaves by, and the machine of that network it goes to. */
  datatype Hop = Hop(via: Name, router: Name)

  /** A queued network with the first hop of the path that discovered it. */
  datatype Item = Item(net: Name, hop: Hop)

  datatype State = State(visited: set<Name>, queue: seq<Item>)

  /** The neighbours of a start network open paths of their own; the others inherit the first hop. */
  datatype Origin = FromStart(net: Name) | Inherited(hop: Hop)

  function HopOf(origin: Origin, e: Edge): Hop {
    match origin
    case FromStart(n) => Hop(n, e.router)
    case Inherited(h) => h
  }

  /** `net_graph.get(n, [])` */
  function StepsOf(g: Graph, n: Name): seq<Edge> {
    if n in g then g[n] else []
  }

  /** Queue the networks of `edges` not visited yet. */
  function Discover(st: State, edges: seq<Edge>, origin: Origin): State {
    if edges == [] then st
    else
      var before := Discover(st, edges[..|edges| - 1], origin);
      var e := edges[|edges| - 1];
      if e.net in before.visited then before
      else State(before.visited + {e.net}, before.queue + [Item(e.net, HopOf(origin, e))])
  }

  function Seed(g: Graph, start: seq<Name>, st: State): State {
    if start == [] then st
    else
      var n := start[|start| - 1];
      Discover(Seed(g, start[..|start| - 1], st), StepsOf(g, n), FromStart(n))
  }

  /** Every step leads to a network of the graph. */
  ghost predicate Closed(g: Graph) {
    forall n, e :: n in g && e in g[n] ==> e.net in g
  }

  lemma {:induction false} DiscoverBounds(g: Graph, st: State, edges: seq<Edge>, origin: Origin)
    requires forall e :: e in edges ==> e.net in g
    ensures var st' := Discover(st, edges, origin);
            && st.visited <= st'.visited
            && st'.visited - st.visited <= g.Keys
            && (st'.visited == st.visited ==> st'.queue == st.queue)
  {
    if edges != [] {
      DiscoverBounds(g, st, edges[..|edges| - 1], origin);
      assert edges[|edges| - 1] in edges;
    }
  }

  lemma SearchShrinks(g: Graph, st: State, edges: seq<Edge>, hop: Hop)
    requires forall e :: e in edges ==> e.net in g
    ensures var st' := Discover(st, edges, Inherited(hop));
            || g.Keys - st'.visited < g.Keys - st.visited
            || st' == st
  {
    DiscoverBounds(g, st, edges, Inherited(hop));
    var v := Discover(st, edges, Inherited(hop)).visited;
    if x :| x in v && x !in st.visited {
      assert x in v - st.visited;
      assert x in g.Keys - st.visited && x !in g.Keys - v;
    } else {
      assert v == st.visited;
    }
  }

  function Search(g: Graph, st: State, targets: set<Name>): Option<Hop>
    requires Closed(g)
    decreases g.Keys - st.visited, |st.queue|
  {
    if st.queue == [] then None
    else
      var item := st.queue[0];
      if item.net in targets then Some(item.hop)
      else
        var popped := State(st.visited, st.queue[1..]);
        SearchShrinks(g, popped, StepsOf(g, item.net), item.hop);
        Search(g, Discover(popped, StepsOf(g, item.net), Inherited(item.hop)), targets)
  }

  function SetOf(s: seq<Name>): set<Name> {
    set x | x in s
  }

  /** `_bfs`, with the start networks in the order in which the Python set yields them. */
  function FirstHop(g: Graph, start: seq<Name>, targets: set<Name>): Option<Hop>
    requires Closed(g)
  {
    Search(g, Seed(g, start, State(SetOf(start), [])), targets)
  }

  method Bfs(g: Graph, start: seq<Name>, targets: set<Name>) returns (r: Option<Hop>)
    requires Closed(g)
    ensures r == FirstHop(g, start, targets)
  {
    var visited := SetOf(start);
    var queue: seq<Item> := [];
    for i := 0 to |start|
      invariant State(visited, queue) == Seed(g, start[..i], State(SetOf(start), []))
    {
      var n := start[i];
      ghost var before := State(visited, queue);
      var edges := StepsOf(g, n);
      for k := 0 to |edges|
        invariant State(visited, queue) == Discover(before, edges[..k], FromStart(n))
      {
        var e := edges[k];
        assert edges[..k + 1][..k] == edges[..k];
        if e.net !in visited {
          visited := visited + {e.net};
          queue := queue + [Item(e.net, Hop(n, e.router))];
        }
      }
      assert edges[..|edges|] == edges;
      assert start[..i + 1][..i] == start[..i];
    }
    assert start[..|start|] == start;
    while queue != []
      invariant Search(g, State(visited, queue), targets) == FirstHop(g, start, targets)
      decreases g.Keys - visited, |queue|
    {
      var item := queue[0];
      if item.net in targets {
        return Some(item.hop);
      }
      queue := queue[1..];
      ghost var popped := State(visited, queue);
      var edges := StepsOf(g, item.net);
      for k := 0 to |edges|
        invariant State(visited, queue) == Discover(popped, edges[..k], Inherited(item.hop))
      {
        var e := edges[k];
        assert edges[..k + 1][..k] == edges[..k];
        if e.net !in visited {
          visited := visited + {e.net};
          queue := queue + [Item(e.net, item.hop)];
        }
      }
      assert edges[..|edges|] == edges;
      SearchShrinks(g, popped, edges, item.hop);
    }
    return None;
  }
}
