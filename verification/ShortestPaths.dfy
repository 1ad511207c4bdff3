/**
 The search is exact: it fails only when no target can be reached, and otherwise the hop it
 returns starts a shortest path, whatever the order of the start networks.
 */
module ShortestPaths {
  import opened Wrappers
  import opened Topologies
  import opened RoutingGraph
  import opened FirstHops

  // ----- distances, defined without the search -----

  /** The networks one step away from `from`. */
  ghost function Next(g: Graph, from: set<Name>): set<Name> {
    set n, e | n in from && e in StepsOf(g, n) :: e.net
  }

  /** The networks at most `k` steps away from `from`. */
  ghost function Within(g: Graph, from: set<Name>, k: nat): set<Name> {
    if k == 0 then from else Within(g, from, k - 1) + Next(g, Within(g, from, k - 1))
  }

  lemma {:induction false} WithinGrows(g: Graph, from: set<Name>, j: nat, k: nat)
    requires j <= k
    ensures Within(g, from, j) <= Within(g, from, k)
    decreases k
  {
    if j < k {
      WithinGrows(g, from, j, k - 1);
    }
  }

  lemma {:induction false} WithinMonotone(g: Graph, a: set<Name>, b: set<Name>, k: nat)
    requires a <= b
    ensures Within(g, a, k) <= Within(g, b, k)
  {
    if k > 0 {
      WithinMonotone(g, a, b, k - 1);
    }
  }

  /** Taking the first step first. */
  lemma {:induction false} WithinFirst(g: Graph, from: set<Name>, k: nat)
    ensures Within(g, from, k + 1) == Within(g, from + Next(g, from), k)
  {
    if k > 0 {
      WithinFirst(g, from, k - 1);
    } else {
      assert Within(g, from, 1) == Within(g, from, 0) + Next(g, Within(g, from, 0));
    }
  }

  lemma {:induction false} WithinSaturated(g: Graph, from: set<Name>, d: nat, k: nat)
    requires Next(g, Within(g, from, d)) <= Within(g, from, d)
    ensures Within(g, from, k) <= Within(g, from, d)
  {
    if k <= d {
      WithinGrows(g, from, k, d);
    } else {
      WithinSaturated(g, from, d, k - 1);
    }
  }

  // ----- what the search promises -----

  /** `hop` starts a path of `d` steps from `from` to `n` that leaves `from` at once. */
  ghost predicate StartsPath(g: Graph, from: set<Name>, hop: Hop, n: Name, d: nat) {
    && d >= 1
    && hop.via in from
    && exists next ::
         && Edge(next, hop.router) in StepsOf(g, hop.via)
         && next !in from
         && n in Within(g, {next}, d - 1)
  }

  /** No target outside `from` is closer than `d` steps. */
  ghost predicate NoneCloser(g: Graph, from: set<Name>, targets: set<Name>, d: nat) {
    forall n :: n in targets && n !in from && d > 0 ==> n !in Within(g, from, d - 1)
  }

  ghost predicate Exact(g: Graph, from: set<Name>, targets: set<Name>, r: Option<Hop>) {
    match r
    case None => forall n, k: nat :: n in targets && n !in from ==> n !in Within(g, from, k)
    case Some(hop) =>
      exists n, d: nat ::
        n in targets && n !in from && StartsPath(g, from, hop, n, d) && NoneCloser(g, from, targets, d)
  }

  // ----- the invariant of the loop -----

  function Nets(q: seq<Item>): set<Name> {
    set i | 0 <= i < |q| :: q[i].net
  }

  /** A queued item was found at distance `d`, by a path that its hop starts. */
  ghost predicate Found(g: Graph, from: set<Name>, item: Item, d: nat) {
    && d >= 1
    && item.net in Within(g, from, d)
    && item.net !in Within(g, from, d - 1)
    && StartsPath(g, from, item.hop, item.net, d)
  }

  /** `near` holds the queued networks at distance `d`, `far` those already found at `d + 1`. */
  ghost predicate Frontier(g: Graph, from: set<Name>, targets: set<Name>, visited: set<Name>,
                           near: seq<Item>, far: seq<Item>, d: nat) {
    && d >= 1
    && (forall x :: x in near ==> Found(g, from, x, d))
    && (forall x :: x in far ==> Found(g, from, x, d + 1))
    && visited == Within(g, from, d) + Nets(far)
    && Next(g, Within(g, from, d) - Nets(near)) <= visited
    && (forall n :: n in Within(g, from, d) - Nets(near) && n in targets ==> n in from)
  }

  ghost function EdgeNets(edges: seq<Edge>): set<Name> {
    set e | e in edges :: e.net
  }

  /** The items that a round of discovery queues. */
  function NewItems(visited: set<Name>, edges: seq<Edge>, origin: Origin): seq<Item> {
    if edges == [] then []
    else
      var before := NewItems(visited, edges[..|edges| - 1], origin);
      var e := edges[|edges| - 1];
      if e.net in visited || e.net in Nets(before) then before
      else before + [Item(e.net, HopOf(origin, e))]
  }

  lemma NetsAppend(a: seq<Item>, b: seq<Item>)
    ensures Nets(a + b) == Nets(a) + Nets(b)
  {
    forall n | n in Nets(a)
      ensures n in Nets(a + b)
    {
      var i :| 0 <= i < |a| && a[i].net == n;
      assert (a + b)[i].net == n;
    }
    forall n | n in Nets(b)
      ensures n in Nets(a + b)
    {
      var i :| 0 <= i < |b| && b[i].net == n;
      assert (a + b)[|a| + i].net == n;
    }
  }

  lemma NetsOne(x: Item)
    ensures Nets([x]) == {x.net}
  {
    assert [x][0].net == x.net;
  }

  lemma {:induction false} DiscoverIsNewItems(st: State, edges: seq<Edge>, origin: Origin)
    ensures Discover(st, edges, origin)
         == State(st.visited + Nets(NewItems(st.visited, edges, origin)),
                  st.queue + NewItems(st.visited, edges, origin))
  {
    if edges != [] {
      var front := edges[..|edges| - 1];
      var e := edges[|edges| - 1];
      DiscoverIsNewItems(st, front, origin);
      var items := NewItems(st.visited, front, origin);
      var x := Item(e.net, HopOf(origin, e));
      NetsAppend(items, [x]);
      NetsOne(x);
      assert st.queue + (items + [x]) == (st.queue + items) + [x];
    }
  }

  /** Discovery queues the unvisited ends of the edges, each with the hop of one of its edges. */
  lemma {:induction false} NewItemsFacts(visited: set<Name>, edges: seq<Edge>, origin: Origin)
    ensures visited + Nets(NewItems(visited, edges, origin)) == visited + EdgeNets(edges)
    ensures forall x :: x in NewItems(visited, edges, origin) ==>
              x.net !in visited && exists e :: e in edges && x == Item(e.net, HopOf(origin, e))
  {
    if edges != [] {
      var front := edges[..|edges| - 1];
      var e := edges[|edges| - 1];
      NewItemsFacts(visited, front, origin);
      assert edges == front + [e];
      assert EdgeNets(edges) == EdgeNets(front) + {e.net};
      var items := NewItems(visited, front, origin);
      var x := Item(e.net, HopOf(origin, e));
      NetsAppend(items, [x]);
      NetsOne(x);
    }
  }

  // ----- the invariant holds and ends in an exact answer -----

  lemma StepsFound(g: Graph, from: set<Name>, item: Item, x: Item, e: Edge, d: nat)
    requires Found(g, from, item, d)
    requires e in StepsOf(g, item.net) && x == Item(e.net, item.hop)
    requires x.net !in Within(g, from, d)
    ensures Found(g, from, x, d + 1)
  {
    assert e.net in Next(g, Within(g, from, d));
    var next :| Edge(next, item.hop.router) in StepsOf(g, item.hop.via) && next !in from
                && item.net in Within(g, {next}, d - 1);
    assert e.net in Next(g, Within(g, {next}, d - 1));
    assert e.net in Within(g, {next}, d);
  }

  /** Handling a queued item keeps the frontier. */
  lemma FrontierStep(g: Graph, from: set<Name>, targets: set<Name>, visited: set<Name>,
                     near: seq<Item>, far: seq<Item>, d: nat)
    requires Frontier(g, from, targets, visited, near, far, d)
    requires near != [] && near[0].net !in targets
    ensures var items := NewItems(visited, StepsOf(g, near[0].net), Inherited(near[0].hop));
            Frontier(g, from, targets, visited + Nets(items), near[1..], far + items, d)
  {
    var item := near[0];
    var edges := StepsOf(g, item.net);
    var items := NewItems(visited, edges, Inherited(item.hop));
    NewItemsFacts(visited, edges, Inherited(item.hop));
    NetsAppend(far, items);
    forall x | x in items
      ensures Found(g, from, x, d + 1)
    {
      var e :| e in edges && x == Item(e.net, HopOf(Inherited(item.hop), e));
      StepsFound(g, from, item, x, e, d);
    }
    assert near == [item] + near[1..];
    NetsAppend([item], near[1..]);
    NetsOne(item);
    assert Next(g, {item.net}) == EdgeNets(edges);
    assert Within(g, from, d) - Nets(near[1..]) <= (Within(g, from, d) - Nets(near)) + {item.net};
  }

  /** When the near items are exhausted, the far ones are a whole new frontier. */
  lemma FrontierAdvance(g: Graph, from: set<Name>, targets: set<Name>, visited: set<Name>,
                        far: seq<Item>, d: nat)
    requires Frontier(g, from, targets, visited, [], far, d)
    ensures Frontier(g, from, targets, visited, far, [], d + 1)
  {
    assert Nets([]) == {};
    assert Within(g, from, d) - {} == Within(g, from, d);
    forall n | n in Nets(far)
      ensures n in Within(g, from, d + 1) && n !in Within(g, from, d)
    {
      var i :| 0 <= i < |far| && far[i].net == n;
      assert far[i] in far;
    }
    assert visited == Within(g, from, d + 1);
    assert Within(g, from, d + 1) - Nets(far) == Within(g, from, d);
  }

  lemma FrontierEmpty(g: Graph, from: set<Name>, targets: set<Name>, visited: set<Name>, d: nat)
    requires Frontier(g, from, targets, visited, [], [], d)
    ensures Exact(g, from, targets, None)
  {
    assert Nets([]) == {};
    assert Within(g, from, d) - {} == Within(g, from, d);
    forall n, k: nat | n in targets && n !in from
      ensures n !in Within(g, from, k)
    {
      WithinSaturated(g, from, d, k);
    }
  }

  lemma FoundIs(g: Graph, from: set<Name>, item: Item, d: nat)
    requires Found(g, from, item, d)
    ensures item.net !in from && StartsPath(g, from, item.hop, item.net, d)
  {
    hide Next, StartsPath;
    WithinOne(g, from);
    WithinGrows(g, from, 0, d - 1);
  }

  lemma FrontierHit(g: Graph, from: set<Name>, targets: set<Name>, visited: set<Name>,
                    near: seq<Item>, far: seq<Item>, d: nat)
    requires Frontier(g, from, targets, visited, near, far, d)
    requires near != [] && near[0].net in targets
    ensures Exact(g, from, targets, Some(near[0].hop))
  {
    hide Within, Next, StartsPath, Found, NoneCloser;
    assert near[0] in near;
    FoundIs(g, from, near[0], d);
    FrontierNoneCloser(g, from, targets, visited, near, far, d);
    hide Frontier;
  }

  lemma FrontierNoneCloser(g: Graph, from: set<Name>, targets: set<Name>, visited: set<Name>,
                           near: seq<Item>, far: seq<Item>, d: nat)
    requires Frontier(g, from, targets, visited, near, far, d)
    ensures NoneCloser(g, from, targets, d)
  {
    hide Within, Next, StartsPath;
    WithinGrows(g, from, d - 1, d);
    forall n | n in targets && n !in from
      ensures n !in Within(g, from, d - 1)
    {
      if i :| 0 <= i < |near| && near[i].net == n {
        assert near[i] in near;
      } else {
        assert n !in Nets(near);
      }
    }
  }

  lemma {:induction false} SearchExact(g: Graph, from: set<Name>, targets: set<Name>, visited: set<Name>,
                                       near: seq<Item>, far: seq<Item>, d: nat)
    requires Closed(g)
    requires Frontier(g, from, targets, visited, near, far, d)
    ensures Exact(g, from, targets, Search(g, State(visited, near + far), targets))
    decreases g.Keys - visited, |near + far|, |far|
  {
    if near == [] && far == [] {
      FrontierEmpty(g, from, targets, visited, d);
    } else if near == [] {
      FrontierAdvance(g, from, targets, visited, far, d);
      assert near + far == far + [];
      SearchExact(g, from, targets, visited, far, [], d + 1);
    } else if near[0].net in targets {
      FrontierHit(g, from, targets, visited, near, far, d);
    } else {
      hide Frontier, Exact, Nets;
      var item := near[0];
      var edges := StepsOf(g, item.net);
      var items := NewItems(visited, edges, Inherited(item.hop));
      var popped := State(visited, near[1..] + far);
      FrontierStep(g, from, targets, visited, near, far, d);
      assert (near + far)[1..] == near[1..] + far;
      assert near[1..] + (far + items) == (near[1..] + far) + items;
      DiscoverIsNewItems(popped, edges, Inherited(item.hop));
      SearchShrinks(g, popped, edges, item.hop);
      SearchExact(g, from, targets, visited + Nets(items), near[1..], far + items, d);
    }
  }

  // ----- seeding -----

  /** The frontier under construction: the neighbours of the start networks handled so far. */
  ghost predicate Seeded(g: Graph, from: set<Name>, done: set<Name>, st: State) {
    && st.visited == from + Next(g, done)
    && st.visited == from + Nets(st.queue)
    && forall x :: x in st.queue ==> x.net !in from && StartsPath(g, from, x.hop, x.net, 1)
  }

  lemma SeedStep(g: Graph, from: set<Name>, done: set<Name>, st: State, n: Name)
    requires n in from && Seeded(g, from, done, st)
    ensures Seeded(g, from, done + {n}, Discover(st, StepsOf(g, n), FromStart(n)))
  {
    var edges := StepsOf(g, n);
    var items := NewItems(st.visited, edges, FromStart(n));
    DiscoverIsNewItems(st, edges, FromStart(n));
    NewItemsFacts(st.visited, edges, FromStart(n));
    NetsAppend(st.queue, items);
    assert Next(g, done + {n}) == Next(g, done) + EdgeNets(edges);
    forall x | x in items
      ensures x.net !in from && StartsPath(g, from, x.hop, x.net, 1)
    {
      var e :| e in edges && x == Item(e.net, HopOf(FromStart(n), e));
      assert Edge(e.net, x.hop.router) in StepsOf(g, x.hop.via);
      assert x.net in Within(g, {e.net}, 0);
    }
  }

  lemma {:induction false} SeedFacts(g: Graph, from: set<Name>, start: seq<Name>)
    requires forall n :: n in start ==> n in from
    ensures Seeded(g, from, SetOf(start), Seed(g, start, State(from, [])))
  {
    if start == [] {
      assert Next(g, {}) == {} && Nets([]) == {};
    } else {
      var front := start[..|start| - 1];
      var n := start[|start| - 1];
      SeedFacts(g, from, front);
      SeedStep(g, from, SetOf(front), Seed(g, front, State(from, [])), n);
      assert start == front + [n];
      assert SetOf(start) == SetOf(front) + {n};
    }
  }

  /** `_bfs` is exact, for every order in which the start networks are taken. */
  lemma FirstHopExact(g: Graph, start: seq<Name>, targets: set<Name>)
    requires Closed(g)
    ensures Exact(g, SetOf(start), targets, FirstHop(g, start, targets))
  {
    var from := SetOf(start);
    SeedFacts(g, from, start);
    var st := Seed(g, start, State(from, []));
    assert Within(g, from, 0) == from;
    assert Within(g, from, 1) == from + Next(g, from);
    forall x | x in st.queue
      ensures Found(g, from, x, 1)
    {
      assert x.net in Nets(st.queue) by {
        var i :| 0 <= i < |st.queue| && st.queue[i] == x;
        assert st.queue[i].net == x.net;
      }
    }
    assert Nets([]) == {};
    assert Within(g, from, 1) - Nets(st.queue) <= from;
    assert st.queue + [] == st.queue;
    SearchExact(g, from, targets, st.visited, st.queue, [], 1);
  }

  // ----- each first hop is one step closer -----

  /** The nearest network of `targets` is exactly `k` steps away from `from`. */
  ghost predicate Away(g: Graph, from: set<Name>, targets: set<Name>, k: nat) {
    && (exists n :: n in targets && n in Within(g, from, k))
    && (k > 0 ==> forall n :: n in targets ==> n !in Within(g, from, k - 1))
  }

  lemma {:induction false} WithinTwice(g: Graph, from: set<Name>, j: nat, k: nat)
    ensures Within(g, Within(g, from, j), k) == Within(g, from, j + k)
    decreases k
  {
    if k > 0 {
      WithinTwice(g, from, j, k - 1);
    }
  }

  lemma WithinOne(g: Graph, from: set<Name>)
    ensures Within(g, from, 0) == from
    ensures Within(g, from, 1) == from + Next(g, from)
  {
    assert Within(g, from, 1) == Within(g, from, 0) + Next(g, Within(g, from, 0));
  }

  lemma StepInNext(g: Graph, from: set<Name>, via: Name, e: Edge)
    requires via in from && e in StepsOf(g, via)
    ensures e.net in Next(g, from)
  {
  }

  lemma StepReaches(g: Graph, from: set<Name>, via: Name, e: Edge, n: Name, k: nat)
    requires via in from && e in StepsOf(g, via) && n in Within(g, {e.net}, k)
    ensures n in Within(g, from, k + 1)
  {
    hide Within, Next;
    WithinOne(g, from);
    StepInNext(g, from, via, e);
    WithinMonotone(g, {e.net}, Within(g, from, 1), k);
    WithinTwice(g, from, 1, k);
  }

  lemma ExactFinds(g: Graph, from: set<Name>, targets: set<Name>, r: Option<Hop>, t: Name, k: nat)
    requires Exact(g, from, targets, r) && t in targets && t !in from && t in Within(g, from, k)
    ensures r.Some?
  {
  }

  lemma DistanceIs(g: Graph, from: set<Name>, targets: set<Name>, n: Name, d: nat, t: Name, k: nat)
    requires n in targets && n in Within(g, from, d) && d >= 1
    requires t in targets && t in Within(g, from, k + 1)
    requires forall x :: x in targets ==> x !in Within(g, from, k)
    requires forall x :: x in targets ==> x !in Within(g, from, d - 1)
    ensures d == k + 1
  {
    hide Within, Next;
    if d <= k {
      WithinGrows(g, from, d, k);
      assert false;
    }
    if d > k + 1 {
      WithinGrows(g, from, k + 1, d - 1);
      assert false;
    }
  }

  /** An exact answer exists for targets that are `k + 1` steps away, and starts a path of that length. */
  lemma ExactDistance(g: Graph, from: set<Name>, targets: set<Name>, r: Option<Hop>, k: nat) returns (n: Name)
    requires Exact(g, from, targets, r) && Away(g, from, targets, k + 1)
    ensures r.Some? && n in targets && StartsPath(g, from, r.value, n, k + 1)
  {
    hide Within, Next;
    WithinGrows(g, from, 0, k);
    WithinOne(g, from);
    var t :| t in targets && t in Within(g, from, k + 1);
    ExactFinds(g, from, targets, r, t, k + 1);
    var d: nat;
    n, d :| n in targets && n !in from && StartsPath(g, from, r.value, n, d) && NoneCloser(g, from, targets, d);
    PathReaches(g, from, r.value, n, d);
    DistanceIs(g, from, targets, n, d, t, k);
  }

  lemma PathReaches(g: Graph, from: set<Name>, hop: Hop, n: Name, d: nat)
    requires StartsPath(g, from, hop, n, d)
    ensures n in Within(g, from, d)
  {
    hide Within, Next;
    var next :| Edge(next, hop.router) in StepsOf(g, hop.via) && next !in from && n in Within(g, {next}, d - 1);
    StepReaches(g, from, hop.via, Edge(next, hop.router), n, d - 1);
  }

  /** An exact answer, for targets `k + 1` steps away, enters a network `k` steps away from them. */
  lemma ExactHopStep(g: Graph, from: set<Name>, targets: set<Name>, r: Option<Hop>, k: nat)
    returns (next: Name, n: Name)
    requires Exact(g, from, targets, r) && Away(g, from, targets, k + 1)
    ensures r.Some? && r.value.via in from
    ensures Edge(next, r.value.router) in StepsOf(g, r.value.via) && n in targets && n in Within(g, {next}, k)
  {
    hide Within, Next;
    n := ExactDistance(g, from, targets, r, k);
    var hop := r.value;
    next :| Edge(next, hop.router) in StepsOf(g, hop.via) && next !in from && n in Within(g, {next}, k);
  }

  /** A set of networks one step away from `from`, holding a network `k` steps away from targets
      that are `k + 1` steps away from `from`, is itself `k` steps away from them. */
  lemma OneStepCloser(g: Graph, from: set<Name>, near: set<Name>, targets: set<Name>, k: nat, next: Name, n: Name)
    requires Away(g, from, targets, k + 1)
    requires near <= Within(g, from, 1) && next in near
    requires n in targets && n in Within(g, {next}, k)
    ensures Away(g, near, targets, k)
  {
    hide Within, Next;
    WithinMonotone(g, {next}, near, k);
    if k > 0 {
      WithinMonotone(g, near, Within(g, from, 1), k - 1);
      WithinTwice(g, from, 1, k - 1);
    }
  }
}
