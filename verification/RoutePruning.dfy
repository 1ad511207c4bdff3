/**
 Dropping redundant routes, seen from the longest-prefix lookup that the kernel performs on
 what is left.
 */
module RoutePruning {
  import opened IpAddresses
  import opened TopologyConfig

  ghost function Kept(routes: seq<Triple>): set<Triple> {
    set r | r in routes && !IsRedundant(routes, r.net, r.hop)
  }

  ghost function All(routes: seq<Triple>): set<Triple> {
    set r | r in routes
  }

  /** Route `r` is a longest match for address `a`. */
  ghost predicate Best(table: set<Triple>, a: Address, r: Triple) {
    && r in table
    && r.net.Contains(a)
    && forall x :: x in table && x.net.Contains(a) ==> x.net.len <= r.net.len
  }

  ghost predicate Covers(r: Triple, net: Subnet) {
    r.net.family == net.family && net.SubnetOf(r.net)
  }

  /** A dropped route is covered by a kept one with the same next hop, however the routes overlap. */
  lemma {:induction false} DroppedIsCovered(routes: seq<Triple>, r: Triple)
    requires r in routes
    ensures exists k :: k in Kept(routes) && k.hop == r.hop && Covers(k, r.net)
    decreases r.net.len
  {
    if IsRedundant(routes, r.net, r.hop) {
      var i :| 0 <= i < |routes| && routes[i].net != r.net && routes[i].net.family == r.net.family
               && r.net.SubnetOf(routes[i].net) && r.hop == routes[i].hop;
      CoveredIsLonger(r.net, routes[i].net);
      DroppedIsCovered(routes, routes[i]);
    } else {
      assert r in Kept(routes);
    }
  }

  /** A nonempty set of matches has a longest one. */
  lemma {:induction false} BestExists(table: set<Triple>, a: Address, r: Triple)
    requires r in table && r.net.Contains(a)
    ensures exists b :: Best(table, a, b) && r.net.len <= b.net.len
    decreases Width(a.family) - r.net.len
  {
    if x :| x in table && x.net.Contains(a) && r.net.len < x.net.len {
      BestExists(table, a, x);
    } else {
      assert Best(table, a, r);
    }
  }

  // ----- disjoint destinations -----

  /** The destinations of family `f` are pairwise disjoint, except for one optional default route. */
  ghost predicate DisjointButDefault(routes: seq<Triple>, f: Family) {
    forall x, y :: x in routes && y in routes && x != y && x.net.family == f && y.net.family == f ==>
      || Disjoint(x.net, y.net)
      || (x.net == DefaultNet(f) && y.net != x.net)
      || (y.net == DefaultNet(f) && x.net != y.net)
  }

  /** Of two routes that match an address, the shorter one is the default route. */
  lemma ShorterIsDefault(routes: seq<Triple>, a: Address, x: Triple, y: Triple)
    requires DisjointButDefault(routes, a.family) && x in routes && y in routes && x != y
    requires x.net.Contains(a) && y.net.Contains(a) && x.net.len <= y.net.len
    ensures x.net == DefaultNet(a.family) != y.net
  {
    assert !Disjoint(x.net, y.net);
    if x.net.len == 0 {
      EmptyPrefixIsDefault(x.net);
    }
  }

  /** With disjoint destinations and an optional default route, dropping the redundant routes
      changes the next hop of no address. */
  lemma PruningKeepsLookup(routes: seq<Triple>, a: Address, before: Triple)
    requires DisjointButDefault(routes, a.family)
    requires Best(All(routes), a, before)
    ensures exists after :: Best(Kept(routes), a, after)
    ensures forall after :: Best(Kept(routes), a, after) ==> after.hop == before.hop
  {
    DroppedIsCovered(routes, before);
    var k :| k in Kept(routes) && k.hop == before.hop && Covers(k, before.net);
    assert k.net.Contains(a);
    BestExists(Kept(routes), a, k);
    forall after | Best(Kept(routes), a, after)
      ensures after.hop == before.hop
    {
      if after != before {
        ShorterIsDefault(routes, a, after, before);
        if k != after {
          ShorterIsDefault(routes, a, k, after);
        }
      }
    }
  }

  /** An address has a route after pruning exactly when it had one before. */
  lemma PruningKeepsMatches(routes: seq<Triple>, a: Address)
    ensures (exists r :: r in Kept(routes) && r.net.Contains(a)) <==> (exists r :: r in routes && r.net.Contains(a))
  {
    if r :| r in routes && r.net.Contains(a) {
      DroppedIsCovered(routes, r);
    }
  }

  // ----- overlapping destinations: exactly when the lookup survives -----

  ghost predicate UniqueDestinations(routes: seq<Triple>) {
    forall x, y :: x in routes && y in routes && x.net == y.net ==> x == y
  }

  ghost predicate CoversStrictly(x: Triple, r: Triple) {
    x.net != r.net && Covers(x, r.net)
  }

  /** Among the routes that strictly cover `r`, `p` is the closest. */
  ghost predicate Parent(routes: seq<Triple>, r: Triple, p: Triple) {
    && p in routes && CoversStrictly(p, r)
    && forall x :: x in routes && CoversStrictly(x, r) ==> x.net.len <= p.net.len
  }

  /** The closest route around each dropped one has the same next hop. */
  ghost predicate ParentsAgree(routes: seq<Triple>) {
    forall r, p :: r in routes && r !in Kept(routes) && Parent(routes, r, p) ==> p.hop == r.hop
  }

  /** Every address that matches a route has the same next hop before and after pruning. */
  ghost predicate LookupKept(routes: seq<Triple>) {
    forall a, before, after :: Best(All(routes), a, before) && Best(Kept(routes), a, after) ==>
      before.hop == after.hop
  }

  /** The route is the longest match of some address. */
  ghost predicate InUse(routes: seq<Triple>, r: Triple) {
    exists a :: Best(All(routes), a, r)
  }

  ghost predicate AllUsed(routes: seq<Triple>) {
    forall r :: r in routes ==> InUse(routes, r)
  }

  /** The closest kept routes around each route in use have its next hop. */
  ghost predicate KeptAgree(routes: seq<Triple>) {
    forall r, k :: r in routes && InUse(routes, r) && KeptAround(routes, r, k) ==> k.hop == r.hop
  }

  /** Pruning keeps every lookup exactly when the closest kept routes around each route in use have its
      next hop, for any list of routes. The code only asks for some route around it. */
  lemma PruningExact(routes: seq<Triple>)
    ensures LookupKept(routes) <==> KeptAgree(routes)
  {
    if LookupKept(routes) {
      forall r, k | r in routes && InUse(routes, r) && KeptAround(routes, r, k)
        ensures k.hop == r.hop
      {
        var a :| Best(All(routes), a, r);
        forall x | x in Kept(routes) && x.net.Contains(a)
          ensures x.net.len <= k.net.len
        {
          SharedIsNested(x.net, r.net, a);
        }
        assert Best(Kept(routes), a, k);
      }
    }
    if KeptAgree(routes) {
      forall a, before, after | Best(All(routes), a, before) && Best(Kept(routes), a, after)
        ensures before.hop == after.hop
      {
        SharedIsNested(after.net, before.net, a);
        assert KeptAround(routes, before, after);
      }
    }
  }

  // ----- in terms of the closest routes before pruning -----

  lemma {:induction false} ParentExists(routes: seq<Triple>, r: Triple, x: Triple)
    requires r in routes && x in routes && CoversStrictly(x, r)
    ensures exists p :: Parent(routes, r, p)
    decreases r.net.len - x.net.len
  {
    CoveredIsLonger(r.net, x.net);
    if y :| y in routes && CoversStrictly(y, r) && x.net.len < y.net.len {
      CoveredIsLonger(r.net, y.net);
      ParentExists(routes, r, y);
    } else {
      assert Parent(routes, r, x);
    }
  }

  /** A route covering `r` but not its parent `p` is no other than `p`. */
  lemma ParentIsBelow(routes: seq<Triple>, r: Triple, p: Triple, x: Triple)
    requires UniqueDestinations(routes)
    requires Parent(routes, r, p) && x in routes && CoversStrictly(x, r)
    ensures x == p || CoversStrictly(x, p)
  {
    var a := Address(r.net.family, r.net.base);
    assert r.net.Contains(a) && x.net.Contains(a) && p.net.Contains(a);
    SharedIsNested(x.net, p.net, a);
  }

  /** `k` is the closest kept route around `r`. */
  ghost predicate KeptAround(routes: seq<Triple>, r: Triple, k: Triple) {
    && k in Kept(routes) && Covers(k, r.net)
    && forall x :: x in Kept(routes) && Covers(x, r.net) ==> x.net.len <= k.net.len
  }

  lemma DroppedHasParent(routes: seq<Triple>, r: Triple) returns (p: Triple)
    requires r in routes && r !in Kept(routes)
    ensures Parent(routes, r, p)
  {
    var i :| 0 <= i < |routes| && routes[i].net != r.net && routes[i].net.family == r.net.family
             && r.net.SubnetOf(routes[i].net) && r.hop == routes[i].hop;
    assert routes[i] in routes;
    ParentExists(routes, r, routes[i]);
    p :| Parent(routes, r, p);
  }

  lemma {:induction false} AgreeingParents(routes: seq<Triple>, r: Triple) returns (k: Triple)
    requires UniqueDestinations(routes) && ParentsAgree(routes) && r in routes && r !in Kept(routes)
    ensures KeptAround(routes, r, k) && k.hop == r.hop
    decreases r.net.len
  {
    var p := DroppedHasParent(routes, r);
    CoveredIsLonger(r.net, p.net);
    if p in Kept(routes) {
      k := p;
    } else {
      k := AgreeingParents(routes, p);
      forall x | x in Kept(routes) && Covers(x, r.net)
        ensures x.net.len <= k.net.len
      {
        assert CoversStrictly(x, r);
        ParentIsBelow(routes, r, p, x);
      }
    }
  }

  /** A longest match that is kept stays the longest match. */
  lemma BestIsUnique(table: set<Triple>, routes: seq<Triple>, a: Address, x: Triple, y: Triple)
    requires UniqueDestinations(routes) && x in routes && y in routes
    requires x.net.Contains(a) && y.net.Contains(a) && x.net.len == y.net.len
    ensures x == y
  {
    SharedIsNested(x.net, y.net, a);
  }

  lemma AgreeingLookup(routes: seq<Triple>, a: Address, before: Triple, after: Triple)
    requires UniqueDestinations(routes) && ParentsAgree(routes)
    requires Best(All(routes), a, before) && Best(Kept(routes), a, after)
    ensures before.hop == after.hop
  {
    if before in Kept(routes) {
      BestIsUnique(All(routes), routes, a, before, after);
    } else {
      var k := AgreeingParents(routes, before);
      SharedIsNested(after.net, before.net, a);
      BestIsUnique(All(routes), routes, a, k, after);
    }
  }

  /** Climbing from `q` above `r` finds an address whose next hop pruning changes. */
  lemma {:induction false} DisagreementShows(routes: seq<Triple>, r: Triple, q: Triple)
    requires UniqueDestinations(routes) && LookupKept(routes) && AllUsed(routes)
    requires r in routes && r !in Kept(routes) && q in routes && CoversStrictly(q, r) && q.hop != r.hop
    requires forall x :: x in Kept(routes) && Covers(x, r.net) ==> x.net.len <= q.net.len
    ensures false
    decreases q.net.len
  {
    if q in Kept(routes) {
      var a :| Best(All(routes), a, r);
      forall x | x in Kept(routes) && x.net.Contains(a)
        ensures x.net.len <= q.net.len
      {
        SharedIsNested(x.net, r.net, a);
      }
      assert Best(Kept(routes), a, q);
    } else {
      var p := DroppedHasParent(routes, q);
      CoveredIsLonger(q.net, p.net);
      if p.hop != q.hop {
        forall x | x in Kept(routes) && Covers(x, q.net)
          ensures x.net.len <= p.net.len
        {
          assert CoversStrictly(x, q);
        }
        DisagreementShows(routes, q, p);
      } else {
        forall x | x in Kept(routes) && Covers(x, r.net)
          ensures x.net.len <= p.net.len
        {
          KeptAbove(routes, r, q, x);
        }
        assert CoversStrictly(p, r);
        DisagreementShows(routes, r, p);
      }
    }
  }

  /** A kept route around `r`, no longer than the dropped route `q` around `r`, strictly covers `q`. */
  lemma KeptAbove(routes: seq<Triple>, r: Triple, q: Triple, x: Triple)
    requires UniqueDestinations(routes) && q in routes && q !in Kept(routes) && CoversStrictly(q, r)
    requires x in Kept(routes) && Covers(x, r.net) && x.net.len <= q.net.len
    ensures CoversStrictly(x, q)
  {
    var a := Address(r.net.family, r.net.base);
    assert q.net.Contains(a) && x.net.Contains(a);
    SharedIsNested(x.net, q.net, a);
  }

  /** For distinct destinations that are all in use, pruning keeps every lookup exactly when the
      closest route around each dropped one has the same next hop. */
  lemma ParentsExact(routes: seq<Triple>)
    requires UniqueDestinations(routes)
    ensures ParentsAgree(routes) ==> LookupKept(routes)
    ensures AllUsed(routes) && LookupKept(routes) ==> ParentsAgree(routes)
  {
    if ParentsAgree(routes) {
      forall a, before, after | Best(All(routes), a, before) && Best(Kept(routes), a, after)
        ensures before.hop == after.hop
      {
        AgreeingLookup(routes, a, before, after);
      }
    }
    if AllUsed(routes) && LookupKept(routes) {
      forall r, p | r in routes && r !in Kept(routes) && Parent(routes, r, p)
        ensures p.hop == r.hop
      {
        if p.hop != r.hop {
          forall x | x in Kept(routes) && Covers(x, r.net)
            ensures x.net.len <= p.net.len
          {
            assert CoversStrictly(x, r);
          }
          DisagreementShows(routes, r, p);
        }
      }
    }
  }

  /** The first half, quarter, ... of the address space, each inside the one before */
  function Leading(f: Family, len: nat): Subnet
    requires len <= Width(f)
  {
    LeadingBlock(f, len);
    Block(f, 0, len)
  }

  lemma LeadingBlock(f: Family, len: nat)
    requires len <= Width(f)
    ensures Block(f, 0, len).Valid()
  {
    hide Pow2, Width;
    if len > 0 {
      Pow2Monotone(Width(f) - len, Width(f));
    }
  }

  lemma LeadingNested(f: Family, len: nat)
    requires 0 < len <= Width(f)
    ensures Leading(f, len).SubnetOf(Leading(f, len - 1))
  {
    Pow2Monotone(Width(f) - len, Width(f) - len + 1);
    hide Pow2, Width;
  }

  /** A route to a hop, nested in a route to another hop, nested in a route to the first hop again */
  function NestedRoutes(f: Family, len: nat, eth: nat, h: Address, eth2: nat, other: Address): seq<Triple>
    requires 2 <= len <= Width(f)
  {
    [Triple(Leading(f, len), eth, h), Triple(Leading(f, len - 1), eth2, other), Triple(Leading(f, len - 2), eth, h)]
  }

  /** Pruning sends an address of the innermost route elsewhere. `NestedLabs` shows a topology whose
      candidates are such routes. */
  lemma NestedRoutesLoseLookup(f: Family, len: nat, eth: nat, h: Address, eth2: nat, other: Address)
    requires 2 <= len <= Width(f) && h != other
    ensures var routes := NestedRoutes(f, len, eth, h, eth2, other);
            && UniqueDestinations(routes)
            && Best(All(routes), Address(f, 0), routes[0]) && Best(Kept(routes), Address(f, 0), routes[1])
            && !LookupKept(routes)
  {
    hide Pow2, Width;
    LeadingNested(f, len);
    LeadingNested(f, len - 1);
    var routes := NestedRoutes(f, len, eth, h, eth2, other);
    var inner, middle, outer := routes[0], routes[1], routes[2];
    assert routes[2].net != inner.net && inner.net.SubnetOf(routes[2].net);
    assert IsRedundant(routes, inner.net, inner.hop);
    assert !IsRedundant(routes, middle.net, middle.hop);
    assert All(routes) == {inner, middle, outer};
    assert Kept(routes) <= {middle, outer};
  }

  /** A route of which both halves have routes of their own: no address uses it. */
  function ShadowedRoutes(f: Family, len: nat, eth: nat, h: Address, other: Address, half: Address): seq<Triple>
    requires 2 <= len < Width(f)
  {
    NestedRoutes(f, len, eth, h, eth, other) + [Triple(Leading(f, len + 1), eth, half), Triple(SecondHalf(f, len), eth, half)]
  }

  function SecondHalf(f: Family, len: nat): Subnet
    requires len < Width(f)
  {
    SecondHalfBlock(f, len);
    Block(f, Pow2(Width(f) - len - 1), len + 1)
  }

  lemma SecondHalfBlock(f: Family, len: nat)
    requires len < Width(f)
    ensures Block(f, Pow2(Width(f) - len - 1), len + 1).Valid()
  {
    Pow2Monotone(Width(f) - len - 1, Width(f));
    hide Pow2, Width;
  }

  /** A route that two others share out among them is the longest match of no address. */
  lemma SharedOutIsIdle(routes: seq<Triple>, r: Triple, low: Triple, high: Triple)
    requires low in routes && high in routes && low.net.family == high.net.family == r.net.family
    requires low.net.len == high.net.len == r.net.len + 1
    requires low.net.base <= r.net.base && low.net.Last() + 1 >= high.net.base && r.net.Last() <= high.net.Last()
    ensures !InUse(routes, r)
  {
    forall a
      ensures !Best(All(routes), a, r)
    {
      if r.net.Contains(a) {
        assert low.net.Contains(a) || high.net.Contains(a);
      }
    }
  }

  /** Dropping routes that are not in use changes no lookup. */
  lemma IdleMayBeDropped(routes: seq<Triple>)
    requires UniqueDestinations(routes) && forall r :: r in routes && r !in Kept(routes) ==> !InUse(routes, r)
    ensures LookupKept(routes)
  {
    PruningExact(routes);
    forall r, k | r in routes && InUse(routes, r) && KeptAround(routes, r, k)
      ensures k.hop == r.hop
    {
      assert r in Kept(routes) && Covers(r, r.net);
      SharedIsNested(k.net, r.net, Address(r.net.family, r.net.base));
    }
  }

  lemma LeadingIs(f: Family, len: nat)
    requires len <= Width(f)
    ensures Leading(f, len).Last() == Pow2(Width(f) - len) - 1
  {
    hide Pow2, Width;
  }

  lemma SecondHalfIs(f: Family, len: nat)
    requires len < Width(f)
    ensures SecondHalf(f, len).Last() == 2 * Pow2(Width(f) - len - 1) - 1
  {
    hide Pow2, Width;
  }

  lemma ShadowedNets(f: Family, len: nat)
    requires 2 <= len < Width(f)
    ensures Leading(f, len).SubnetOf(Leading(f, len - 1)) && Leading(f, len - 1).SubnetOf(Leading(f, len - 2))
    ensures Leading(f, len + 1).Last() + 1 == SecondHalf(f, len).base > 0
    ensures SecondHalf(f, len).Last() == Leading(f, len).Last()
  {
    LeadingNested(f, len);
    LeadingNested(f, len - 1);
    LeadingIs(f, len);
    LeadingIs(f, len + 1);
    SecondHalfIs(f, len);
    assert Pow2(Width(f) - len) == 2 * Pow2(Width(f) - len - 1);
    hide Width, Pow2, Block.Last;
  }

  lemma OnlyInnerDropped(inner: Triple, middle: Triple, outer: Triple, low: Triple, high: Triple)
    requires outer.hop == inner.hop != middle.hop && low.hop == high.hop != inner.hop && low.hop != middle.hop
    requires inner.net.family == middle.net.family == outer.net.family == low.net.family == high.net.family
    requires inner.net.SubnetOf(middle.net) && middle.net.SubnetOf(outer.net)
    requires outer.net.len < middle.net.len < inner.net.len && low.net.len == high.net.len == inner.net.len + 1
    requires low.net.Last() < high.net.base
    ensures var routes := [inner, middle, outer, low, high];
            inner !in Kept(routes) && middle in Kept(routes) && outer in Kept(routes) && low in Kept(routes) && high in Kept(routes)
            && Parent(routes, inner, middle)
  {
    var routes := [inner, middle, outer, low, high];
    assert routes[2] == outer;
    LastIsThere(low.net);
    LastIsThere(high.net);
    if outer.net.SubnetOf(inner.net) {
      CoveredIsLonger(outer.net, inner.net);
    }
    if inner.net.SubnetOf(low.net) {
      CoveredIsLonger(inner.net, low.net);
    }
    if inner.net.SubnetOf(high.net) {
      CoveredIsLonger(inner.net, high.net);
    }
    hide Block.SubnetOf, Block.Last;
  }

  lemma LastIsThere(net: Subnet)
    ensures net.base <= net.Last()
  {
  }

  /** A dropped route that two others share out, inside a route to another hop, inside one to its own */
  lemma IdleRouteDisagrees(inner: Triple, middle: Triple, outer: Triple, low: Triple, high: Triple)
    requires UniqueDestinations([inner, middle, outer, low, high])
    requires outer.hop == inner.hop != middle.hop && low.hop == high.hop != inner.hop && low.hop != middle.hop
    requires inner.net.family == middle.net.family == outer.net.family == low.net.family == high.net.family
    requires inner.net.SubnetOf(middle.net) && middle.net.SubnetOf(outer.net)
    requires outer.net.len < middle.net.len < inner.net.len && low.net.len == high.net.len == inner.net.len + 1
    requires low.net.base <= inner.net.base && low.net.Last() < high.net.base <= low.net.Last() + 1
    requires inner.net.Last() <= high.net.Last()
    ensures var routes := [inner, middle, outer, low, high]; !ParentsAgree(routes) && LookupKept(routes)
  {
    var routes := [inner, middle, outer, low, high];
    SharedOutIsIdle(routes, inner, low, high);
    hide InUse, Block.Last;
    OnlyInnerDropped(inner, middle, outer, low, high);
    hide Block.SubnetOf, UniqueDestinations;
    IdleMayBeDropped(routes);
  }

  /** With a route that is not in use, the closest routes around the dropped ones need not agree. */
  lemma ShadowedRouteIsIdle(f: Family, len: nat, eth: nat, h: Address, other: Address, half: Address)
    requires 2 <= len < Width(f) && h != other && half != h && half != other
    ensures var routes := ShadowedRoutes(f, len, eth, h, other, half);
            UniqueDestinations(routes) && !ParentsAgree(routes) && LookupKept(routes)
  {
    ShadowedNets(f, len);
    var routes := ShadowedRoutes(f, len, eth, h, other, half);
    var inner, middle, outer, low, high := routes[0], routes[1], routes[2], routes[3], routes[4];
    assert routes == [inner, middle, outer, low, high];
    hide Pow2, Width, Block.Last, Block.SubnetOf, ParentsAgree, LookupKept;
    IdleRouteDisagrees(inner, middle, outer, low, high);
  }
}
