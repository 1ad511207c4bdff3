/**
 Random allocation of addresses in a network, alone or as ordered ranges. Every random choice is
 arbitrary.
 */
module AddressAllocation {
  import opened Wrappers
  import opened Dicts
  import opened IpAddresses

  datatype AddressError = NotEnough | GaveUp | TooSmall | CannotPlace

  const SMALL := 65536

  /** `random.sample`: `n` elements of a list without repetition, arbitrary. */
  method Sample<T(==)>(s: seq<T>, n: nat) returns (r: seq<T>)
    requires n <= |s| && Distinct(s)
    ensures |r| == n && Distinct(r) && forall x :: x in r ==> x in s
  {
    r := [];
    var pool := s;
    while |r| < n
      invariant |r| <= n && |pool| + |r| == |s|
      invariant Distinct(r) && Distinct(pool)
      invariant forall x :: x in r ==> x in s && x !in pool
      invariant forall x :: x in pool ==> x in s
      decreases n - |r|
    {
      var k: nat :| k < |pool|;
      var x := pool[k];
      var rest := pool[..k] + pool[k + 1..];
      assert forall y :: y in rest ==> y in pool;
      assert x in pool && x !in rest && x !in r;
      r, pool := r + [x], rest;
    }
  }

  // ----- the addresses of a network -----

  /** `range(start, stop)` */
  datatype Offsets = Offsets(start: nat, stop: nat)

  /** `_host_offsets`: the network and broadcast addresses are skipped up to /30, the first address of
      an IPv6 network up to /126. */
  function HostOffsets(net: Subnet): Offsets {
    var total := net.Size();
    if net.family == V4 then (if net.len <= 30 then Offsets(1, total - 1) else Offsets(0, total))
    else (if net.len <= 126 then Offsets(1, total) else Offsets(0, total))
  }

  /** `make(i)` */
  function AddressAt(net: Subnet, offset: nat): Interface {
    Interface(Address(net.family, net.base + offset), net.len)
  }

  predicate Excluded(i: Interface, exIps: set<Interface>, exNets: seq<Subnet>) {
    i in exIps || exists k :: 0 <= k < |exNets| && exNets[k].Contains(i.ip)
  }

  /** The offsets among `lo..hi` whose address is not excluded, nor in a range of `taken`. */
  ghost function FreeSet(net: Subnet, lo: nat, hi: nat, exIps: set<Interface>, exNets: seq<Subnet>, taken: seq<Range>): set<nat> {
    set o | lo <= o < hi && !Excluded(AddressAt(net, o), exIps, exNets) && !InAnyRange(taken, o)
  }

  function FreeOffsets(net: Subnet, lo: nat, hi: nat, exIps: set<Interface>, exNets: seq<Subnet>, taken: seq<Range>): seq<nat>
    decreases hi
  {
    if hi <= lo then []
    else
      FreeOffsets(net, lo, hi - 1, exIps, exNets, taken)
      + (if !Excluded(AddressAt(net, hi - 1), exIps, exNets) && !InAnyRange(taken, hi - 1) then [hi - 1] else [])
  }

  lemma {:induction false} FreeOffsetsAre(net: Subnet, lo: nat, hi: nat, exIps: set<Interface>, exNets: seq<Subnet>, taken: seq<Range>)
    ensures var r := FreeOffsets(net, lo, hi, exIps, exNets, taken);
            var free := FreeSet(net, lo, hi, exIps, exNets, taken);
            && Distinct(r) && |r| == |free| && (forall o :: o in r <==> o in free)
    decreases hi
  {
    hide Excluded, InAnyRange;
    var r := FreeOffsets(net, lo, hi, exIps, exNets, taken);
    var free := FreeSet(net, lo, hi, exIps, exNets, taken);
    if hi <= lo {
      assert free == {};
    } else {
      FreeOffsetsAre(net, lo, hi - 1, exIps, exNets, taken);
      var before := FreeSet(net, lo, hi - 1, exIps, exNets, taken);
      if !Excluded(AddressAt(net, hi - 1), exIps, exNets) && !InAnyRange(taken, hi - 1) {
        assert free == before + {hi - 1};
      } else {
        assert free == before;
      }
    }
  }

  function AddressesAt(net: Subnet, offsets: seq<nat>): (r: seq<Interface>)
    ensures |r| == |offsets| && forall i :: 0 <= i < |offsets| ==> r[i] == AddressAt(net, offsets[i])
  {
    seq(|offsets|, i requires 0 <= i < |offsets| => AddressAt(net, offsets[i]))
  }

  // ----- plain addresses -----

  /** `n` distinct host addresses of `net`, none excluded. */
  ghost predicate Picked(net: Subnet, n: nat, exIps: set<Interface>, exNets: seq<Subnet>, r: seq<Interface>) {
    && |r| == n && Distinct(r)
    && forall i :: i in r ==>
         && !Excluded(i, exIps, exNets)
         && exists o :: HostOffsets(net).start <= o < HostOffsets(net).stop && i == AddressAt(net, o)
  }

  /** The number of usable addresses. */
  ghost function CountUsable(net: Subnet, exIps: set<Interface>, exNets: seq<Subnet>): nat {
    |FreeSet(net, HostOffsets(net).start, HostOffsets(net).stop, exIps, exNets, [])|
  }

  /** A usable address of the network is excluded. */
  ghost predicate SomeExcluded(net: Subnet, exIps: set<Interface>, exNets: seq<Subnet>) {
    exists o: nat :: o < net.Size() && Excluded(AddressAt(net, o), exIps, exNets)
  }

  /** `_random_addresses`: in a small network it fails exactly when too few addresses are usable. */
  method RandomAddresses(net: Subnet, n: nat, exIps: set<Interface>, exNets: seq<Subnet>)
    returns (r: Result<seq<Interface>, AddressError>)
    ensures r.Success? ==> Picked(net, n, exIps, exNets, r.value)
    ensures net.Size() <= 65536 ==> (r.Failure? <==> CountUsable(net, exIps, exNets) < n)
    ensures r.Failure? ==> r.error == if net.Size() <= 65536 then NotEnough else GaveUp
    ensures r == Failure(GaveUp) ==> n > 1 || (n == 1 && SomeExcluded(net, exIps, exNets))
  {
    var host := HostOffsets(net);
    if net.Size() <= SMALL {
      var candidates := FreeOffsets(net, host.start, host.stop, exIps, exNets, []);
      FreeOffsetsAre(net, host.start, host.stop, exIps, exNets, []);
      if |candidates| < n {
        return Failure(NotEnough);
      }
      var sample := Sample(candidates, n);
      forall i | i in AddressesAt(net, sample)
        ensures !Excluded(i, exIps, exNets)
        ensures exists o :: host.start <= o < host.stop && i == AddressAt(net, o)
      {
        var k :| 0 <= k < |sample| && AddressesAt(net, sample)[k] == i;
        assert sample[k] in candidates;
      }
      return Success(AddressesAt(net, sample));
    }
    r := ProbeAddresses(net, n, exIps, exNets);
  }

  method ProbeAddresses(net: Subnet, n: nat, exIps: set<Interface>, exNets: seq<Subnet>)
    returns (r: Result<seq<Interface>, AddressError>)
    requires net.Size() > SMALL
    ensures r.Success? ==> Picked(net, n, exIps, exNets, r.value)
    ensures r.Failure? ==> r.error == GaveUp && (n > 1 || (n == 1 && SomeExcluded(net, exIps, exNets)))
  {
    var host := HostOffsets(net);
    var working := exIps;
    var result: seq<Interface> := [];
    for k := 0 to n
      invariant Picked(net, k, exIps, exNets, result)
      invariant working == exIps + (set i | i in result)
    {
      var found := false;
      var attempt := 0;
      while attempt < 1000 && !found
        invariant if found then Picked(net, k + 1, exIps, exNets, result) else Picked(net, k, exIps, exNets, result)
        invariant attempt > 0 && !found ==> k > 0 || SomeExcluded(net, exIps, exNets)
        invariant working == exIps + (set i | i in result)
      {
        var o: nat :| host.start <= o < host.stop;
        var candidate := AddressAt(net, o);
        if candidate !in working && !Excluded(candidate, {}, exNets) {
          result := result + [candidate];
          working := working + {candidate};
          found := true;
        }
        attempt := attempt + 1;
      }
      if !found {
        return Failure(GaveUp);
      }
    }
    return Success(result);
  }

  // ----- ordered ranges -----

  /** Offsets `lo..hi`, both included. */
  datatype Range = Range(lo: nat, hi: nat)

  predicate InAnyRange(ranges: seq<Range>, o: nat) {
    exists k :: 0 <= k < |ranges| && ranges[k].lo <= o <= ranges[k].hi
  }

  function SumFrom(gaps: seq<nat>, i: nat): nat
    requires i <= |gaps|
    decreases |gaps| - i
  {
    if i == |gaps| then 0 else gaps[i] + SumFrom(gaps, i + 1)
  }

  /** `hi_for(i)`: the last start that leaves room for the ranges from `i` on. */
  function LastStart(total: nat, gaps: seq<nat>, i: nat): int
    requires i <= |gaps|
  {
    total - 1 - SumFrom(gaps, i) - (|gaps| - 1 - i)
  }

  /** The first ranges: each of its gap, in strict order, inside the network, with free ends. */
  ghost predicate Placed(net: Subnet, gaps: seq<nat>, exIps: set<Interface>, exNets: seq<Subnet>, ranges: seq<Range>) {
    && |ranges| <= |gaps|
    && (forall i :: 0 <= i < |ranges| ==>
          && ranges[i].hi == ranges[i].lo + gaps[i] && ranges[i].hi < net.Size()
          && !Excluded(AddressAt(net, ranges[i].lo), exIps, exNets)
          && !Excluded(AddressAt(net, ranges[i].hi), exIps, exNets))
    && (forall i, j :: 0 <= i < j < |ranges| ==> ranges[i].hi < ranges[j].lo)
  }

  lemma {:induction false} SumShrinks(gaps: seq<nat>, i: nat)
    requires i <= |gaps|
    ensures SumFrom(gaps, i) <= SumFrom(gaps, 0)
    decreases i
  {
    if i > 0 {
      SumShrinks(gaps, i - 1);
    }
  }

  /** A start for range `i` in `lo..hi` with free ends, or none. */
  method ChooseStart(net: Subnet, lo: nat, hi: nat, gap: nat, exIps: set<Interface>, exNets: seq<Subnet>)
    returns (s: Option<nat>)
    requires lo <= hi
    ensures s.Some? ==> lo <= s.value <= hi
                        && !Excluded(AddressAt(net, s.value), exIps, exNets)
                        && !Excluded(AddressAt(net, s.value + gap), exIps, exNets)
    ensures s.None? ==> exists o: nat :: o <= hi + gap && Excluded(AddressAt(net, o), exIps, exNets)
  {
    if hi - lo + 1 <= SMALL {
      var candidates: seq<nat> := [];
      for j := lo to hi + 1
        invariant forall x :: x in candidates ==>
                    lo <= x <= hi && !Excluded(AddressAt(net, x), exIps, exNets)
                    && !Excluded(AddressAt(net, x + gap), exIps, exNets)
        invariant j > lo && candidates == [] ==> exists o: nat :: o <= hi + gap && Excluded(AddressAt(net, o), exIps, exNets)
      {
        if !Excluded(AddressAt(net, j), exIps, exNets) && !Excluded(AddressAt(net, j + gap), exIps, exNets) {
          candidates := candidates + [j];
        }
      }
      if candidates == [] {
        return None;
      }
      var k: nat :| k < |candidates|;
      assert candidates[k] in candidates;
      return Some(candidates[k]);
    }
    for attempt := 0 to 1000
      invariant attempt > 0 ==> exists o: nat :: o <= hi + gap && Excluded(AddressAt(net, o), exIps, exNets)
    {
      var c: nat :| lo <= c <= hi;
      if !Excluded(AddressAt(net, c), exIps, exNets) && !Excluded(AddressAt(net, c + gap), exIps, exNets) {
        return Some(c);
      }
    }
    return None;
  }

  /** A start within its bound leaves room for the next range. */
  lemma NextRoom(total: nat, gaps: seq<nat>, i: nat, s: nat)
    requires i < |gaps| && s <= LastStart(total, gaps, i)
    ensures s + gaps[i] < total
    ensures i + 1 < |gaps| ==> s + gaps[i] + 1 <= LastStart(total, gaps, i + 1)
  {
  }

  lemma LastFits(total: nat, gaps: seq<nat>, i: nat)
    requires i < |gaps|
    ensures LastStart(total, gaps, i) + gaps[i] < total
  {
  }

  lemma OneMoreRange(net: Subnet, gaps: seq<nat>, exIps: set<Interface>, exNets: seq<Subnet>, ranges: seq<Range>, s: nat)
    requires |ranges| < |gaps| && Placed(net, gaps, exIps, exNets, ranges)
    requires forall j :: 0 <= j < |ranges| ==> ranges[j].hi < s
    requires s + gaps[|ranges|] < net.Size()
    requires !Excluded(AddressAt(net, s), exIps, exNets) && !Excluded(AddressAt(net, s + gaps[|ranges|]), exIps, exNets)
    ensures Placed(net, gaps, exIps, exNets, ranges + [Range(s, s + gaps[|ranges|])])
  {
    hide Excluded, Block.Size;
  }

  /** `try_place_ranges`: a placement from left to right never runs out of room, so that it fails only
      when an address of the network is excluded. */
  method TryPlaceRanges(net: Subnet, gaps: seq<nat>, suffixSums: array<nat>, exIps: set<Interface>, exNets: seq<Subnet>)
    returns (r: Option<seq<Range>>)
    requires SumFrom(gaps, 0) + |gaps| <= net.Size()
    requires suffixSums.Length == |gaps| + 1
    requires forall i :: 0 <= i <= |gaps| ==> suffixSums[i] == SumFrom(gaps, i)
    ensures r.Some? ==> |r.value| == |gaps| && Placed(net, gaps, exIps, exNets, r.value)
    ensures r.None? ==> SomeExcluded(net, exIps, exNets)
  {
    hide Excluded, Block.Size, Placed, SumFrom;
    var total := net.Size();
    var ranges: seq<Range> := [];
    var lo: nat := 0;
    NothingPlaced(net, gaps, exIps, exNets);
    for i := 0 to |gaps|
      invariant |ranges| == i && Placed(net, gaps, exIps, exNets, ranges)
      invariant forall j :: 0 <= j < i ==> ranges[j].hi < lo
      invariant i < |gaps| ==> lo <= LastStart(total, gaps, i)
    {
      var h := total - 1 - suffixSums[i] - (|gaps| - 1 - i);
      if h < lo {
        assert false;  // the exit of the source for lack of room is never taken
      }
      var s := ChooseStart(net, lo, h, gaps[i], exIps, exNets);
      if s.None? {
        LastFits(total, gaps, i);
        return None;
      }
      NextRoom(total, gaps, i, s.value);
      OneMoreRange(net, gaps, exIps, exNets, ranges, s.value);
      ranges := ranges + [Range(s.value, s.value + gaps[i])];
      lo := s.value + gaps[i] + 1;
    }
    return Some(ranges);
  }

  lemma NothingPlaced(net: Subnet, gaps: seq<nat>, exIps: set<Interface>, exNets: seq<Subnet>)
    ensures Placed(net, gaps, exIps, exNets, [])
  {
  }

  // ----- ranges and extra addresses -----

  function Endpoints(net: Subnet, ranges: seq<Range>): seq<Interface> {
    if ranges == [] then []
    else
      var last := ranges[|ranges| - 1];
      Endpoints(net, ranges[..|ranges| - 1]) + [AddressAt(net, last.lo), AddressAt(net, last.hi)]
  }

  /** `n` distinct addresses of the network, none excluded and none in a range. */
  ghost predicate Extras(net: Subnet, n: nat, exIps: set<Interface>, exNets: seq<Subnet>, ranges: seq<Range>, r: seq<Interface>) {
    && |r| == n && Distinct(r)
    && forall i :: i in r ==>
         && !Excluded(i, exIps, exNets)
         && exists o :: 0 <= o < net.Size() && !InAnyRange(ranges, o) && i == AddressAt(net, o)
  }

  /** The list returned: the ends of the ranges, in order, then the extra addresses. */
  ghost predicate RangesAndExtras(net: Subnet, gaps: seq<nat>, n: nat, exIps: set<Interface>, exNets: seq<Subnet>,
                                  ranges: seq<Range>, extras: seq<Interface>, r: seq<Interface>) {
    && |ranges| == |gaps| && Placed(net, gaps, exIps, exNets, ranges)
    && Extras(net, n, exIps, exNets, ranges, extras)
    && r == Endpoints(net, ranges) + extras
  }

  method ChooseExtras(net: Subnet, n: nat, exIps: set<Interface>, exNets: seq<Subnet>, ranges: seq<Range>)
    returns (r: Result<seq<Interface>, AddressError>)
    ensures r.Success? ==> Extras(net, n, exIps, exNets, ranges, r.value)
    ensures net.Size() <= 65536 ==> (r.Failure? <==> |FreeSet(net, 0, net.Size(), exIps, exNets, ranges)| < n)
    ensures r.Failure? ==> r.error == if net.Size() <= 65536 then NotEnough else GaveUp
    ensures r == Failure(GaveUp) ==>
              n > 1 || (n == 1 && exists o: nat :: o < net.Size() && (Excluded(AddressAt(net, o), exIps, exNets) || InAnyRange(ranges, o)))
  {
    var total := net.Size();
    if total <= SMALL {
      var candidates := FreeOffsets(net, 0, total, exIps, exNets, ranges);
      FreeOffsetsAre(net, 0, total, exIps, exNets, ranges);
      if |candidates| < n {
        return Failure(NotEnough);
      }
      var sample := Sample(candidates, n);
      forall i | i in AddressesAt(net, sample)
        ensures !Excluded(i, exIps, exNets)
        ensures exists o :: 0 <= o < total && !InAnyRange(ranges, o) && i == AddressAt(net, o)
      {
        var k :| 0 <= k < |sample| && AddressesAt(net, sample)[k] == i;
        assert sample[k] in candidates;
      }
      return Success(AddressesAt(net, sample));
    }
    var extras: seq<Interface> := [];
    for k := 0 to n
      invariant Extras(net, k, exIps, exNets, ranges, extras)
    {
      var found := false;
      var attempt := 0;
      while attempt < 1000 && !found
        invariant Extras(net, if found then k + 1 else k, exIps, exNets, ranges, extras)
        invariant attempt > 0 && !found ==>
                    k > 0 || exists o: nat :: o < total && (Excluded(AddressAt(net, o), exIps, exNets) || InAnyRange(ranges, o))
      {
        var o: nat :| o < total;
        var candidate := AddressAt(net, o);
        if !Excluded(candidate, exIps, exNets) && !InAnyRange(ranges, o) && candidate !in extras {
          extras := extras + [candidate];
          found := true;
        }
        attempt := attempt + 1;
      }
      if !found {
        return Failure(GaveUp);
      }
    }
    return Success(extras);
  }

  /** `suffix_sums`, filled from the right. */
  method SuffixSums(gaps: seq<nat>) returns (sums: array<nat>)
    ensures fresh(sums) && sums.Length == |gaps| + 1
    ensures forall j :: 0 <= j <= |gaps| ==> sums[j] == SumFrom(gaps, j)
  {
    var k := |gaps|;
    sums := new nat[k + 1](_ => 0);
    var i := k;
    while i > 0
      invariant 0 <= i <= k
      invariant forall j :: i <= j <= k ==> sums[j] == SumFrom(gaps, j)
    {
      i := i - 1;
      sums[i] := sums[i + 1] + gaps[i];
    }
  }

  /** A placement, tried at most 1000 times. */
  method PlaceRanges(net: Subnet, gaps: seq<nat>, sums: array<nat>, exIps: set<Interface>, exNets: seq<Subnet>)
    returns (placed: Option<seq<Range>>)
    requires SumFrom(gaps, 0) + |gaps| <= net.Size() && sums.Length == |gaps| + 1
    requires forall i :: 0 <= i <= |gaps| ==> sums[i] == SumFrom(gaps, i)
    ensures placed.Some? ==> |placed.value| == |gaps| && Placed(net, gaps, exIps, exNets, placed.value)
    ensures placed.None? ==> SomeExcluded(net, exIps, exNets)
  {
    hide Placed, SumFrom, Block.Size, SomeExcluded;
    placed := None;
    var attempt := 0;
    while attempt < 1000 && placed.None?
      invariant placed.Some? ==> |placed.value| == |gaps| && Placed(net, gaps, exIps, exNets, placed.value)
      invariant attempt > 0 && placed.None? ==> SomeExcluded(net, exIps, exNets)
      decreases 1000 - attempt
    {
      placed := TryPlaceRanges(net, gaps, sums, exIps, exNets);
      attempt := attempt + 1;
    }
  }

  /** `_random_addresses_with_range` */
  method RandomAddressesWithRange(net: Subnet, gaps: seq<nat>, n: nat, exIps: set<Interface>, exNets: seq<Subnet>)
    returns (r: Result<seq<Interface>, AddressError>)
    ensures r.Success? ==> exists ranges, extras :: RangesAndExtras(net, gaps, n, exIps, exNets, ranges, extras, r.value)
    ensures r == Failure(TooSmall) <==> net.Size() < SumFrom(gaps, 0) + |gaps|
    ensures r == Failure(CannotPlace) ==> SomeExcluded(net, exIps, exNets)
    ensures r == Failure(NotEnough) ==> net.Size() <= 65536 && exists ranges ::
              (&& |ranges| == |gaps| && Placed(net, gaps, exIps, exNets, ranges)
               && |FreeSet(net, 0, net.Size(), exIps, exNets, ranges)| < n)
    ensures r == Failure(GaveUp) ==>
              net.Size() > 65536 && n > 0 && (n > 1 || gaps != [] || SomeExcluded(net, exIps, exNets))
  {
    hide Placed, SumFrom, Block.Size, Extras, Endpoints;
    var sums := SuffixSums(gaps);
    if net.Size() < sums[0] + |gaps| {
      return Failure(TooSmall);
    }
    var placed := PlaceRanges(net, gaps, sums, exIps, exNets);
    if placed.None? {
      return Failure(CannotPlace);
    }
    var extras := ChooseExtras(net, n, exIps, exNets, placed.value);
    if extras.Failure? {
      return Failure(extras.error);
    }
    var list := Endpoints(net, placed.value) + extras.value;
    assert RangesAndExtras(net, gaps, n, exIps, exNets, placed.value, extras.value, list);
    return Success(list);
  }

  // ----- what the list satisfies -----

  lemma {:induction false} EndpointsAt(net: Subnet, ranges: seq<Range>)
    ensures |Endpoints(net, ranges)| == 2 * |ranges|
    ensures forall i :: 0 <= i < |ranges| ==>
              Endpoints(net, ranges)[2 * i] == AddressAt(net, ranges[i].lo)
              && Endpoints(net, ranges)[2 * i + 1] == AddressAt(net, ranges[i].hi)
  {
    if ranges != [] {
      EndpointsAt(net, ranges[..|ranges| - 1]);
    }
  }

  function EndOffset(ranges: seq<Range>, i: nat): nat
    requires i < 2 * |ranges|
  {
    if i % 2 == 0 then ranges[i / 2].lo else ranges[i / 2].hi
  }

  lemma EndpointIs(net: Subnet, ranges: seq<Range>, i: nat)
    requires i < 2 * |ranges|
    ensures |Endpoints(net, ranges)| == 2 * |ranges|
    ensures Endpoints(net, ranges)[i] == AddressAt(net, EndOffset(ranges, i))
  {
    EndpointsAt(net, ranges);
    hide Endpoints;
    assert i == 2 * (i / 2) + i % 2;
  }

  /** The ends in order: increasing, and equal only for the two ends of a range whose gap is 0. */
  lemma EndpointOrder(net: Subnet, gaps: seq<nat>, exIps: set<Interface>, exNets: seq<Subnet>, ranges: seq<Range>, i: nat, j: nat)
    requires Placed(net, gaps, exIps, exNets, ranges) && |ranges| == |gaps|
    requires i < j < 2 * |ranges|
    ensures EndOffset(ranges, i) <= EndOffset(ranges, j)
    ensures EndOffset(ranges, i) == EndOffset(ranges, j) <==> i / 2 == j / 2 && gaps[i / 2] == 0
  {
    hide Excluded, Block.Size;
    var a, b := i / 2, j / 2;
    assert i == 2 * a + i % 2 && j == 2 * b + j % 2;
    if a < b {
      assert ranges[a].lo <= ranges[a].hi < ranges[b].lo <= ranges[b].hi;
    } else {
      assert a == b && i % 2 == 0 && j % 2 == 1;
    }
  }

  /** The addresses are all distinct exactly when no gap is 0: a gap of 0 repeats its address. */
  lemma DistinctWhenNoZeroGap(net: Subnet, gaps: seq<nat>, n: nat, exIps: set<Interface>, exNets: seq<Subnet>,
                              ranges: seq<Range>, extras: seq<Interface>, r: seq<Interface>)
    requires RangesAndExtras(net, gaps, n, exIps, exNets, ranges, extras, r)
    ensures |r| == n + 2 * |gaps|
    ensures Distinct(r) <==> forall g :: g in gaps ==> g > 0
  {
    EndpointsAt(net, ranges);
    var ends := Endpoints(net, ranges);
    if forall g :: g in gaps ==> g > 0 {
      forall i, j | 0 <= i < j < |r|
        ensures r[i] != r[j]
      {
        if j < |ends| {
          EndpointOrder(net, gaps, exIps, exNets, ranges, i, j);
          EndpointIs(net, ranges, i);
          EndpointIs(net, ranges, j);
          assert gaps[i / 2] in gaps;
        } else if i < |ends| {
          EndpointNoExtra(net, gaps, n, exIps, exNets, ranges, extras, i, j - |ends|);
        } else {
          assert extras[i - |ends|] != extras[j - |ends|];
        }
      }
    } else {
      var g :| g in gaps && g == 0;
      var i :| 0 <= i < |gaps| && gaps[i] == g;
      assert ends[2 * i] == ends[2 * i + 1];
      assert r[2 * i] == r[2 * i + 1];
    }
  }

  lemma EndpointNoExtra(net: Subnet, gaps: seq<nat>, n: nat, exIps: set<Interface>, exNets: seq<Subnet>,
                        ranges: seq<Range>, extras: seq<Interface>, i: nat, j: nat)
    requires Placed(net, gaps, exIps, exNets, ranges) && |ranges| == |gaps|
    requires Extras(net, n, exIps, exNets, ranges, extras) && i < 2 * |ranges| && j < |extras|
    ensures |Endpoints(net, ranges)| == 2 * |ranges| && Endpoints(net, ranges)[i] != extras[j]
  {
    EndpointIs(net, ranges, i);
    assert extras[j] in extras;
    var o :| 0 <= o < net.Size() && !InAnyRange(ranges, o) && extras[j] == AddressAt(net, o);
    hide Excluded, Endpoints, Block.Size;
    assert ranges[i / 2].lo <= EndOffset(ranges, i) <= ranges[i / 2].hi;
  }

  /** A range of gap 0 at any offset: its address is listed twice. */
  lemma ZeroGapRepeats(net: Subnet, o: nat)
    requires o < net.Size()
    ensures var a := AddressAt(net, o);
            RangesAndExtras(net, [0], 0, {}, [], [Range(o, o)], [], [a, a]) && !Distinct([a, a])
  {
    var a := AddressAt(net, o);
    assert [Range(o, o)][..0] == [];
    assert Endpoints(net, [Range(o, o)]) == [a, a];
    assert [a, a][0] == [a, a][1];
  }

  // ----- in terms of the addresses -----

  /** An address that a host may have: in the network, with its length; not the first and the last one of an IPv4
      network up to /30, not the first one of an IPv6 network up to /126. */
  predicate HostOf(net: Subnet, i: Interface) {
    && i.ip.family == net.family && i.len == net.len && net.base <= i.ip.value <= net.Last()
    && (net.family == V4 && net.len < 31 ==> i.ip.value != net.base && i.ip.value != net.Last())
    && (net.family == V6 && net.len < 127 ==> i.ip.value != net.base)
  }

  lemma HostsAre(net: Subnet, i: Interface)
    ensures HostOf(net, i) <==> exists o :: HostOffsets(net).start <= o < HostOffsets(net).stop && i == AddressAt(net, o)
  {
    hide Pow2;
    if HostOf(net, i) {
      var o := i.ip.value - net.base;
      assert i == AddressAt(net, o);
    }
  }

  /** The addresses that `random_ipv4s` and `random_ipv6s` return: different hosts, none excluded by itself or by
      a network. */
  lemma PickedMeans(net: Subnet, n: nat, exIps: set<Interface>, exNets: seq<Subnet>, r: seq<Interface>)
    ensures Picked(net, n, exIps, exNets, r) <==>
            && |r| == n && (forall i, j :: 0 <= i < j < n ==> r[i] != r[j])
            && forall i :: i in r ==> HostOf(net, i) && i !in exIps && forall x :: x in exNets ==> !Holds(x, i.ip)
  {
    hide HostOf, HostOffsets, AddressAt;
    forall i | i in r
      ensures HostOf(net, i) <==> exists o :: HostOffsets(net).start <= o < HostOffsets(net).stop && i == AddressAt(net, o)
      ensures !Excluded(i, exIps, exNets) <==> i !in exIps && forall x :: x in exNets ==> !Holds(x, i.ip)
    {
      HostsAre(net, i);
      ExcludedMeans(i, exIps, exNets);
    }
    hide Excluded, Holds;
  }

  predicate Holds(net: Subnet, a: Address) {
    a.family == net.family && net.base <= a.value <= net.Last()
  }

  lemma ExcludedMeans(i: Interface, exIps: set<Interface>, exNets: seq<Subnet>)
    ensures Excluded(i, exIps, exNets) <==> i in exIps || exists x :: x in exNets && Holds(x, i.ip)
  {
    if k :| 0 <= k < |exNets| && exNets[k].Contains(i.ip) {
      assert exNets[k] in exNets;
    }
    if x :| x in exNets && Holds(x, i.ip) {
      var k :| 0 <= k < |exNets| && exNets[k] == x;
      assert exNets[k].Contains(i.ip);
    }
  }

  /** The ends of range `k` in the list */
  function LowEnd(r: seq<Interface>, k: nat): nat
    requires 2 * k < |r|
  {
    r[2 * k].ip.value
  }

  function HighEnd(r: seq<Interface>, k: nat): nat
    requires 2 * k + 1 < |r|
  {
    r[2 * k + 1].ip.value
  }

  /** What the documentation guarantees about the list of ranges and extra addresses: the ends of each range are its gap
      apart, the ranges are in strict order, and the extra addresses lie outside them; all are addresses of the network,
      and neither ends nor extra addresses are excluded. */
  lemma RangesMean(net: Subnet, gaps: seq<nat>, n: nat, exIps: set<Interface>, exNets: seq<Subnet>,
                   ranges: seq<Range>, extras: seq<Interface>, r: seq<Interface>)
    requires RangesAndExtras(net, gaps, n, exIps, exNets, ranges, extras, r)
    ensures |r| == 2 * |gaps| + n
    ensures forall i :: 0 <= i < |r| ==> r[i].len == net.len && Holds(net, r[i].ip)
    ensures forall i :: 0 <= i < |r| ==> r[i] !in exIps && forall x :: x in exNets ==> !Holds(x, r[i].ip)
    ensures forall k :: 0 <= k < |gaps| ==> HighEnd(r, k) - LowEnd(r, k) == gaps[k]
    ensures forall k, l :: 0 <= k < l < |gaps| ==> HighEnd(r, k) < LowEnd(r, l)
    ensures forall k, j :: 0 <= k < |gaps| && 2 * |gaps| <= j < |r| ==>
              !(LowEnd(r, k) <= r[j].ip.value <= HighEnd(r, k))
    ensures forall i, j :: 2 * |gaps| <= i < j < |r| ==> r[i] != r[j]
  {
    EndpointsAt(net, ranges);
    hide Excluded, Endpoints, Block.Size, InAnyRange;
    forall i | 0 <= i < |r|
      ensures r[i].len == net.len && Holds(net, r[i].ip)
      ensures r[i] !in exIps && forall x :: x in exNets ==> !Holds(x, r[i].ip)
    {
      ExcludedMeans(r[i], exIps, exNets);
      if i < 2 * |ranges| {
        EndpointIs(net, ranges, i);
      } else {
        assert r[i] in extras;
      }
    }
    forall k, j | 0 <= k < |gaps| && 2 * |gaps| <= j < |r|
      ensures !(LowEnd(r, k) <= r[j].ip.value <= HighEnd(r, k))
    {
      assert r[j] in extras;
      var o :| 0 <= o < net.Size() && !InAnyRange(ranges, o) && r[j] == AddressAt(net, o);
      NotInRange(ranges, o, k);
    }
    forall i, j | 2 * |gaps| <= i < j < |r|
      ensures r[i] != r[j]
    {
      assert extras[i - 2 * |gaps|] != extras[j - 2 * |gaps|];
    }
  }

  lemma NotInRange(ranges: seq<Range>, o: nat, k: nat)
    requires !InAnyRange(ranges, o) && k < |ranges|
    ensures !(ranges[k].lo <= o <= ranges[k].hi)
  {
  }
}
