/**
 Random allocation of disjoint networks: the aligned blocks of a search space, minus exclusions.
 Every random choice is arbitrary.
 */
module NetworkAllocation {
  import opened Wrappers
  import opened IpAddresses

  // ----- the search space -----

  /** `range(start, start + count)` */
  datatype Span = Span(start: nat, count: nat)

  predicate InSpan(s: Span, i: nat) {
    s.start <= i < s.start + s.count
  }

  /** The indices of the blocks of `size` addresses that lie in `a..b`, both included. */
  function IndicesIn(a: nat, b: nat, size: nat): Span
    requires size >= 1
  {
    var first := (a + size - 1) / size;
    var last := (b + 1) / size - 1;
    if first <= last then Span(first, last + 1 - first) else Span(0, 0)
  }

  lemma DivUp(a: nat, size: nat, i: nat)
    requires size >= 1
    ensures (a + size - 1) / size <= i <==> a <= i * size
  {
    var q := (a + size - 1) / size;
    assert q * size <= a + size - 1 < q * size + size;
    if q <= i {
      MulMonotone(q, i, size);
    } else {
      MulMonotone(i + 1, q, size);
      assert (i + 1) * size == i * size + size;
    }
  }

  lemma DivDown(b: nat, size: nat, i: nat)
    requires size >= 1
    ensures i < (b + 1) / size <==> i * size + size - 1 <= b
  {
    var q := (b + 1) / size;
    assert q * size <= b + 1 < q * size + size;
    assert (i + 1) * size == i * size + size;
    if i < q {
      MulMonotone(i + 1, q, size);
    } else {
      MulMonotone(q, i, size);
    }
  }

  /** `indices_in` yields exactly the aligned blocks inside the box. */
  lemma IndicesExact(a: nat, b: nat, size: nat, i: nat)
    requires size >= 1
    ensures InSpan(IndicesIn(a, b, size), i) <==> a <= i * size && i * size + size - 1 <= b
  {
    DivUp(a, size, i);
    DivDown(b, size, i);
  }

  datatype Box = Box(lo: nat, hi: nat)

  function Max(a: nat, b: nat): nat {
    if a < b then b else a
  }

  function Min(a: nat, b: nat): nat {
    if a < b then a else b
  }

  /** The network of prefix length `len` whose prefix has the value `k` */
  function Prefixed(f: Family, len: nat, k: nat): Subnet
    requires len <= Width(f) && k < Pow2(len)
  {
    PrefixIsNetwork(f, len, k);
    BlockAt(f, len, k)
  }

  /** The private ranges of a family: 10.0.0.0/8, 172.16.0.0/12, 192.168.0.0/16; fd00::/8. */
  function PrivateNetworks(f: Family): seq<Subnet> {
    match f
    case V4 => [Prefixed(V4, 8, 10), Prefixed(V4, 12, 172 * 16 + 1), Prefixed(V4, 16, 192 * 256 + 168)]
    case V6 => [Prefixed(V6, 8, 0xfd)]
  }

  /** The parts of the search space: `from` itself, or its intersections with the private ranges. */
  function Boxes(from: Subnet, ranges: seq<Block>): seq<Box> {
    if ranges == [] then []
    else
      var p := ranges[|ranges| - 1];
      var lo, hi := Max(from.base, p.base), Min(from.Last(), p.Last());
      Boxes(from, ranges[..|ranges| - 1]) + (if lo <= hi then [Box(lo, hi)] else [])
  }

  function SearchSpace(from: Subnet, private: bool): seq<Box> {
    if private then Boxes(from, PrivateNetworks(from.family)) else [Box(from.base, from.Last())]
  }

  function SpansOf(boxes: seq<Box>, size: nat): seq<Span>
    requires size >= 1
  {
    if boxes == [] then []
    else
      var r := IndicesIn(boxes[|boxes| - 1].lo, boxes[|boxes| - 1].hi, size);
      SpansOf(boxes[..|boxes| - 1], size) + (if r.count > 0 then [r] else [])
  }

  function Total(spans: seq<Span>): nat {
    if spans == [] then 0 else Total(spans[..|spans| - 1]) + spans[|spans| - 1].count
  }

  // ----- what may be returned -----

  /** Block `b` lies in the search space. */
  ghost predicate Allowed(from: Subnet, private: bool, mask: nat, b: Block) {
    && b.Valid() && b.family == from.family && b.len == mask
    && b.SubnetOf(from)
    && (private ==> exists p :: p in PrivateNetworks(from.family) && b.SubnetOf(p))
  }

  ghost predicate AvoidsAll(b: Block, exclude: seq<Subnet>) {
    forall ex :: ex in exclude ==> Disjoint(b, ex)
  }

  /** `overlaps` is the negation of disjointness. */
  lemma OverlapsIs(a: Block, b: Block)
    requires a.family == b.family
    ensures a.Overlaps(b) <==> !Disjoint(a, b)
  {
  }

  function SameFamily(f: Family, exclude: seq<Subnet>): (r: seq<Subnet>)
    ensures forall ex :: ex in r <==> ex in exclude && ex.family == f
  {
    if exclude == [] then []
    else
      assert exclude == exclude[..|exclude| - 1] + [exclude[|exclude| - 1]];
      SameFamily(f, exclude[..|exclude| - 1])
      + (if exclude[|exclude| - 1].family == f then [exclude[|exclude| - 1]] else [])
  }

  /** No exclusion, all of the block's family, overlaps it. */
  predicate Available(b: Block, exclude: seq<Subnet>) {
    forall i :: 0 <= i < |exclude| ==> !b.Overlaps(exclude[i])
  }

  lemma AvailableIs(b: Block, exclude: seq<Subnet>)
    ensures Available(b, SameFamily(b.family, exclude)) <==> AvoidsAll(b, exclude)
  {
    var same := SameFamily(b.family, exclude);
    forall ex | ex in same
      ensures b.Overlaps(ex) <==> !Disjoint(b, ex)
    {
      OverlapsIs(b, ex);
    }
    if Available(b, same) {
      forall ex | ex in exclude
        ensures Disjoint(b, ex)
      {
        if ex.family == b.family {
          assert ex in same;
        }
      }
    }
  }

  // ----- from indices to blocks -----

  ghost predicate Indexed(spans: seq<Span>, i: nat) {
    exists s :: s in spans && InSpan(s, i)
  }

  lemma {:induction false} IndexedBoxes(boxes: seq<Box>, size: nat, i: nat)
    requires size >= 1
    ensures Indexed(SpansOf(boxes, size), i)
       <==> exists x :: x in boxes && x.lo <= i * size && i * size + size - 1 <= x.hi
  {
    if boxes != [] {
      var front := boxes[..|boxes| - 1];
      var last := boxes[|boxes| - 1];
      IndexedBoxes(front, size, i);
      IndicesExact(last.lo, last.hi, size, i);
      assert boxes == front + [last];
      var r := IndicesIn(last.lo, last.hi, size);
      assert SpansOf(boxes, size) == SpansOf(front, size) + (if r.count > 0 then [r] else []);
      if InSpan(r, i) {
        assert r in SpansOf(boxes, size);
      }
    }
  }

  lemma {:induction false} BoxesAre(from: Subnet, ranges: seq<Block>, lo: nat, hi: nat)
    requires lo <= hi
    ensures (exists x :: x in Boxes(from, ranges) && x.lo <= lo && hi <= x.hi)
       <==> from.base <= lo && hi <= from.Last() && exists p :: p in ranges && p.base <= lo && hi <= p.Last()
  {
    if ranges != [] {
      var front := ranges[..|ranges| - 1];
      var p := ranges[|ranges| - 1];
      BoxesAre(from, front, lo, hi);
      assert ranges == front + [p];
      var x := Box(Max(from.base, p.base), Min(from.Last(), p.Last()));
      if from.base <= lo && hi <= from.Last() && p.base <= lo && hi <= p.Last() {
        assert x in Boxes(from, ranges);
      }
    }
  }

  function BlockAt(f: Family, mask: nat, i: nat): Block
    requires mask <= Width(f)
  {
    Block(f, i * Pow2(Width(f) - mask), mask)
  }

  /** The indices of the spans number exactly the blocks of the search space. */
  lemma IndexIsAllowed(from: Subnet, private: bool, mask: nat, i: nat)
    requires mask <= Width(from.family)
    ensures Indexed(SpansOf(SearchSpace(from, private), Pow2(Width(from.family) - mask)), i)
       <==> Allowed(from, private, mask, BlockAt(from.family, mask, i))
  {
    var size := Pow2(Width(from.family) - mask);
    var b := BlockAt(from.family, mask, i);
    hide Pow2;
    IndexedBoxes(SearchSpace(from, private), size, i);
    MultipleMod(i, size);
    if private {
      BoxesAre(from, PrivateNetworks(from.family), b.base, b.Last());
    }
  }

  lemma AllowedHasIndex(from: Subnet, private: bool, mask: nat, b: Block) returns (i: nat)
    requires mask <= Width(from.family) && Allowed(from, private, mask, b)
    ensures b == BlockAt(from.family, mask, i)
    ensures Indexed(SpansOf(SearchSpace(from, private), Pow2(Width(from.family) - mask)), i)
  {
    hide Pow2;
    i := Quotient(b.base, b.Size());
    IndexIsAllowed(from, private, mask, i);
  }

  lemma {:induction false} TotalCovers(spans: seq<Span>, s: Span)
    requires s in spans
    ensures s.count <= Total(spans)
  {
    assert spans == spans[..|spans| - 1] + [spans[|spans| - 1]];
    if s != spans[|spans| - 1] {
      TotalCovers(spans[..|spans| - 1], s);
    }
  }

  lemma {:induction false} TotalPositive(spans: seq<Span>) returns (s: Span)
    requires Total(spans) > 0
    ensures s in spans && s.count > 0
  {
    assert spans == spans[..|spans| - 1] + [spans[|spans| - 1]];
    if spans[|spans| - 1].count > 0 {
      s := spans[|spans| - 1];
    } else {
      s := TotalPositive(spans[..|spans| - 1]);
    }
  }

  /** Nothing fits exactly when the spans are empty. */
  lemma TotalZero(spans: seq<Span>)
    ensures Total(spans) == 0 <==> forall i :: !Indexed(spans, i)
  {
    if Total(spans) > 0 {
      var s := TotalPositive(spans);
      assert InSpan(s, s.start) && Indexed(spans, s.start);
    } else {
      forall i | Indexed(spans, i)
        ensures false
      {
        var s :| s in spans && InSpan(s, i);
        TotalCovers(spans, s);
      }
    }
  }

  lemma {:induction false} SpansNonempty(boxes: seq<Box>, size: nat)
    requires size >= 1
    ensures forall s :: s in SpansOf(boxes, size) ==> s.count > 0
  {
    if boxes != [] {
      SpansNonempty(boxes[..|boxes| - 1], size);
    }
  }

  // ----- picking one network -----

  datatype AllocationError = MaskOutOfRange | NothingFits | NoneAvailable | GaveUp

  /** `pick_abs_idx`: the fall-through after the loop is never reached. */
  method PickIndex(spans: seq<Span>, private: bool) returns (i: nat)
    requires Total(spans) > 0 && forall s :: s in spans ==> s.count > 0
    ensures Indexed(spans, i)
  {
    if private && |spans| > 1 {
      var k: nat :| k < |spans|;
      var s := spans[k];
      assert s in spans;
      var offset: nat :| offset < s.count;
      assert InSpan(s, s.start + offset);
      return s.start + offset;
    }
    var n: nat :| n < Total(spans);
    var k := 0;
    i := 0;
    while k < |spans|
      invariant k <= |spans|
      invariant n + Total(spans[..k]) < Total(spans)
      invariant spans[..|spans|] == spans
    {
      assert spans[..k + 1][..k] == spans[..k];
      if n < spans[k].count {
        assert spans[k] in spans && InSpan(spans[k], spans[k].start + n);
        return spans[k].start + n;
      }
      n := n - spans[k].count;
      k := k + 1;
      assert spans[..|spans|] == spans;
    }
    assert false;  // n < Total(spans) has made the loop return
  }

  /** The free blocks numbered by the first `n` indices of a span. */
  function FreeIn(f: Family, mask: nat, s: Span, n: nat, exclude: seq<Subnet>): (r: seq<Block>)
    requires mask <= Width(f)
    ensures forall b :: b in r <==>
              exists i :: s.start <= i < s.start + n && b == BlockAt(f, mask, i) && Available(b, exclude)
  {
    if n == 0 then []
    else
      var b := BlockAt(f, mask, s.start + n - 1);
      FreeIn(f, mask, s, n - 1, exclude) + (if Available(b, exclude) then [b] else [])
  }

  /** The candidates of the enumerating case. */
  function FreeBlocks(f: Family, mask: nat, spans: seq<Span>, exclude: seq<Subnet>): (r: seq<Block>)
    requires mask <= Width(f)
  {
    if spans == [] then []
    else
      var s := spans[|spans| - 1];
      FreeBlocks(f, mask, spans[..|spans| - 1], exclude) + FreeIn(f, mask, s, s.count, exclude)
  }

  lemma {:induction false} FreeBlocksAre(f: Family, mask: nat, spans: seq<Span>, exclude: seq<Subnet>, b: Block)
    requires mask <= Width(f)
    ensures b in FreeBlocks(f, mask, spans, exclude)
       <==> exists i :: Indexed(spans, i) && b == BlockAt(f, mask, i) && Available(b, exclude)
  {
    hide Available, BlockAt;
    if spans != [] {
      var front := spans[..|spans| - 1];
      var s := spans[|spans| - 1];
      FreeBlocksAre(f, mask, front, exclude, b);
      assert spans == front + [s];
      forall i
        ensures Indexed(spans, i) <==> Indexed(front, i) || InSpan(s, i)
      {
        if InSpan(s, i) {
          assert s in spans;
        }
      }
    }
  }

  /** What a returned network, or an error, says about the search space. */
  ghost predicate PickedWell(mask: int, from: Subnet, exclude: seq<Subnet>, private: bool,
                             r: Result<Subnet, AllocationError>) {
    match r
    case Success(b) => 0 <= mask <= Width(from.family) && Allowed(from, private, mask, b) && AvoidsAll(b, exclude)
    case Failure(MaskOutOfRange) => !(0 <= mask <= Width(from.family))
    case Failure(NothingFits) => 0 <= mask <= Width(from.family) && forall b :: !Allowed(from, private, mask, b)
    case Failure(NoneAvailable) =>
      && 0 <= mask <= Width(from.family) && (exists b :: Allowed(from, private, mask, b))
      && forall b: Block :: Allowed(from, private, mask, b) ==> !AvoidsAll(b, exclude)
    case Failure(GaveUp) =>
      && 0 <= mask <= Width(from.family) && CountBlocks(from, private, mask) > 65536
      && exists b: Block :: Allowed(from, private, mask, b) && !AvoidsAll(b, exclude)
  }

  function CountBlocks(from: Subnet, private: bool, mask: nat): nat
    requires mask <= Width(from.family)
  {
    Total(SpansOf(SearchSpace(from, private), Pow2(Width(from.family) - mask)))
  }

  lemma NothingFitsWhen(from: Subnet, private: bool, mask: nat)
    requires mask <= Width(from.family)
    ensures CountBlocks(from, private, mask) == 0 <==> forall b :: !Allowed(from, private, mask, b)
  {
    hide Allowed, SpansOf, SearchSpace, Total, Pow2;
    var spans := SpansOf(SearchSpace(from, private), Pow2(Width(from.family) - mask));
    TotalZero(spans);
    if i :| Indexed(spans, i) {
      IndexIsAllowed(from, private, mask, i);
    }
    if b :| Allowed(from, private, mask, b) {
      var i := AllowedHasIndex(from, private, mask, b);
    }
  }

  /** The candidates are the free blocks of the search space. */
  lemma CandidatesAre(from: Subnet, private: bool, mask: nat, exclude: seq<Subnet>, b: Block)
    requires mask <= Width(from.family)
    ensures b in FreeBlocks(from.family, mask, SpansOf(SearchSpace(from, private), Pow2(Width(from.family) - mask)),
                            SameFamily(from.family, exclude))
       <==> Allowed(from, private, mask, b) && AvoidsAll(b, exclude)
  {
    var spans := SpansOf(SearchSpace(from, private), Pow2(Width(from.family) - mask));
    var same := SameFamily(from.family, exclude);
    assert BlockAt(from.family, mask, 0).family == from.family;
    FreeBlocksAre(from.family, mask, spans, same, b);
    if i :| Indexed(spans, i) && b == BlockAt(from.family, mask, i) {
      IndexIsAllowed(from, private, mask, i);
      AvailableIs(b, exclude);
    }
    if Allowed(from, private, mask, b) {
      var i := AllowedHasIndex(from, private, mask, b);
      AvailableIs(b, exclude);
    }
  }

  lemma AllowedIsSubnet(from: Subnet, private: bool, mask: nat, b: Block)
    requires Allowed(from, private, mask, b)
    ensures b.Valid()
  {
  }

  /** The enumerating case: it fails exactly when no block is free. */
  method PickEnumerated(mask: nat, from: Subnet, exclude: seq<Subnet>, private: bool)
    returns (r: Result<Subnet, AllocationError>)
    requires mask <= Width(from.family) && exists b :: Allowed(from, private, mask, b)
    ensures PickedWell(mask, from, exclude, private, r)
    ensures r.Failure? ==> r.error == NoneAvailable
  {
    hide Pow2, SpansOf, SearchSpace, Allowed, AvoidsAll, Available, SameFamily;
    var candidates := FreeBlocks(from.family, mask, SpansOf(SearchSpace(from, private), Pow2(Width(from.family) - mask)),
                                 SameFamily(from.family, exclude));
    forall b
      ensures b in candidates <==> Allowed(from, private, mask, b) && AvoidsAll(b, exclude)
    {
      CandidatesAre(from, private, mask, exclude, b);
    }
    if candidates == [] {
      return Failure(NoneAvailable);
    }
    var k: nat :| k < |candidates|;
    assert candidates[k] in candidates;
    AllowedIsSubnet(from, private, mask, candidates[k]);
    return Success(candidates[k]);
  }

  lemma PickIs(mask: nat, from: Subnet, exclude: seq<Subnet>, private: bool, b: Subnet)
    requires mask <= Width(from.family) && Allowed(from, private, mask, b) && AvoidsAll(b, exclude)
    ensures PickedWell(mask, from, exclude, private, Success(b))
  {
  }

  lemma GivingUpIs(mask: nat, from: Subnet, exclude: seq<Subnet>, private: bool)
    requires mask <= Width(from.family) && CountBlocks(from, private, mask) > 65536
    requires exists b: Block :: Allowed(from, private, mask, b) && !AvoidsAll(b, exclude)
    ensures PickedWell(mask, from, exclude, private, Failure(GaveUp))
  {
  }

  /** The probing case: it returns only free blocks, and gives up only when one is taken. */
  method PickProbing(mask: nat, from: Subnet, exclude: seq<Subnet>, private: bool)
    returns (r: Result<Subnet, AllocationError>)
    requires mask <= Width(from.family) && CountBlocks(from, private, mask) > 65536
    ensures PickedWell(mask, from, exclude, private, r)
    ensures r.Failure? ==> r.error == GaveUp
  {
    var spans := SpansOf(SearchSpace(from, private), Pow2(Width(from.family) - mask));
    SpansNonempty(SearchSpace(from, private), Pow2(Width(from.family) - mask));
    var same := SameFamily(from.family, exclude);
    hide Pow2, SpansOf, SearchSpace, Allowed, AvoidsAll, Total, Available, SameFamily, PickedWell;
    for attempt := 0 to 1000
      invariant attempt > 0 ==> exists b: Block :: Allowed(from, private, mask, b) && !AvoidsAll(b, exclude)
    {
      var i := PickIndex(spans, private);
      var b := BlockAt(from.family, mask, i);
      IndexIsAllowed(from, private, mask, i);
      AvailableIs(b, exclude);
      if Available(b, same) {
        AllowedIsSubnet(from, private, mask, b);
        PickIs(mask, from, exclude, private, b);
        return Success(b);
      }
    }
    GivingUpIs(mask, from, exclude, private);
    return Failure(GaveUp);
  }

  /** `_pick_one` */
  method PickOne(mask: int, from: Subnet, exclude: seq<Subnet>, private: bool)
    returns (r: Result<Subnet, AllocationError>)
    ensures PickedWell(mask, from, exclude, private, r)
  {
    if !(0 <= mask <= Width(from.family)) {
      return Failure(MaskOutOfRange);
    }
    hide Allowed, CountBlocks;
    var total := CountBlocks(from, private, mask);
    NothingFitsWhen(from, private, mask);
    if total == 0 {
      return Failure(NothingFits);
    }
    if total <= 65536 {
      r := PickEnumerated(mask, from, exclude, private);
    } else {
      r := PickProbing(mask, from, exclude, private);
    }
  }

  // ----- several networks -----

  /** Networks of the requested lengths in the search space, disjoint from each other and from the
      exclusions. */
  ghost predicate Allocated(masks: seq<int>, from: Subnet, exclude: seq<Subnet>, private: bool, nets: seq<Subnet>) {
    && |nets| == |masks|
    && (forall i :: 0 <= i < |nets| ==>
          0 <= masks[i] <= Width(from.family) && Allowed(from, private, masks[i], nets[i]) && AvoidsAll(nets[i], exclude))
    && (forall i, j :: 0 <= i < j < |nets| ==> Disjoint(nets[i], nets[j]))
  }

  /** The masks before the failing one are served by `nets`. */
  ghost predicate FailsAfter(masks: seq<int>, from: Subnet, exclude: seq<Subnet>, private: bool,
                             nets: seq<Subnet>, e: AllocationError) {
    && |nets| < |masks|
    && Allocated(masks[..|nets|], from, exclude, private, nets)
    && PickedWell(masks[|nets|], from, exclude + nets, private, Failure(e))
  }

  /** `_random_networks`: a failure is the failure of one mask, the ones before it being served. */
  method RandomNetworks(masks: seq<int>, from: Subnet, exclude: seq<Subnet>, private: bool)
    returns (r: Result<seq<Subnet>, AllocationError>)
    ensures r.Success? ==> Allocated(masks, from, exclude, private, r.value)
    ensures r.Failure? ==> exists nets :: FailsAfter(masks, from, exclude, private, nets, r.error)
  {
    var working := exclude;
    var result: seq<Subnet> := [];
    for k := 0 to |masks|
      invariant working == exclude + result
      invariant Allocated(masks[..k], from, exclude, private, result)
    {
      var net := PickOne(masks[k], from, working, private);
      if net.Failure? {
        assert FailsAfter(masks, from, exclude, private, result, net.error);
        return Failure(net.error);
      }
      OneMoreNet(masks[..k], from, exclude, private, result, masks[k], net.value);
      assert masks[..k + 1] == masks[..k] + [masks[k]];
      result := result + [net.value];
      working := working + [net.value];
    }
    assert masks[..|masks|] == masks;
    return Success(result);
  }

  lemma OneMoreNet(masks: seq<int>, from: Subnet, exclude: seq<Subnet>, private: bool, nets: seq<Subnet>, mask: int, net: Subnet)
    requires Allocated(masks, from, exclude, private, nets)
    requires PickedWell(mask, from, exclude + nets, private, Success(net))
    ensures Allocated(masks + [mask], from, exclude, private, nets + [net])
  {
    hide Allowed;
    assert forall ex :: ex in exclude ==> ex in exclude + nets;
    forall i | 0 <= i < |nets|
      ensures Disjoint(nets[i], net)
    {
      assert nets[i] in exclude + nets;
    }
  }

  lemma {:induction false} Pow2Sum(a: nat, b: nat)
    ensures Pow2(a + b) == Pow2(a) * Pow2(b)
  {
    if a > 0 {
      Pow2Sum(a - 1, b);
      assert Pow2(a) == 2 * Pow2(a - 1) && Pow2(a + b) == 2 * Pow2(a - 1 + b);
    }
  }

  /** The blocks of a length are numbered from 0 to the number of prefixes of that length. */
  lemma PrefixIsNetwork(f: Family, len: nat, k: nat)
    requires len <= Width(f) && k < Pow2(len)
    ensures BlockAt(f, len, k).Valid()
  {
    hide Pow2;
    var size := Pow2(Width(f) - len);
    MultipleMod(k, size);
    Pow2Sum(len, Width(f) - len);
    MulMonotone(k + 1, Pow2(len), size);
    assert (k + 1) * size == k * size + size;
  }

  // ----- the private ranges, and the number of blocks -----

  lemma PowersOf2()
    ensures Pow2(16) == 0x1_0000 && Pow2(20) == 0x10_0000 && Pow2(24) == 0x100_0000
  {
    assert Pow2(8) == 0x100;
    assert Pow2(16) == 0x1_0000;
    assert Pow2(20) == 0x10_0000;
    assert Pow2(24) == 0x100_0000;
  }

  /** 10.0.0.0 to 10.255.255.255, 172.16.0.0 to 172.31.255.255, 192.168.0.0 to 192.168.255.255 */
  predicate PrivateV4(v: nat) {
    || 0x0A00_0000 <= v <= 0x0AFF_FFFF
    || 0xAC10_0000 <= v <= 0xAC1F_FFFF
    || 0xC0A8_0000 <= v <= 0xC0A8_FFFF
  }

  predicate Spans(b: Block, first: nat, last: nat) {
    b.base == first && b.Last() == last
  }

  lemma PrivateBlocks()
    ensures |PrivateNetworks(V4)| == 3
    ensures Spans(PrivateNetworks(V4)[0], 0x0A00_0000, 0x0AFF_FFFF)
    ensures Spans(PrivateNetworks(V4)[1], 0xAC10_0000, 0xAC1F_FFFF)
    ensures Spans(PrivateNetworks(V4)[2], 0xC0A8_0000, 0xC0A8_FFFF)
  {
    PowersOf2();
    hide Pow2;
  }

  /** An address is private exactly when a private network holds it. */
  lemma PrivateRanges(v: nat)
    ensures PrivateV4(v) <==> exists p :: p in PrivateNetworks(V4) && p.Contains(Address(V4, v))
  {
    PrivateBlocks();
    var ps := PrivateNetworks(V4);
    assert ps[0].family == V4 && ps[1].family == V4 && ps[2].family == V4;
    hide Pow2, PrivateNetworks, Block.Last;
    assert forall p :: p in ps <==> p == ps[0] || p == ps[1] || p == ps[2];
    var a := Address(V4, v);
    assert PrivateV4(v) ==> ps[0].Contains(a) || ps[1].Contains(a) || ps[2].Contains(a);
  }

  lemma PrivateBlock6()
    ensures |PrivateNetworks(V6)| == 1 && PrivateNetworks(V6)[0].family == V6
    ensures Spans(PrivateNetworks(V6)[0], 0xfd * Pow2(120), 0xfe * Pow2(120) - 1)
  {
    hide Pow2;
  }

  lemma FamilyOfPrivate(p: Subnet)
    requires p in PrivateNetworks(V4)
    ensures p.family == V4
  {
    hide Pow2;
  }

  /** A network drawn from the private ranges holds only private addresses, whatever its length. */
  lemma PrivateMeans(from: Subnet, mask: nat, b: Block, a: Address)
    requires Allowed(from, true, mask, b) && b.Contains(a)
    ensures a.family == from.family
    ensures from.family == V4 ==> PrivateV4(a.value)
    ensures from.family == V6 ==> 0xfd * Pow2(120) <= a.value < 0xfe * Pow2(120)
  {
    PrivateBlock6();
    hide Pow2, PrivateNetworks, Block.Last, Block.Size;
    var p :| p in PrivateNetworks(from.family) && b.SubnetOf(p);
    if from.family == V4 {
      FamilyOfPrivate(p);
      PrivateRanges(a.value);
    }
  }

  // ----- how many blocks there are -----

  /** Two spans share no index. */
  ghost predicate Apart(spans: seq<Span>) {
    forall i, j, x :: 0 <= i < j < |spans| && InSpan(spans[i], x) ==> !InSpan(spans[j], x)
  }

  ghost function SpanSet(s: Span): set<nat> {
    set x: nat | s.start <= x < s.start + s.count && InSpan(s, x)
  }

  ghost function Numbered(spans: seq<Span>): set<nat> {
    if spans == [] then {} else Numbered(spans[..|spans| - 1]) + SpanSet(spans[|spans| - 1])
  }

  lemma {:induction false} SpanSize(s: Span)
    ensures |SpanSet(s)| == s.count
    decreases s.count
  {
    if s.count == 0 {
      assert SpanSet(s) == {};
    } else {
      var shorter := Span(s.start, s.count - 1);
      SpanSize(shorter);
      assert SpanSet(s) == SpanSet(shorter) + {s.start + s.count - 1};
    }
  }

  lemma ApartFront(spans: seq<Span>)
    requires spans != [] && Apart(spans)
    ensures Apart(spans[..|spans| - 1])
    ensures forall x, t :: t in spans[..|spans| - 1] && InSpan(t, x) ==> !InSpan(spans[|spans| - 1], x)
  {
    forall x, t | t in spans[..|spans| - 1] && InSpan(t, x)
      ensures !InSpan(spans[|spans| - 1], x)
    {
      var i :| 0 <= i < |spans| - 1 && spans[i] == t;
      assert InSpan(spans[i], x);
    }
  }

  lemma OneMoreSpan(front: seq<Span>, s: Span, x: nat)
    ensures Indexed(front + [s], x) <==> Indexed(front, x) || x in SpanSet(s)
    ensures x in SpanSet(s) <==> InSpan(s, x)
  {
    if InSpan(s, x) {
      assert s in front + [s];
    }
  }

  /** The total is the number of different indices. */
  lemma {:induction false} TotalCounts(spans: seq<Span>)
    requires Apart(spans)
    ensures |Numbered(spans)| == Total(spans)
    ensures forall x :: x in Numbered(spans) <==> Indexed(spans, x)
  {
    if spans != [] {
      var front, s := spans[..|spans| - 1], spans[|spans| - 1];
      ApartFront(spans);
      TotalCounts(front);
      SpanSize(s);
      assert spans == front + [s];
      hide Apart, Total;
      forall x: nat
        ensures Indexed(spans, x) <==> Indexed(front, x) || x in SpanSet(s)
        ensures x in SpanSet(s) ==> !Indexed(front, x)
      {
        OneMoreSpan(front, s, x);
      }
      hide SpanSet, InSpan, Indexed;
      assert Numbered(front) !! SpanSet(s);
    }
  }

  lemma {:induction false} SpansApart(boxes: seq<Box>, size: nat)
    requires size >= 1 && forall i, j :: 0 <= i < j < |boxes| ==> Separate(boxes[i], boxes[j])
    ensures Apart(SpansOf(boxes, size))
    ensures forall t :: t in SpansOf(boxes, size) ==> exists b :: b in boxes && t == IndicesIn(b.lo, b.hi, size)
  {
    if boxes != [] {
      var front, b := boxes[..|boxes| - 1], boxes[|boxes| - 1];
      SpansApart(front, size);
      assert boxes == front + [b];
      var before, own := SpansOf(front, size), IndicesIn(b.lo, b.hi, size);
      forall x, t | t in before && InSpan(t, x)
        ensures !InSpan(own, x)
      {
        var c :| c in front && t == IndicesIn(c.lo, c.hi, size);
        var i :| 0 <= i < |front| && front[i] == c;
        assert boxes[i] == c && boxes[|boxes| - 1] == b;
        IndicesExact(c.lo, c.hi, size, x);
        IndicesExact(b.lo, b.hi, size, x);
      }
      hide IndicesIn;
      ApartMore(before, own);
      assert b in boxes;
    }
  }

  lemma ApartMore(spans: seq<Span>, s: Span)
    requires Apart(spans) && forall x, t :: t in spans && InSpan(t, x) ==> !InSpan(s, x)
    ensures Apart(spans + [s])
  {
  }

  ghost predicate Separate(a: Box, b: Box) {
    a.hi < b.lo || b.hi < a.lo
  }

  ghost predicate Inside(b: Box, p: Block) {
    p.base <= b.lo && b.hi <= p.Last()
  }

  lemma {:induction false} BoxesInside(from: Subnet, ranges: seq<Block>)
    ensures forall b :: b in Boxes(from, ranges) ==> exists p :: p in ranges && Inside(b, p)
  {
    if ranges != [] {
      var front, p := ranges[..|ranges| - 1], ranges[|ranges| - 1];
      BoxesInside(from, front);
      assert ranges == front + [p];
      assert p in ranges;
    }
  }

  lemma {:induction false} BoxesApart(from: Subnet, ranges: seq<Block>)
    requires forall i, j :: 0 <= i < j < |ranges| ==> ranges[i].Last() < ranges[j].base || ranges[j].Last() < ranges[i].base
    ensures forall i, j :: 0 <= i < j < |Boxes(from, ranges)| ==> Separate(Boxes(from, ranges)[i], Boxes(from, ranges)[j])
  {
    if ranges != [] {
      var front, p := ranges[..|ranges| - 1], ranges[|ranges| - 1];
      BoxesApart(from, front);
      BoxesInside(from, front);
      var before := Boxes(from, front);
      hide Block.Last;
      forall b | b in before
        ensures b.hi < p.base || p.Last() < b.lo
      {
        var q :| q in front && Inside(b, q);
        var i :| 0 <= i < |front| && front[i] == q;
        assert ranges[i] == q && ranges[|ranges| - 1] == p;
      }
    }
  }

  /** The number that decides between enumerating and probing is the number of blocks in the search space. */
  lemma CountIs(from: Subnet, private: bool, mask: nat) returns (indices: set<nat>)
    requires mask <= Width(from.family)
    ensures |indices| == CountBlocks(from, private, mask)
    ensures forall i :: i in indices <==> Allowed(from, private, mask, BlockAt(from.family, mask, i))
  {
    var size := Pow2(Width(from.family) - mask);
    var spans := SpansOf(SearchSpace(from, private), size);
    SpacesApart(from, private);
    SpansApart(SearchSpace(from, private), size);
    TotalCounts(spans);
    indices := Numbered(spans);
    hide Pow2, SpansOf, SearchSpace, Total, Allowed, Apart, Numbered;
    forall i: nat
      ensures i in indices <==> Allowed(from, private, mask, BlockAt(from.family, mask, i))
    {
      IndexIsAllowed(from, private, mask, i);
    }
  }

  lemma SpacesApart(from: Subnet, private: bool)
    ensures var boxes := SearchSpace(from, private);
      forall i, j :: 0 <= i < j < |boxes| ==> Separate(boxes[i], boxes[j])
  {
    if private {
      PrivateBlocks();
      hide Pow2, Block.Last, Boxes;
      BoxesApart(from, PrivateNetworks(from.family));
    }
  }

  /** Every address of a network drawn: in the search space, excluded by no network, and of this network alone. */
  lemma AllocatedMeans(masks: seq<int>, from: Subnet, exclude: seq<Subnet>, private: bool, nets: seq<Subnet>, i: nat, a: Address)
    requires Allocated(masks, from, exclude, private, nets) && i < |nets| && nets[i].Contains(a)
    ensures nets[i].family == from.family && nets[i].len == masks[i]
    ensures from.base <= a.value <= from.Last() && (private && from.family == V4 ==> PrivateV4(a.value))
    ensures forall x :: x in exclude && x.family == from.family ==> !(x.base <= a.value <= x.Last())
    ensures forall j :: 0 <= j < |nets| && j != i ==> !nets[j].Contains(a)
  {
    hide Pow2, PrivateNetworks;
    if private {
      PrivateMeans(from, masks[i], nets[i], a);
    }
    forall j | 0 <= j < |nets| && j != i
      ensures !nets[j].Contains(a)
    {
      assert if i < j then Disjoint(nets[i], nets[j]) else Disjoint(nets[j], nets[i]);
    }
  }
}
