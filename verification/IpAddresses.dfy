/** Addresses, networks and interfaces of Python's `ipaddress`, for both families. */
module IpAddresses {

  datatype Family = V4 | V6

  /** Number of bits of an address (`max_prefixlen`). */
  function Width(f: Family): nat {
    match f
    case V4 => 32
    case V6 => 128
  }

  function Pow2(n: nat): (p: nat)
    ensures p >= 1
  {
    if n == 0 then 1 else 2 * Pow2(n - 1)
  }

  lemma {:induction false} Pow2Monotone(a: nat, b: nat)
    requires a < b
    ensures 2 * Pow2(a) <= Pow2(b)
    decreases b
  {
    if a < b - 1 {
      Pow2Monotone(a, b - 1);
    }
  }

  datatype Address = Address(family: Family, value: nat)

  /** A block of addresses given by its first one and a prefix length. */
  datatype Block = Block(family: Family, base: nat, len: nat) {

    function Size(): (s: nat)
      ensures s >= 1
    {
      if len <= Width(family) then Pow2(Width(family) - len) else 1
    }

    function Last(): nat {
      base + Size() - 1
    }

    /** No host bit is set, and the block lies in the address space. */
    predicate Valid() {
      len <= Width(family) && base % Size() == 0 && base + Size() <= Pow2(Width(family))
    }

    /** `address in network` (false across families) */
    predicate Contains(a: Address) {
      a.family == family && base <= a.value <= Last()
    }

    /** `network.subnet_of(other)`, both of one family */
    predicate SubnetOf(other: Block) {
      other.base <= base && Last() <= other.Last()
    }

    /** `network.overlaps(other)`, both of one family */
    predicate Overlaps(other: Block) {
      || base <= other.base <= Last()
      || base <= other.Last() <= Last()
      || other.base <= base <= other.Last()
      || other.base <= Last() <= other.Last()
    }
  }

  /** The two blocks share no address. */
  ghost predicate Disjoint(a: Block, b: Block) {
    a.family != b.family || a.Last() < b.base || b.Last() < a.base
  }

  /** `IPv4Network` or `IPv6Network` */
  type Subnet = b: Block | b.Valid() witness Block(V4, 0, 0)

  /** `IPv4Interface` or `IPv6Interface`: an address and the prefix length of its network */
  datatype Interface = Interface(ip: Address, len: nat)

  /** `0.0.0.0/0` or `::/0` */
  function DefaultNet(f: Family): Subnet {
    Block(f, 0, 0)
  }

  /** An address that exists in family `f`. */
  predicate InFamily(a: Address, f: Family) {
    a.family == f && a.value < Pow2(Width(f))
  }

  lemma DefaultContains(f: Family, a: Address)
    ensures DefaultNet(f).Contains(a) <==> InFamily(a, f)
  {
  }

  lemma EmptyPrefixIsDefault(s: Subnet)
    requires s.len == 0
    ensures s == DefaultNet(s.family)
  {
  }

  /** A network that another one covers has a longer prefix. */
  lemma CoveredIsLonger(a: Subnet, b: Subnet)
    requires a != b && a.family == b.family && a.SubnetOf(b)
    ensures b.len < a.len
  {
    var w := Width(a.family);
    if a.len < b.len {
      Pow2Monotone(w - b.len, w - a.len);
    }
  }

  lemma {:induction false} Pow2Divides(a: nat, b: nat) returns (q: nat)
    requires a <= b
    ensures q >= 1 && Pow2(b) == q * Pow2(a)
    decreases b
  {
    if a == b {
      q := 1;
    } else {
      var h := Pow2Divides(a, b - 1);
      q := 2 * h;
    }
  }

  lemma MulMonotone(a: nat, b: nat, c: nat)
    requires a <= b
    ensures a * c <= b * c
  {
  }

  lemma Quotient(a: nat, b: nat) returns (q: nat)
    requires b >= 1 && a % b == 0
    ensures a == q * b
  {
    q := a / b;
  }

  /** The aligned block of size `small` at `i` and the one of size `q * small` at `j` that share an
      address are nested. */
  lemma AlignedNested(i: nat, j: nat, small: nat, q: nat, x: nat)
    requires small >= 1 && q >= 1
    requires i * small <= x < i * small + small
    requires j * (q * small) <= x < j * (q * small) + q * small
    ensures j * (q * small) <= i * small
    ensures i * small + small <= j * (q * small) + q * small
  {
    assert j * (q * small) == (j * q) * small;
    assert j * (q * small) + q * small == (j * q + q) * small;
    assert (i + 1) * small == i * small + small;
    if i < j * q {
      MulMonotone(i + 1, j * q, small);
      assert false;
    }
    MulMonotone(j * q, i, small);
    if i >= j * q + q {
      MulMonotone(j * q + q, i, small);
      assert false;
    }
    MulMonotone(i + 1, j * q + q, small);
  }

  lemma EqualMultiples(i: nat, j: nat, size: nat, x: nat)
    requires size >= 1 && i * size <= x < i * size + size && j * size <= x < j * size + size
    ensures i == j
  {
    assert (i + 1) * size == i * size + size && (j + 1) * size == j * size + size;
    if i < j {
      MulMonotone(i + 1, j, size);
      assert false;
    }
    if j < i {
      MulMonotone(j + 1, i, size);
      assert false;
    }
  }

  lemma MultipleMod(i: nat, size: nat)
    requires size >= 1
    ensures (i * size) % size == 0
  {
    assert i * size == size * i + 0;
    var r := (i * size) % size;
    var q := (i * size) / size;
    assert i * size == q * size + r;
    EqualMultiples(i, q, size, i * size);
  }

  /** Two networks that share an address are nested, the longer prefix inside. */
  lemma SharedIsNested(a: Subnet, b: Subnet, x: Address)
    requires a.Contains(x) && b.Contains(x) && a.len <= b.len
    ensures b.SubnetOf(a)
    ensures a.len == b.len ==> a == b
  {
    var w := Width(a.family);
    var small := b.Size();
    var q := Pow2Divides(w - b.len, w - a.len);
    var i := Quotient(b.base, small);
    var j := Quotient(a.base, a.Size());
    AlignedNested(i, j, small, q, x.value);
    if a.len == b.len {
      EqualMultiples(i, j, small, x.value);
    }
  }

  /** `v` with its bits below `size` cleared. */
  function ClearLow(v: nat, size: nat): (r: nat)
    requires size >= 1
    ensures r <= v
  {
    v - v % size
  }

  lemma ClearLowAligned(v: nat, base: nat, size: nat)
    requires size >= 1 && base % size == 0 && base <= v < base + size
    ensures ClearLow(v, size) == base
  {
    var j := Quotient(base, size);
    var k := v / size;
    assert v == k * size + v % size;
    EqualMultiples(k, j, size, v);
  }

  /** The network of an interface (`IPv4Interface.network`): its address with the host bits cleared. */
  function NetworkOf(i: Interface): Block {
    Block(i.ip.family, ClearLow(i.ip.value, Block(i.ip.family, 0, i.len).Size()), i.len)
  }

  lemma NetworkOfMember(s: Subnet, i: Interface)
    requires s.Contains(i.ip) && i.len == s.len
    ensures NetworkOf(i) == s
  {
    ClearLowAligned(i.ip.value, s.base, s.Size());
  }
}
