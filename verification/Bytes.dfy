/**
 Bytes, and the big-endian words in them.
 */
module Bytes {

  type Byte = x: int | 0 <= x < 256

  type Bytes = seq<Byte>

  function Word16(hi: Byte, lo: Byte): (r: nat)
    ensures r < 0x1_0000
  {
    hi * 256 + lo
  }

  function Word32(a: Byte, b: Byte, c: Byte, d: Byte): (r: nat)
    ensures r < 0x1_0000_0000
  {
    Word16(a, b) * 0x1_0000 + Word16(c, d)
  }

  /** The byte order of a network: the first byte counts most. */
  lemma Word32Is(a: int, b: int, c: int, d: int)
    requires 0 <= a < 256 && 0 <= b < 256 && 0 <= c < 256 && 0 <= d < 256
    ensures Word16(c, d) == 0x100 * c + d
    ensures Word32(a, b, c, d) == 0x100_0000 * a + 0x1_0000 * b + 0x100 * c + d
  {
  }

  /** `struct.pack('>H', x)` */
  function Put16(x: nat): (r: Bytes)
    requires x < 0x1_0000
    ensures |r| == 2 && Word16(r[0], r[1]) == x
  {
    [x / 256, x % 256]
  }

  lemma Word16Bytes(hi: Byte, lo: Byte)
    ensures Put16(Word16(hi, lo)) == [hi, lo]
  {
  }

  predicate Reads32(b: Bytes, x: nat) {
    |b| == 4 && Word32(b[0], b[1], b[2], b[3]) == x
  }

  lemma Word32Unique(a: Byte, b: Byte, c: Byte, d: Byte, a2: Byte, b2: Byte, c2: Byte, d2: Byte)
    requires Word32(a, b, c, d) == Word32(a2, b2, c2, d2)
    ensures a == a2 && b == b2 && c == c2 && d == d2
  {
  }

  lemma Reads32Once(x: nat)
    ensures forall b, c :: Reads32(b, x) && Reads32(c, x) ==> b == c
  {
    forall b, c | Reads32(b, x) && Reads32(c, x)
      ensures b == c
    {
      Word32Unique(b[0], b[1], b[2], b[3], c[0], c[1], c[2], c[3]);
    }
  }

  lemma Halves32(x: nat)
    requires x < 0x1_0000_0000
    ensures Reads32(Put16(x / 0x1_0000) + Put16(x % 0x1_0000), x)
  {
  }

  /** `struct.pack('>I', x)`: the four bytes that are read as `x` */
  function Put32(x: nat): (r: Bytes)
    requires x < 0x1_0000_0000
    ensures |r| == 4 && Word32(r[0], r[1], r[2], r[3]) == x
  {
    Halves32(x);
    Reads32Once(x);
    var r: Bytes :| Reads32(r, x);
    r
  }

  lemma Word32Bytes(a: Byte, b: Byte, c: Byte, d: Byte)
    ensures Put32(Word32(a, b, c, d)) == [a, b, c, d]
  {
    var x := Word32(a, b, c, d);
    assert Reads32([a, b, c, d], x);
    hide Word32;
    Reads32Once(x);
  }
}
