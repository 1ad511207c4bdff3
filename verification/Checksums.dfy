/**
 The Internet checksum of the DHCP probe, and the frames that carry it.
 */
module Checksums {
  import opened Bytes

  /** Data of odd length is padded with a zero byte. */
  function Sum16(data: Bytes): nat {
    if |data| == 0 then 0
    else if |data| == 1 then Word16(data[0], 0)
    else Word16(data[0], data[1]) + Sum16(data[2..])
  }

  /** The sum with the carries added back in, until it fits 16 bits */
  function Folded(total: nat): (r: nat)
    ensures r < 0x1_0000
    ensures r % 0xFFFF == total % 0xFFFF && (r == 0 <==> total == 0)
  {
    if total < 0x1_0000 then total
    else
      SameRemainder(total, total % 0x1_0000 + total / 0x1_0000, total / 0x1_0000);
      Folded(total % 0x1_0000 + total / 0x1_0000)
  }

  lemma SameRemainder(x: nat, y: nat, q: nat)
    requires x == y + 0xFFFF * q
    ensures x % 0xFFFF == y % 0xFFFF
  {
  }

  function ChecksumOf(data: Bytes): (r: nat)
    ensures r < 0x1_0000
  {
    0xFFFF - Folded(Sum16(data))
  }

  /** `_checksum` */
  method Checksum(data: Bytes) returns (r: nat)
    ensures r == ChecksumOf(data)
  {
    var padded := if |data| % 2 == 1 then data + [0] else data;
    var total := 0;
    for i := 0 to |padded| / 2
      invariant total + Sum16(padded[2 * i..]) == Sum16(padded)
    {
      assert padded[2 * i..][2..] == padded[2 * (i + 1)..];
      total := total + Word16(padded[2 * i], padded[2 * i + 1]);
    }
    Padding(data);
    assert total == Sum16(data);
    while total / 0x1_0000 != 0
      invariant total >= 0 && Folded(total) == Folded(Sum16(data))
      decreases total
    {
      total := total % 0x1_0000 + total / 0x1_0000;
    }
    r := 0xFFFF - total;
  }

  lemma {:induction false} Padding(data: Bytes)
    ensures |data| % 2 == 1 ==> Sum16(data + [0]) == Sum16(data)
  {
    if |data| >= 2 {
      Padding(data[2..]);
      assert (data + [0])[2..] == data[2..] + [0];
    }
  }

  lemma {:induction false} SumAppend(a: Bytes, b: Bytes)
    requires |a| % 2 == 0
    ensures Sum16(a + b) == Sum16(a) + Sum16(b)
  {
    if a == [] {
      assert a + b == b;
    } else {
      assert (a + b)[2..] == a[2..] + b;
      SumAppend(a[2..], b);
    }
  }

  lemma SumOfField(c: nat)
    requires c < 0x1_0000
    ensures Sum16(Put16(c)) == c
  {
    assert Put16(c)[2..] == [];
  }

  lemma SumField(a: Bytes, c: nat, b: Bytes)
    requires |a| % 2 == 0 && c < 0x1_0000
    ensures Sum16(a + Put16(c) + b) == Sum16(a) + c + Sum16(b)
  {
    hide Sum16, Word16, Put16;
    SumOfField(c);
    SumAppend(a, Put16(c));
    SumAppend(a + Put16(c), b);
  }

  lemma Multiple(x: int, q: int)
    requires x == 0xFFFF * q
    ensures x % 0xFFFF == 0
  {
  }

  lemma Complement(s: nat, f: nat)
    requires s % 0xFFFF == f % 0xFFFF
    ensures (s + (0xFFFF - f)) % 0xFFFF == 0
  {
    Multiple(s + (0xFFFF - f), s / 0xFFFF - f / 0xFFFF + 1);
  }

  lemma OnlyComplement(s: nat, f: nat, c: nat)
    requires s % 0xFFFF == f % 0xFFFF && (s + c) % 0xFFFF == 0 && f <= 0xFFFF && c <= 0xFFFF
    ensures f + c == 0 || f + c == 0xFFFF || f + c == 0x1_FFFE
  {
    var m := (s + c) / 0xFFFF - s / 0xFFFF + f / 0xFFFF;
    assert f + c == 0xFFFF * m;
  }

  /** A receiver accepts data when its checksum is zero: exactly when the words sum to a positive
      multiple of 65535. */
  lemma Accepted(data: Bytes)
    ensures ChecksumOf(data) == 0 <==> Sum16(data) % 0xFFFF == 0 && Sum16(data) > 0
  {
  }

  /** Data whose aligned zero field is filled with its checksum is accepted; so it is with the value
      that UDP sends instead of zero. */
  lemma FilledIsAccepted(a: Bytes, b: Bytes)
    requires |a| % 2 == 0
    ensures var c := ChecksumOf(a + Put16(0) + b);
      && ChecksumOf(a + Put16(c) + b) == 0
      && ChecksumOf(a + Put16(if c == 0 then 0xFFFF else c) + b) == 0
  {
    hide Sum16, Folded, Put16, Word16;
    var c := ChecksumOf(a + Put16(0) + b);
    var s := Sum16(a) + Sum16(b);
    SumField(a, 0, b);
    SumField(a, c, b);
    SumField(a, 0xFFFF, b);
    Complement(s, Folded(s));
    Accepted(a + Put16(c) + b);
    Accepted(a + Put16(0xFFFF) + b);
  }

  /** The only other value that an accepted field can have is the other form of zero. */
  lemma OnlyTheChecksum(a: Bytes, b: Bytes, c: nat)
    requires |a| % 2 == 0 && c < 0x1_0000
    requires ChecksumOf(a + Put16(c) + b) == 0
    ensures var d := ChecksumOf(a + Put16(0) + b);
            c == d || (c == 0 && d == 0xFFFF) || (c == 0xFFFF && d == 0)
  {
    hide Sum16, Folded, Put16, Word16;
    var s := Sum16(a) + Sum16(b);
    SumField(a, 0, b);
    SumField(a, c, b);
    Accepted(a + Put16(c) + b);
    OnlyComplement(s, Folded(s), c);
  }
}
