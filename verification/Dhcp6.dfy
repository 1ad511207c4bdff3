/**
 The DHCPv6 messages of the probe: options with a code and a length, also nested in an IA_NA.
 */
module Dhcp6 {
  import opened Bytes

  datatype Tlv = Tlv(code: nat, value: Bytes)

  /** What `struct.pack` accepts as code and length */
  type Option6 = t: Tlv | t.code < 0x1_0000 && |t.value| < 0x1_0000 witness Tlv(0, [])

  /** `_option` */
  function OptionBytes(t: Option6): (r: Bytes)
    ensures |r| == 4 + |t.value|
  {
    Put16(t.code) + Put16(|t.value|) + t.value
  }

  function Encoded(ts: seq<Option6>): Bytes {
    if ts == [] then [] else OptionBytes(ts[0]) + Encoded(ts[1..])
  }

  /** The code, the length and the value, numbers in network order (RFC 8415, section 21.1) */
  lemma OptionIs(t: Option6)
    ensures var b := OptionBytes(t); var w: int, x: int, y: int, z: int := b[0], b[1], b[2], b[3];
            0x100 * w + x == t.code && 0x100 * y + z == |t.value| && b[4..] == t.value
  {
    var c, n := Put16(t.code), Put16(|t.value|);
    assert OptionBytes(t) == c + n + t.value;
    hide Put16;
  }

  // ----- _iter_options -----

  predicate Whole(raw: Bytes) {
    |raw| >= 4 && |raw| >= 4 + Word16(raw[2], raw[3])
  }

  function First(raw: Bytes): Option6
    requires Whole(raw)
  {
    Tlv(Word16(raw[0], raw[1]), raw[4..4 + Word16(raw[2], raw[3])])
  }

  function After(raw: Bytes): Bytes
    requires Whole(raw)
  {
    raw[4 + Word16(raw[2], raw[3])..]
  }

  function OptionsOf(raw: Bytes): seq<Option6> {
    if !Whole(raw) then [] else [First(raw)] + OptionsOf(After(raw))
  }

  /** The bytes that do not make up another option */
  function Left(raw: Bytes): Bytes {
    if !Whole(raw) then raw else Left(After(raw))
  }

  method IterOptions(raw: Bytes) returns (ts: seq<Option6>)
    ensures ts == OptionsOf(raw)
  {
    hide Word16, OptionsOf;
    ts := [];
    var i := 0;
    assert raw[0..] == raw;
    while i + 4 <= |raw|
      invariant 0 <= i <= |raw|
      invariant OptionsOf(raw) == ts + OptionsOf(raw[i..])
      decreases |raw| - i
    {
      var code, length := Word16(raw[i], raw[i + 1]), Word16(raw[i + 2], raw[i + 3]);
      OptionAt(raw, i, ts);
      if i + 4 + length > |raw| {
        return;
      }
      ts := ts + [Tlv(code, raw[i + 4..i + 4 + length])];
      i := i + 4 + length;
    }
    NothingLeft(raw[i..]);
    assert ts + [] == ts;
  }

  lemma OptionAt(raw: Bytes, i: nat, ts: seq<Option6>)
    requires i + 4 <= |raw|
    ensures var n := Word16(raw[i + 2], raw[i + 3]);
            ts + OptionsOf(raw[i..]) ==
              if i + 4 + n > |raw| then ts
              else ts + [Tlv(Word16(raw[i], raw[i + 1]), raw[i + 4..i + 4 + n])] + OptionsOf(raw[i + 4 + n..])
  {
    hide Word16;
    var rest := raw[i..];
    var n := Word16(raw[i + 2], raw[i + 3]);
    assert rest[0] == raw[i] && rest[1] == raw[i + 1] && rest[2] == raw[i + 2] && rest[3] == raw[i + 3];
    if i + 4 + n <= |raw| {
      assert rest[4..4 + n] == raw[i + 4..i + 4 + n] && rest[4 + n..] == raw[i + 4 + n..];
    }
  }

  lemma NothingLeft(raw: Bytes)
    requires |raw| < 4
    ensures OptionsOf(raw) == []
  {
  }

  // ----- round trips -----

  lemma FirstIsRead(t: Option6, rest: Bytes)
    ensures var raw := OptionBytes(t) + rest; Whole(raw) && First(raw) == t && After(raw) == rest
  {
    hide Put16, Word16;
    var raw := OptionBytes(t) + rest;
    var c, n := Put16(t.code), Put16(|t.value|);
    assert raw == c + n + t.value + rest;
    assert raw[0] == c[0] && raw[1] == c[1] && raw[2] == n[0] && raw[3] == n[1];
    assert raw[4..4 + |t.value|] == t.value && raw[4 + |t.value|..] == rest;
  }

  /** Encoded options are iterated as they were, whatever follows them. */
  lemma {:induction false} IterEncoded(ts: seq<Option6>, rest: Bytes)
    ensures OptionsOf(Encoded(ts) + rest) == ts + OptionsOf(rest)
    ensures Left(Encoded(ts) + rest) == Left(rest)
  {
    hide Whole, First, After, OptionBytes;
    if ts == [] {
      assert Encoded(ts) + rest == rest;
    } else {
      var more := Encoded(ts[1..]) + rest;
      assert Encoded(ts) + rest == OptionBytes(ts[0]) + more;
      FirstIsRead(ts[0], more);
      IterEncoded(ts[1..], rest);
      assert [ts[0]] + (ts[1..] + OptionsOf(rest)) == ts + OptionsOf(rest);
    }
  }

  /** Any bytes are the encoding of the options found in them, and a part that holds no whole one. */
  lemma {:induction false} EncodeIterated(raw: Bytes)
    ensures Encoded(OptionsOf(raw)) + Left(raw) == raw
    ensures !Whole(Left(raw))
    decreases |raw|
  {
    hide Whole, First, After, OptionBytes, Encoded;
    NothingEncoded();
    if Whole(raw) {
      AfterIsShorter(raw);
      EncodeIterated(After(raw));
      FirstIsWritten(raw);
      EncodedFirst(First(raw), OptionsOf(After(raw)), Left(raw));
    } else {
      assert [] + raw == raw;
    }
  }

  lemma NothingEncoded()
    ensures Encoded([]) == []
  {
  }

  lemma AfterIsShorter(raw: Bytes)
    requires Whole(raw)
    ensures |After(raw)| < |raw|
  {
  }

  lemma EncodedFirst(t: Option6, ts: seq<Option6>, rest: Bytes)
    ensures Encoded([t] + ts) + rest == OptionBytes(t) + (Encoded(ts) + rest)
  {
    hide OptionBytes;
    assert ([t] + ts)[1..] == ts;
  }

  lemma FirstIsWritten(raw: Bytes)
    requires Whole(raw)
    ensures OptionBytes(First(raw)) + After(raw) == raw
  {
    Word16Bytes(raw[0], raw[1]);
    Word16Bytes(raw[2], raw[3]);
    hide Put16, Word16;
  }
}
