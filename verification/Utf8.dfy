/**
 UTF-8, as Python encodes and decodes text. The characters of Dafny are the Unicode scalar values, so that
 every text can be encoded.
 */
module Utf8 {
  import opened Wrappers
  import opened Bytes

  function EncodeChar(c: char): (r: Bytes)
    ensures 1 <= |r| <= 4
  {
    var v := c as int;
    if v < 0x80 then [v]
    else if v < 0x800 then [0xC0 + v / 64, 0x80 + v % 64]
    else if v < 0x1_0000 then [0xE0 + v / 4096, 0x80 + v / 64 % 64, 0x80 + v % 64]
    else [0xF0 + v / 262144, 0x80 + v / 4096 % 64, 0x80 + v / 64 % 64, 0x80 + v % 64]
  }

  function Encode(s: string): Bytes {
    if s == [] then [] else EncodeChar(s[0]) + Encode(s[1..])
  }

  /** The length that a first byte announces */
  function Length(lead: Byte): nat {
    if lead < 0x80 then 1 else if lead < 0xE0 then 2 else if lead < 0xF0 then 3 else 4
  }

  predicate Scalar(v: int) {
    0 <= v < 0xD800 || 0xE000 <= v < 0x11_0000
  }

  function Payload(b: Bytes): int
    requires b != [] && |b| >= Length(b[0])
  {
    match Length(b[0])
    case 1 => b[0]
    case 2 => (b[0] as int - 0xC0) * 64 + (b[1] as int - 0x80)
    case 3 => (b[0] as int - 0xE0) * 4096 + (b[1] as int - 0x80) * 64 + (b[2] as int - 0x80)
    case _ => (b[0] as int - 0xF0) * 262144 + (b[1] as int - 0x80) * 4096 + (b[2] as int - 0x80) * 64 + (b[3] as int - 0x80)
  }

  /** The first character: a scalar value in its only, shortest form */
  function DecodeChar(b: Bytes): Option<char>
    requires b != []
  {
    var n := Length(b[0]);
    if |b| < n || !Scalar(Payload(b)) then None
    else
      var c := Payload(b) as char;
      if EncodeChar(c) == b[..n] then Some(c) else None
  }

  /** `None` for bytes that are not UTF-8 */
  function Decode(b: Bytes): Option<string> {
    if b == [] then Some([])
    else match DecodeChar(b)
      case None => None
      case Some(c) =>
        match Decode(b[Length(b[0])..])
        case None => None
        case Some(s) => Some([c] + s)
  }

  lemma CharIsRead(c: char, rest: Bytes)
    ensures var b := EncodeChar(c) + rest;
      Length(b[0]) == |EncodeChar(c)| && |b| >= Length(b[0]) && Payload(b) == c as int
  {
    var v := c as int;
    var e := EncodeChar(c);
    Digits(v);
    CharLayout(c);
    hide EncodeChar;
    var b := e + rest;
    assert b[0] == e[0] && (|e| >= 2 ==> b[1] == e[1]) && (|e| >= 3 ==> b[2] == e[2]) && (|e| >= 4 ==> b[3] == e[3]);
  }

  lemma CharLayout(c: char)
    ensures var v, e := c as int, EncodeChar(c);
      && (v < 0x80 ==> e == [v])
      && (0x80 <= v < 0x800 ==> e == [0xC0 + v / 64, 0x80 + v % 64])
      && (0x800 <= v < 0x1_0000 ==> e == [0xE0 + v / 4096, 0x80 + v / 64 % 64, 0x80 + v % 64])
      && (v >= 0x1_0000 ==> e == [0xF0 + v / 262144, 0x80 + v / 4096 % 64, 0x80 + v / 64 % 64, 0x80 + v % 64])
  {
  }

  lemma Digits(v: nat)
    requires v < 0x11_0000
    ensures v == v / 64 * 64 + v % 64
    ensures v / 64 == v / 4096 * 64 + v / 64 % 64
    ensures v / 4096 == v / 262144 * 64 + v / 4096 % 64
    ensures v < 0x800 ==> v / 64 < 32
    ensures v < 0x1_0000 ==> v / 4096 < 16
    ensures v / 262144 < 5
  {
  }

  lemma {:induction false} DecodeEncoded(s: string)
    ensures Decode(Encode(s)) == Some(s)
  {
    if s != [] {
      var c, rest := s[0], Encode(s[1..]);
      DecodeEncoded(s[1..]);
      CharIsRead(c, rest);
      hide EncodeChar, Payload, Length;
      var b := EncodeChar(c) + rest;
      assert b[..|EncodeChar(c)|] == EncodeChar(c) && b[|EncodeChar(c)|..] == rest;
      assert s == [c] + s[1..];
    }
  }

  /** Only the encoding of a text is decoded into it. */
  lemma {:induction false} EncodeDecoded(b: Bytes)
    requires Decode(b).Some?
    ensures Encode(Decode(b).value) == b
    decreases |b|
  {
    if b != [] {
      var n := Length(b[0]);
      EncodeDecoded(b[n..]);
      hide EncodeChar, Payload, Length;
      assert b == b[..n] + b[n..];
    }
  }
}
