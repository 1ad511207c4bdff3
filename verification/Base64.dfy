/**
 Base64, as Python's `b64encode` writes it and `b64decode` reads it: characters outside the alphabet
 are skipped.
 */
module Base64 {
  import opened Wrappers
  import opened Bytes

  type Sextet = x: int | 0 <= x < 64

  function Symbol(x: Sextet): char {
    if x < 26 then (65 + x) as char
    else if x < 52 then (97 + x - 26) as char
    else if x < 62 then (48 + x - 52) as char
    else if x == 62 then '+' else '/'
  }

  function Meaning(c: char): Option<Sextet> {
    if 'A' <= c <= 'Z' then Some(c as int - 65)
    else if 'a' <= c <= 'z' then Some(c as int - 97 + 26)
    else if '0' <= c <= '9' then Some(c as int - 48 + 52)
    else if c == '+' then Some(62)
    else if c == '/' then Some(63)
    else None
  }

  lemma SymbolMeans(x: Sextet)
    ensures Meaning(Symbol(x)) == Some(x) && Symbol(x) != '='
  {
  }

  // ----- b64encode -----

  function Encode(b: Bytes): string {
    if b == [] then ""
    else if |b| == 1 then [Symbol(b[0] / 4), Symbol(b[0] % 4 * 16), '=', '=']
    else if |b| == 2 then [Symbol(b[0] / 4), Symbol(b[0] % 4 * 16 + b[1] / 16), Symbol(b[1] % 16 * 4), '=']
    else [Symbol(b[0] / 4), Symbol(b[0] % 4 * 16 + b[1] / 16), Symbol(b[1] % 16 * 4 + b[2] / 64), Symbol(b[2] % 64)]
         + Encode(b[3..])
  }

  // ----- the layout -----

  /** The alphabet of RFC 4648, section 4 */
  const Upper := "ABCDEFGHIJKLMNOPQRSTUVWXYZ"
  const Lower := "abcdefghijklmnopqrstuvwxyz"
  const Alphabet := Upper + Lower + "0123456789+/"

  lemma UpperIs(x: nat)
    requires x < 26
    ensures |Upper| == 26 && Upper[x] as int == 65 + x
  {
  }

  lemma LowerIs(x: nat)
    requires x < 26
    ensures |Lower| == 26 && Lower[x] as int == 97 + x
  {
  }

  lemma LastSymbols(x: nat)
    requires x < 12
    ensures "0123456789+/"[x] == Symbol(52 + x)
  {
  }

  lemma SymbolIs(x: Sextet)
    ensures |Alphabet| == 64 && Symbol(x) == Alphabet[x]
  {
    UpperIs(if x < 26 then x else 0);
    LowerIs(if 26 <= x < 52 then x - 26 else 0);
    LastSymbols(if x >= 52 then x - 52 else 0);
    assert |Alphabet| == 64;
    hide Upper, Lower;
  }

  /** Three bytes are a number of 24 bits, which is written as four symbols of six bits. */
  function Group(a: Byte, b: Byte, c: Byte): (r: string)
    ensures |r| == 4
  {
    SymbolIs(0);
    var n := a as int * 0x1_0000 + b as int * 0x100 + c;
    [Alphabet[n / 0x4_0000], Alphabet[n / 0x1000 % 64], Alphabet[n / 64 % 64], Alphabet[n % 64]]
  }

  lemma Sextets(a: int, b: int, c: int)
    requires 0 <= a < 256 && 0 <= b < 256 && 0 <= c < 256
    ensures var n := a * 0x1_0000 + b * 0x100 + c;
      && n / 0x4_0000 == a / 4 && n / 0x1000 % 64 == a % 4 * 16 + b / 16
      && n / 64 % 64 == b % 16 * 4 + c / 64 && n % 64 == c % 64
  {
    var a1, a0, b1, b0, c1, c0 := a / 4, a % 4, b / 16, b % 16, c / 64, c % 64;
    FourDigits(a1, a0 * 16 + b1, b0 * 4 + c1, c0);
    assert a * 0x1_0000 + b * 0x100 + c == 0x4_0000 * a1 + 0x1000 * (a0 * 16 + b1) + 64 * (b0 * 4 + c1) + c0;
  }

  lemma FourDigits(w: nat, x: nat, y: nat, z: nat)
    requires w < 64 && x < 64 && y < 64 && z < 64
    ensures var n := 0x4_0000 * w + 0x1000 * x + 64 * y + z;
            n / 0x4_0000 == w && n / 0x1000 % 64 == x && n / 64 % 64 == y && n % 64 == z
  {
    var n := 0x4_0000 * w + 0x1000 * x + 64 * y + z;
    assert n / 64 == 0x1000 * w + 64 * x + y;
    assert n / 0x1000 == 64 * w + x;
  }

  lemma GroupIs(a: Byte, b: Byte, c: Byte)
    ensures Group(a, b, c) == [Symbol(a / 4), Symbol(a % 4 * 16 + b / 16), Symbol(b % 16 * 4 + c / 64), Symbol(c % 64)]
  {
    hide Symbol, Alphabet;
    Sextets(a, b, c);
    SymbolIs(a / 4);
    SymbolIs(a % 4 * 16 + b / 16);
    SymbolIs(b % 16 * 4 + c / 64);
    SymbolIs(c % 64);
  }

  /** Groups of three bytes are written one after the other; symbols without a byte are `=` signs. */
  lemma EncodeIs(b: Bytes)
    ensures b == [] ==> Encode(b) == ""
    ensures |b| == 1 ==> Encode(b) == Group(b[0], 0, 0)[..2] + "=="
    ensures |b| == 2 ==> Encode(b) == Group(b[0], b[1], 0)[..3] + "="
    ensures |b| >= 3 ==> Encode(b) == Group(b[0], b[1], b[2]) + Encode(b[3..])
  {
    hide Symbol, Group, Encode;
    NothingIs();
    if |b| == 1 {
      OneIs(b[0]);
      assert b == [b[0]];
    } else if |b| == 2 {
      TwoIs(b[0], b[1]);
      assert b == [b[0], b[1]];
    } else if |b| >= 3 {
      ThreeIs(b);
    }
  }

  lemma ThreeIs(b: Bytes)
    requires |b| >= 3
    ensures Encode(b) == Group(b[0], b[1], b[2]) + Encode(b[3..])
  {
    EncodeThree(b);
    GroupIs(b[0], b[1], b[2]);
    hide Symbol, Group, Encode;
  }

  lemma NothingIs()
    ensures Encode([]) == ""
  {
  }

  lemma EncodeFew(a: Byte, b: Byte)
    ensures Encode([a]) == [Symbol(a / 4), Symbol(a % 4 * 16)] + "=="
    ensures Encode([a, b]) == [Symbol(a / 4), Symbol(a % 4 * 16 + b / 16), Symbol(b % 16 * 4)] + "="
  {
    hide Symbol;
  }

  lemma OneIs(a: Byte)
    ensures Encode([a]) == Group(a, 0, 0)[..2] + "=="
  {
    hide Symbol, Group, Encode;
    EncodeFew(a, 0);
    GroupIs(a, 0, 0);
  }

  lemma TwoIs(a: Byte, b: Byte)
    ensures Encode([a, b]) == Group(a, b, 0)[..3] + "="
  {
    hide Symbol, Group, Encode;
    EncodeFew(a, b);
    GroupIs(a, b, 0);
  }

  // ----- b64decode -----

  /** The place in a group of four, the bits left over, and the padding seen */
  datatype State = State(quad: nat, left: nat, pads: nat)

  /** One character of the alphabet: the next state, and the byte it completes */
  function Step(s: State, x: Sextet): (State, Bytes) {
    match s.quad
    case 0 => (State(1, x, 0), [])
    case 1 => (State(2, x % 16, 0), [(s.left * 4 + x / 16) % 256])
    case 2 => (State(3, x % 4, 0), [(s.left * 16 + x / 4) % 256])
    case _ => (State(0, 0, 0), [(s.left * 64 + x) % 256])
  }

  function DecodeFrom(s: State, text: string): Option<Bytes>
    decreases |text|
  {
    if text == "" then (if s.quad == 0 then Some([]) else None)
    else if text[0] == '=' then
      if s.quad >= 2 && s.quad + s.pads + 1 >= 4 then Some([])
      else DecodeFrom(State(s.quad, s.left, if s.quad >= 2 then s.pads + 1 else s.pads), text[1..])
    else if Meaning(text[0]).None? then DecodeFrom(s, text[1..])
    else
      var (s2, out) := Step(s, Meaning(text[0]).value);
      match DecodeFrom(s2, text[1..])
      case None => None
      case Some(rest) => Some(out + rest)
  }

  /** `None` where `b64decode` raises */
  function Decode(text: string): Option<Bytes> {
    if exists i :: 0 <= i < |text| && text[i] as int >= 128 then None else DecodeFrom(State(0, 0, 0), text)
  }

  method B64Decode(text: string) returns (r: Option<Bytes>)
    ensures r == Decode(text)
  {
    if exists i :: 0 <= i < |text| && text[i] as int >= 128 {
      return None;
    }
    var out: Bytes := [];
    var s := State(0, 0, 0);
    assert text[0..] == text;
    PrefixedNothing(DecodeFrom(s, text));
    for i := 0 to |text|
      invariant Prefixed(out, DecodeFrom(s, text[i..])) == DecodeFrom(State(0, 0, 0), text)
    {
      assert text[i..][1..] == text[i + 1..];
      if text[i] == '=' {
        if s.quad >= 2 {
          if s.quad + s.pads + 1 >= 4 {
            assert out + [] == out;
            return Some(out);
          }
          s := s.(pads := s.pads + 1);
        }
      } else if Meaning(text[i]).Some? {
        var (s2, more) := Step(s, Meaning(text[i]).value);
        PrefixedTwice(out, more, DecodeFrom(s2, text[i + 1..]));
        s := s2;
        out := out + more;
      }
    }
    assert out + [] == out;
    if s.quad != 0 {
      return None;
    }
    return Some(out);
  }

  function Prefixed(out: Bytes, r: Option<Bytes>): Option<Bytes> {
    match r
    case None => None
    case Some(rest) => Some(out + rest)
  }

  lemma PrefixedNothing(r: Option<Bytes>)
    ensures Prefixed([], r) == r
  {
    if r.Some? {
      assert [] + r.value == r.value;
    }
  }

  lemma PrefixedTwice(a: Bytes, b: Bytes, r: Option<Bytes>)
    ensures Prefixed(a, Prefixed(b, r)) == Prefixed(a + b, r)
  {
    if r.Some? {
      assert a + (b + r.value) == a + b + r.value;
    }
  }

  // ----- what else is decoded -----

  lemma {:induction false} NoiseInside(s: State, a: string, c: char, b: string)
    requires Meaning(c).None? && c != '='
    ensures DecodeFrom(s, a + [c] + b) == DecodeFrom(s, a + b)
    decreases |a|
  {
    if a == "" {
      assert (a + [c] + b)[1..] == b && a + b == b;
    } else {
      assert (a + [c] + b)[0] == a[0] && (a + [c] + b)[1..] == a[1..] + [c] + b;
      assert (a + b)[0] == a[0] && (a + b)[1..] == a[1..] + b;
      hide Meaning, Step;
      if a[0] == '=' {
        NoiseInside(State(s.quad, s.left, if s.quad >= 2 then s.pads + 1 else s.pads), a[1..], c, b);
      } else if Meaning(a[0]).None? {
        NoiseInside(s, a[1..], c, b);
      } else {
        NoiseInside(Step(s, Meaning(a[0]).value).0, a[1..], c, b);
      }
    }
  }

  lemma {:induction false} NotInAlphabet(c: char)
    requires c !in Alphabet
    ensures Meaning(c).None?
  {
    hide Alphabet;
    if Meaning(c).Some? {
      SymbolIs(Meaning(c).value);
    }
  }

  /** ASCII characters outside the alphabet make no difference, wherever they stand. */
  lemma NoiseIsSkipped(a: string, c: char, b: string)
    requires c as int < 128 && c != '=' && c !in Alphabet
    ensures Decode(a + [c] + b) == Decode(a + b)
  {
    NotInAlphabet(c);
    NoiseInside(State(0, 0, 0), a, c, b);
    AsciiInside(a, c, b);
    hide DecodeFrom, Alphabet;
  }

  predicate Ascii(text: string) {
    forall i :: 0 <= i < |text| ==> text[i] as int < 128
  }

  lemma AsciiInside(a: string, c: char, b: string)
    requires c as int < 128
    ensures Ascii(a + [c] + b) <==> Ascii(a + b)
  {
    var with, without := a + [c] + b, a + b;
    if Ascii(with) {
      assert forall i :: 0 <= i < |a| ==> without[i] == with[i];
      assert forall i :: |a| <= i < |without| ==> without[i] == with[i + 1];
    }
    if Ascii(without) {
      assert forall i :: 0 <= i < |a| ==> with[i] == without[i];
      assert forall i :: |a| < i < |with| ==> with[i] == without[i - 1];
    }
  }

  predicate OfAlphabet(text: string) {
    forall i :: 0 <= i < |text| ==> text[i] in Alphabet
  }

  lemma OneSymbol(text: string)
    requires text != "" && OfAlphabet(text)
    ensures Meaning(text[0]).Some? && text[0] != '=' && OfAlphabet(text[1..])
  {
    InAlphabet(text[0]);
    hide Alphabet, Meaning;
  }

  lemma {:induction false} UnpaddedFrom(s: State, text: string)
    requires s.quad < 4 && OfAlphabet(text)
    ensures DecodeFrom(s, text).Some? <==> (s.quad + |text|) % 4 == 0
    decreases |text|
  {
    hide OfAlphabet, Meaning, Step;
    if text != "" {
      OneSymbol(text);
      StepMoves(s, Meaning(text[0]).value);
      UnpaddedFrom(Step(s, Meaning(text[0]).value).0, text[1..]);
    }
  }

  lemma StepMoves(s: State, x: Sextet)
    requires s.quad < 4
    ensures Step(s, x).0.quad == if s.quad == 3 then 0 else s.quad + 1
  {
  }

  lemma InAlphabet(c: char)
    requires c in Alphabet
    ensures Meaning(c).Some? && c != '=' && c as int < 128
  {
    var x :| 0 <= x < |Alphabet| && Alphabet[x] == c;
    assert |Alphabet| == 64;
    SymbolIs(x);
    SymbolMeans(x);
    hide Alphabet;
  }

  /** Symbols without padding are decoded exactly when they come in groups of four. */
  lemma UnpaddedExactly(text: string)
    requires OfAlphabet(text)
    ensures Decode(text).Some? <==> |text| % 4 == 0
  {
    UnpaddedFrom(State(0, 0, 0), text);
    hide DecodeFrom, Alphabet;
    forall i | 0 <= i < |text|
      ensures text[i] as int < 128
    {
      InAlphabet(text[i]);
    }
  }

  // ----- round trip -----

  lemma StepSymbol(s: State, x: Sextet, rest: string)
    ensures DecodeFrom(s, [Symbol(x)] + rest) == Prefixed(Step(s, x).1, DecodeFrom(Step(s, x).0, rest))
  {
    SymbolMeans(x);
    assert ([Symbol(x)] + rest)[1..] == rest;
  }

  lemma ThirdSymbol(left: nat, y: Sextet, b: Byte, rest: string)
    requires b == (left * 16 + y / 4) % 256
    ensures DecodeFrom(State(2, left, 0), [Symbol(y)] + rest) == Prefixed([b], DecodeFrom(State(3, y % 4, 0), rest))
  {
    StepSymbol(State(2, left, 0), y, rest);
  }

  lemma FourthSymbol(left: nat, z: Sextet, c: Byte, rest: string)
    requires c == (left * 64 + z) % 256
    ensures DecodeFrom(State(3, left, 0), [Symbol(z)] + rest) == Prefixed([c], DecodeFrom(State(0, 0, 0), rest))
  {
    StepSymbol(State(3, left, 0), z, rest);
  }

  /** Two symbols complete a byte, and so on up to four. */
  lemma TwoSymbols(w: Sextet, x: Sextet, a: Byte, rest: string)
    requires a == (w * 4 + x / 16) % 256
    ensures DecodeFrom(State(0, 0, 0), [Symbol(w), Symbol(x)] + rest) == Prefixed([a], DecodeFrom(State(2, x % 16, 0), rest))
  {
    StepSymbol(State(1, w, 0), x, rest);
    StepSymbol(State(0, 0, 0), w, [Symbol(x)] + rest);
    PrefixedNothing(Prefixed([a], DecodeFrom(State(2, x % 16, 0), rest)));
    assert Step(State(0, 0, 0), w) == (State(1, w, 0), []) && Step(State(1, w, 0), x) == (State(2, x % 16, 0), [a]);
    hide *;
    assert [Symbol(w), Symbol(x)] + rest == [Symbol(w)] + ([Symbol(x)] + rest);
  }

  lemma ThreeSymbols(w: Sextet, x: Sextet, y: Sextet, a: Byte, b: Byte, rest: string)
    requires a == (w * 4 + x / 16) % 256 && b == (x % 16 * 16 + y / 4) % 256
    ensures DecodeFrom(State(0, 0, 0), [Symbol(w), Symbol(x), Symbol(y)] + rest)
         == Prefixed([a, b], DecodeFrom(State(3, y % 4, 0), rest))
  {
    hide Symbol, DecodeFrom, Prefixed;
    ThirdSymbol(x % 16, y, b, rest);
    TwoSymbols(w, x, a, [Symbol(y)] + rest);
    PrefixedTwice([a], [b], DecodeFrom(State(3, y % 4, 0), rest));
    assert [a] + [b] == [a, b];
    assert [Symbol(w), Symbol(x), Symbol(y)] + rest == [Symbol(w), Symbol(x)] + ([Symbol(y)] + rest);
  }

  lemma FourSymbols(w: Sextet, x: Sextet, y: Sextet, z: Sextet, a: Byte, b: Byte, c: Byte, rest: string)
    requires a == (w * 4 + x / 16) % 256 && b == (x % 16 * 16 + y / 4) % 256 && c == (y % 4 * 64 + z) % 256
    ensures DecodeFrom(State(0, 0, 0), [Symbol(w), Symbol(x), Symbol(y), Symbol(z)] + rest)
         == Prefixed([a, b, c], DecodeFrom(State(0, 0, 0), rest))
  {
    hide Symbol, DecodeFrom, Prefixed;
    FourthSymbol(y % 4, z, c, rest);
    ThreeSymbols(w, x, y, a, b, [Symbol(z)] + rest);
    PrefixedTwice([a, b], [c], DecodeFrom(State(0, 0, 0), rest));
    assert [a, b] + [c] == [a, b, c];
    assert [Symbol(w), Symbol(x), Symbol(y), Symbol(z)] + rest == [Symbol(w), Symbol(x), Symbol(y)] + ([Symbol(z)] + rest);
  }

  lemma Digits(a: Byte, b: Byte, c: Byte)
    ensures a / 4 * 4 + (a % 4 * 16 + b / 16) / 16 == a
    ensures (a % 4 * 16 + b / 16) % 16 * 16 + (b % 16 * 4 + c / 64) / 4 == b
    ensures (b % 16 * 4 + c / 64) % 4 * 64 + c % 64 == c
  {
  }

  lemma EndDigits(a: Byte, b: Byte)
    ensures a == (a / 4 * 4 + a % 4 * 16 / 16) % 256
    ensures a == (a / 4 * 4 + (a % 4 * 16 + b / 16) / 16) % 256
    ensures b == ((a % 4 * 16 + b / 16) % 16 * 16 + b % 16 * 4 / 4) % 256
  {
    Digits(a, b, 0);
  }

  lemma OneByte(a: Byte)
    ensures DecodeFrom(State(0, 0, 0), Encode([a])) == Some([a])
  {
    EndDigits(a, 0);
    hide Symbol, DecodeFrom;
    TwoSymbols(a / 4, a % 4 * 16, a, "==");
    assert Encode([a]) == [Symbol(a / 4), Symbol(a % 4 * 16)] + "==";
    PaddingEnds(2, a % 4 * 16 % 16);
    assert [a] + [] == [a];
  }

  lemma TwoBytes(a: Byte, b: Byte)
    ensures DecodeFrom(State(0, 0, 0), Encode([a, b])) == Some([a, b])
  {
    EndDigits(a, b);
    hide Symbol, DecodeFrom;
    ThreeSymbols(a / 4, a % 4 * 16 + b / 16, b % 16 * 4, a, b, "=");
    assert Encode([a, b]) == [Symbol(a / 4), Symbol(a % 4 * 16 + b / 16), Symbol(b % 16 * 4)] + "=";
    PaddingEnds(3, b % 16 * 4 % 4);
    assert [a, b] + [] == [a, b];
  }

  lemma PaddingEnds(quad: nat, left: nat)
    ensures quad == 2 ==> DecodeFrom(State(quad, left, 0), "==") == Some([])
    ensures quad == 3 ==> DecodeFrom(State(quad, left, 0), "=") == Some([])
  {
    assert "=="[1..] == "=";
  }

  lemma ThreeDigits(a: Byte, b: Byte, c: Byte)
    ensures a == (a / 4 * 4 + (a % 4 * 16 + b / 16) / 16) % 256
    ensures b == ((a % 4 * 16 + b / 16) % 16 * 16 + (b % 16 * 4 + c / 64) / 4) % 256
    ensures c == ((b % 16 * 4 + c / 64) % 4 * 64 + c % 64) % 256
  {
    Digits(a, b, c);
  }

  lemma EncodeThree(b: Bytes)
    requires |b| >= 3
    ensures Encode(b) == [Symbol(b[0] / 4), Symbol(b[0] % 4 * 16 + b[1] / 16), Symbol(b[1] % 16 * 4 + b[2] / 64),
                          Symbol(b[2] % 64)] + Encode(b[3..])
  {
  }

  lemma ThreeBytes(b: Bytes)
    requires |b| >= 3
    ensures DecodeFrom(State(0, 0, 0), Encode(b)) == Prefixed([b[0], b[1], b[2]], DecodeFrom(State(0, 0, 0), Encode(b[3..])))
  {
    hide Symbol, DecodeFrom, Prefixed, Encode;
    ThreeDigits(b[0], b[1], b[2]);
    EncodeThree(b);
    FourSymbols(b[0] / 4, b[0] % 4 * 16 + b[1] / 16, b[1] % 16 * 4 + b[2] / 64, b[2] % 64,
                b[0], b[1], b[2], Encode(b[3..]));
  }

  lemma NoBytes()
    ensures DecodeFrom(State(0, 0, 0), Encode([])) == Some([])
  {
  }

  lemma {:induction false} DecodeEncodedFrom(b: Bytes)
    ensures DecodeFrom(State(0, 0, 0), Encode(b)) == Some(b)
  {
    hide Symbol, DecodeFrom, Encode;
    NoBytes();
    if |b| == 1 {
      OneByte(b[0]);
      assert b == [b[0]];
    } else if |b| == 2 {
      TwoBytes(b[0], b[1]);
      assert b == [b[0], b[1]];
    } else if |b| >= 3 {
      DecodeEncodedFrom(b[3..]);
      ThreeBytes(b);
      assert b == [b[0], b[1], b[2]] + b[3..];
    }
  }

  /** The characters of an encoding: printable, no white space, no line break */
  predicate Plain(c: char) {
    '+' <= c <= 'z'
  }

  lemma {:induction false} EncodedIsPlain(b: Bytes)
    ensures forall i :: 0 <= i < |Encode(b)| ==> Plain(Encode(b)[i])
    ensures b != [] ==> Encode(b) != ""
  {
    if |b| >= 3 {
      EncodedIsPlain(b[3..]);
    }
  }

  /** What `b64encode` writes, `b64decode` reads. */
  lemma DecodeEncoded(b: Bytes)
    ensures Decode(Encode(b)) == Some(b)
  {
    EncodedIsPlain(b);
    DecodeEncodedFrom(b);
  }
}
