/**
 The text functions of Python that the parsers use.
 */
module Texts {
  import opened Wrappers

  /** `str.isspace` of one character */
  predicate IsSpace(c: char) {
    var v := c as int;
    9 <= v <= 13 || 28 <= v <= 32 || v == 0x85 || v == 0xA0 || v == 0x1680 || 0x2000 <= v <= 0x200A
    || v == 0x2028 || v == 0x2029 || v == 0x202F || v == 0x205F || v == 0x3000
  }

  /** The characters at which `str.splitlines` breaks */
  predicate IsBreak(c: char) {
    var v := c as int;
    10 <= v <= 13 || 28 <= v <= 30 || v == 0x85 || v == 0x2028 || v == 0x2029
  }

  /** `str.strip` */
  function Strip(s: string): string {
    if s != "" && IsSpace(s[0]) then Strip(s[1..])
    else if s != "" && IsSpace(s[|s| - 1]) then Strip(s[..|s| - 1])
    else s
  }

  predicate StartsWith(s: string, prefix: string) {
    |prefix| <= |s| && s[..|prefix|] == prefix
  }

  predicate Trimmed(s: string) {
    s == "" || (!IsSpace(s[0]) && !IsSpace(s[|s| - 1]))
  }

  lemma {:induction false} StripSpace(s: string)
    requires Trimmed(s)
    ensures Strip(" " + s) == s && Strip(s) == s
  {
    assert (" " + s)[1..] == s;
  }

  /** Of the ASCII characters, tab to carriage return and file separator to space are white space. */
  lemma SpacesAre(c: char)
    requires c as int < 128
    ensures IsSpace(c) <==> c as int in {9, 10, 11, 12, 13, 28, 29, 30, 31, 32}
  {
  }

  /** A text is what is left of it when it is stripped, between white space. */
  lemma {:induction false} StripIs(s: string) returns (before: string, after: string)
    ensures s == before + Strip(s) + after && Trimmed(Strip(s))
    ensures forall i :: 0 <= i < |before| ==> IsSpace(before[i])
    ensures forall i :: 0 <= i < |after| ==> IsSpace(after[i])
    decreases |s|
  {
    hide IsSpace;
    if s != "" && IsSpace(s[0]) {
      before, after := StripIs(s[1..]);
      before := [s[0]] + before;
      assert s == [s[0]] + s[1..];
    } else if s != "" && IsSpace(s[|s| - 1]) {
      before, after := StripIs(s[..|s| - 1]);
      after := after + [s[|s| - 1]];
      assert s == s[..|s| - 1] + [s[|s| - 1]];
    } else {
      before, after := "", "";
    }
  }

  /** Lower case, as far as comparing with ASCII text goes */
  function LowerChar(c: char): char {
    if 'A' <= c <= 'Z' then (c as int + 32) as char else c
  }

  function Lower(s: string): (r: string)
    ensures |r| == |s| && forall i :: 0 <= i < |s| ==> r[i] == LowerChar(s[i])
  {
    seq(|s|, i requires 0 <= i < |s| => LowerChar(s[i]))
  }

  /** `str.splitlines`, after the characters `cur` of the current line */
  function LinesFrom(text: string, cur: string): seq<string>
    decreases |text|
  {
    if text == "" then (if cur == "" then [] else [cur])
    else if StartsWith(text, "\r\n") then [cur] + LinesFrom(text[2..], "")
    else if IsBreak(text[0]) then [cur] + LinesFrom(text[1..], "")
    else LinesFrom(text[1..], cur + [text[0]])
  }

  function SplitLines(text: string): seq<string> {
    LinesFrom(text, "")
  }

  predicate SingleLine(s: string) {
    forall i :: 0 <= i < |s| ==> !IsBreak(s[i])
  }

  /** A line ends at any of the breaks, at a carriage return together with the line feed after it, and at the end. */
  lemma {:induction false} LineEnds(line: string, c: char, cur: string, rest: string)
    requires SingleLine(line)
    requires c as int in {10, 11, 12, 13, 28, 29, 30, 0x85, 0x2028, 0x2029}
    ensures LinesFrom(line + [c] + rest, cur) ==
            [cur + line] + LinesFrom(if c == '\r' && rest != "" && rest[0] == '\n' then rest[1..] else rest, "")
    ensures LinesFrom(line, cur) == if cur + line == "" then [] else [cur + line]
    decreases |line|
  {
    var text := line + [c] + rest;
    if line == "" {
      assert text[0] == c && text[1..] == rest && cur + line == cur;
      if rest != "" {
        assert text[1] == rest[0] && text[2..] == rest[1..] && text[..2] == [c, rest[0]];
      }
    } else {
      assert text[0] == line[0] && text[1..] == line[1..] + [c] + rest;
      assert !StartsWith(text, "\r\n") && !StartsWith(line, "\r\n") by {
        assert text[..|text|][0] != '\r' && line[0] != '\r';
      }
      LineEnds(line[1..], c, cur + [line[0]], rest);
      assert cur + [line[0]] + line[1..] == cur + line;
    }
  }

  /** Every line with its end */
  function Joined(lines: seq<string>): string {
    if lines == [] then "" else lines[0] + "\n" + Joined(lines[1..])
  }

  lemma {:induction false} OneLine(line: string, cur: string, rest: string)
    requires SingleLine(line)
    ensures LinesFrom(line + "\n" + rest, cur) == [cur + line] + LinesFrom(rest, "")
    decreases |line|
  {
    var text := line + "\n" + rest;
    if line == "" {
      assert text[0] == '\n' && text[1..] == rest;
      assert cur + line == cur;
    } else {
      assert text[0] == line[0] && text[1..] == line[1..] + "\n" + rest;
      OneLine(line[1..], cur + [line[0]], rest);
      assert cur + [line[0]] + line[1..] == cur + line;
    }
  }

  /** Lines without breaks are split as they were joined. */
  lemma {:induction false} SplitJoined(lines: seq<string>)
    requires forall l :: l in lines ==> SingleLine(l)
    ensures SplitLines(Joined(lines)) == lines
  {
    if lines != [] {
      SplitJoined(lines[1..]);
      OneLine(lines[0], "", Joined(lines[1..]));
      assert "" + lines[0] == lines[0];
    }
  }

  lemma {:induction false} JoinedAppend(a: seq<string>, b: seq<string>)
    ensures Joined(a + b) == Joined(a) + Joined(b)
  {
    if a == [] {
      assert a + b == b;
    } else {
      JoinedAppend(a[1..], b);
      assert (a + b)[1..] == a[1..] + b;
    }
  }

  /** The place of a character, if it occurs */
  function Find(s: string, c: char): (r: Option<nat>)
    ensures r.Some? ==> r.value < |s| && s[r.value] == c && forall i :: 0 <= i < r.value ==> s[i] != c
    ensures r.None? ==> forall i :: 0 <= i < |s| ==> s[i] != c
  {
    if s == "" then None
    else if s[0] == c then Some(0)
    else match Find(s[1..], c)
      case Some(i) => Some(i + 1)
      case None => None
  }

  lemma FindFirst(name: string, c: char, rest: string)
    requires forall i :: 0 <= i < |name| ==> name[i] != c
    ensures Find(name + [c] + rest, c) == Some(|name|)
  {
    var s := name + [c] + rest;
    assert s[|name|] == c && forall i :: 0 <= i < |name| ==> s[i] == name[i];
  }

  // ----- decimal numbers -----

  /** `str(n)` */
  function Digits(n: nat): (s: string)
    ensures s != ""
  {
    var last := [('0' as int + n % 10) as char];
    if n < 10 then last else Digits(n / 10) + last
  }

  predicate IsDigits(s: string) {
    s != "" && forall i :: 0 <= i < |s| ==> '0' <= s[i] <= '9'
  }

  /** Digits are written in decimal, the most significant one first. */
  lemma DigitsAre(n: nat, d: nat)
    requires d < 10
    ensures Digits(d) == ["0123456789"[d]]
    ensures n > 0 ==> Digits(10 * n + d) == Digits(n) + ["0123456789"[d]]
  {
    assert "0123456789"[d] as int == '0' as int + d by {
      var k := d;
      if k == 0 {
      } else if k == 1 {
      } else if k == 2 {
      } else if k == 3 {
      } else if k == 4 {
      } else if k == 5 {
      } else if k == 6 {
      } else if k == 7 {
      } else if k == 8 {
      }
    }
  }

  /** `int(s)`, for digits */
  function Decimal(s: string): nat {
    if s == "" then 0 else Decimal(s[..|s| - 1]) * 10 + (if '0' <= s[|s| - 1] <= '9' then s[|s| - 1] as int - '0' as int else 0)
  }

  lemma {:induction false} DecimalOfDigits(n: nat)
    ensures IsDigits(Digits(n)) && Decimal(Digits(n)) == n
  {
    var last := [('0' as int + n % 10) as char];
    if n >= 10 {
      DecimalOfDigits(n / 10);
      var s := Digits(n);
      assert s[..|s| - 1] == Digits(n / 10);
    } else {
      assert Digits(n)[..0] == "";
    }
  }
}
