/**
 The text of option 121 around the numbers of `ClasslessRoutes`: how `render_classless_routes` writes them and
 `parse_classless_routes` finds them.
 */
module RouteTexts {
  import opened Wrappers
  import opened Bytes
  import opened Texts
  import opened NetConfigs
  import opened ClasslessRoutes

  // ----- render_classless_routes -----

  /** `separator.join(parts)` */
  function JoinWith(separator: string, parts: seq<string>): string {
    if parts == [] then ""
    else if |parts| == 1 then parts[0]
    else parts[0] + separator + JoinWith(separator, parts[1..])
  }

  function Decimals(ns: seq<nat>): seq<string> {
    seq(|ns|, i requires 0 <= i < |ns| => Digits(ns[i]))
  }

  function Commas(b: Bytes): string {
    JoinWith(",", Decimals(b))
  }

  function Significant(r: Route): Bytes
    requires Is4(r)
  {
    RenderedIs(r);
    Put32(r.net.base)[..Size(r.net.len)]
  }

  function Router(r: Route): Bytes
    requires Is4(r)
  {
    RenderedIs(r);
    Put32(r.hop.value)
  }

  function RouteParts(r: Route): seq<string>
    requires Is4(r)
  {
    [Digits(r.net.len)] + (if Significant(r) == [] then [] else [Commas(Significant(r))]) + [Commas(Router(r))]
  }

  function Parts(routes: seq<Route>): seq<string>
    requires forall r :: r in routes ==> Is4(r)
  {
    if routes == [] then [] else RouteParts(routes[0]) + Parts(routes[1..])
  }

  /** The text of a list of routes */
  function Text(routes: seq<Route>): string
    requires forall r :: r in routes ==> Is4(r)
  {
    JoinWith(", ", Parts(routes))
  }

  method RenderClasslessRoutes(routes: seq<Route>) returns (text: string)
    requires forall r :: r in routes ==> Is4(r)
    ensures text == Text(routes)
  {
    hide Digits, Commas, Significant, Router, Is4, JoinWith, Parts;
    var parts: seq<string> := [];
    assert routes[0..] == routes;
    Regroup([], [], Parts(routes));
    for i := 0 to |routes|
      invariant Parts(routes) == parts + Parts(routes[i..])
    {
      var r := routes[i];
      PartsAt(routes, i);
      Regroup(parts, RouteParts(r), Parts(routes[i + 1..]));
      ghost var all := parts + RouteParts(r);
      parts := parts + [Digits(r.net.len)];
      if Significant(r) != [] {
        parts := parts + [Commas(Significant(r))];
      }
      parts := parts + [Commas(Router(r))];
      assert parts == all;
    }
    NoParts();
    assert routes[|routes|..] == [] && parts + [] == parts;
    text := JoinWith(", ", parts);
  }

  lemma NoParts()
    ensures Parts([]) == []
  {
  }

  lemma PartsAt(routes: seq<Route>, i: nat)
    requires (forall r :: r in routes ==> Is4(r)) && i < |routes|
    ensures Parts(routes[i..]) == RouteParts(routes[i]) + Parts(routes[i + 1..])
  {
    hide RouteParts, Is4;
    assert routes[i..][1..] == routes[i + 1..];
  }

  lemma Regroup<T>(a: seq<T>, b: seq<T>, c: seq<T>)
    ensures a + (b + c) == (a + b) + c && [] + c == c
  {
  }

  // ----- the layout -----

  /** The texts of routes are separated by commas and spaces. */
  lemma {:induction false} TextsAreJoined(a: seq<Route>, b: seq<Route>)
    requires a != [] && b != [] && forall r :: r in a + b ==> Is4(r)
    ensures (forall r :: r in a ==> Is4(r)) && (forall r :: r in b ==> Is4(r))
    ensures Text(a + b) == Text(a) + ", " + Text(b)
  {
    assert forall r :: r in a ==> r in a + b;
    assert forall r :: r in b ==> r in a + b;
    hide Is4, RouteParts;
    PartsAppend(a, b);
    SomeParts(a);
    SomeParts(b);
    JoinAppend(", ", Parts(a), Parts(b));
  }

  lemma SomeParts(routes: seq<Route>)
    requires routes != [] && forall r :: r in routes ==> Is4(r)
    ensures Parts(routes) != []
  {
  }

  lemma {:induction false} PartsAppend(a: seq<Route>, b: seq<Route>)
    requires (forall r :: r in a ==> Is4(r)) && (forall r :: r in b ==> Is4(r))
    ensures Parts(a + b) == Parts(a) + Parts(b)
  {
    hide Is4, RouteParts;
    if a == [] {
      assert a + b == b;
      Regroup([], [], Parts(b));
    } else {
      PartsAppend(a[1..], b);
      assert (a + b)[0] == a[0] && (a + b)[1..] == a[1..] + b;
      Regroup(RouteParts(a[0]), Parts(a[1..]), Parts(b));
    }
  }

  lemma {:induction false} JoinAppend(separator: string, a: seq<string>, b: seq<string>)
    requires a != [] && b != []
    ensures JoinWith(separator, a + b) == JoinWith(separator, a) + separator + JoinWith(separator, b)
  {
    if |a| == 1 {
      assert (a + b)[0] == a[0] && (a + b)[1..] == b;
    } else {
      JoinAppend(separator, a[1..], b);
      assert (a + b)[0] == a[0] && (a + b)[1..] == a[1..] + b;
    }
  }

  /** The bytes of an address with commas */
  function Spelled(b: seq<nat>): string
    requires |b| <= 4
  {
    if b == [] then ""
    else if |b| == 1 then Digits(b[0])
    else if |b| == 2 then Digits(b[0]) + "," + Digits(b[1])
    else if |b| == 3 then Digits(b[0]) + "," + Digits(b[1]) + "," + Digits(b[2])
    else Digits(b[0]) + "," + Digits(b[1]) + "," + Digits(b[2]) + "," + Digits(b[3])
  }

  lemma CommasAre(b: Bytes)
    requires 1 <= |b| <= 4
    ensures Commas(b) == Spelled(b)
  {
    hide Digits;
    JoinFew(",", Decimals(b));
  }

  lemma {:induction false} JoinFew(separator: string, p: seq<string>)
    requires 1 <= |p| <= 4
    ensures JoinWith(separator, p) ==
      if |p| == 1 then p[0] else if |p| == 2 then p[0] + separator + p[1]
      else if |p| == 3 then p[0] + separator + p[1] + separator + p[2]
      else p[0] + separator + p[1] + separator + p[2] + separator + p[3]
  {
    if |p| > 1 {
      JoinFew(separator, p[1..]);
      var rest := JoinWith(separator, p[1..]);
      assert JoinWith(separator, p) == p[0] + separator + rest;
    }
  }

  /** One route: its length, the significant bytes of its destination if it has any, and its router. */
  lemma TextIsLaid(r: Route, a: Byte, b: Byte, c: Byte, d: Byte, w: Byte, x: Byte, y: Byte, z: Byte)
    requires Is4(r)
    requires r.net.base == Word32(a, b, c, d) && r.hop.value == Word32(w, x, y, z)
    ensures var len := r.net.len;
      Text([r]) == Digits(len)
                   + (if len == 0 then "" else if len <= 8 then ", " + Spelled([a])
                      else if len <= 16 then ", " + Spelled([a, b]) else if len <= 24 then ", " + Spelled([a, b, c])
                      else ", " + Spelled([a, b, c, d]))
                   + ", " + Spelled([w, x, y, z])
  {
    BytesAre(r, a, b, c, d, w, x, y, z);
    hide Is4, Word32, Digits, Significant, Router, Commas, RouteParts, Text, Spelled;
    TextOfOne(r);
    CommasAre(Router(r));
    if r.net.len > 0 {
      CommasAre(Significant(r));
    }
  }

  lemma BytesAre(r: Route, a: Byte, b: Byte, c: Byte, d: Byte, w: Byte, x: Byte, y: Byte, z: Byte)
    requires Is4(r)
    requires r.net.base == Word32(a, b, c, d) && r.hop.value == Word32(w, x, y, z)
    ensures Router(r) == [w, x, y, z]
    ensures Significant(r) == if r.net.len == 0 then [] else if r.net.len <= 8 then [a] else if r.net.len <= 16 then [a, b]
                              else if r.net.len <= 24 then [a, b, c] else [a, b, c, d]
  {
    RenderedIs(r);
    Word32Bytes(a, b, c, d);
    Word32Bytes(w, x, y, z);
    SizeIs(r.net.len);
    hide Put32, Word32, Size, Is4;
  }

  lemma TextOfOne(r: Route)
    requires Is4(r)
    ensures Text([r]) == Digits(r.net.len) + (if Significant(r) == [] then "" else ", " + Commas(Significant(r))) + ", " + Commas(Router(r))
  {
    assert Parts([r]) == RouteParts(r) + Parts([r][1..]);
    hide Is4, Digits, Significant, Router, Commas, Parts;
    NoParts();
    assert RouteParts(r) + [] == RouteParts(r);
    JoinFew(", ", RouteParts(r));
  }

  // ----- the numbers of a text -----

  predicate IsSeparator(c: char) {
    c == ',' || IsSpace(c)
  }

  function Whole(piece: string): seq<string> {
    if piece == "" then [] else [piece]
  }

  /** The pieces of `re.split(r'[\s,]+', text)` that are not empty, after the characters `cur` of the current one */
  function PiecesFrom(text: string, cur: string): seq<string>
    decreases |text|
  {
    if text == "" then Whole(cur)
    else if IsSeparator(text[0]) then Whole(cur) + PiecesFrom(text[1..], "")
    else PiecesFrom(text[1..], cur + [text[0]])
  }

  function Pieces(text: string): seq<string> {
    PiecesFrom(text, "")
  }

  predicate IsDigit(c: char) {
    '0' <= c <= '9'
  }

  /** Digits, with single underscores between them */
  predicate Grouped(s: string) {
    && s != "" && IsDigit(s[0]) && IsDigit(s[|s| - 1])
    && forall i :: 0 < i < |s| ==> IsDigit(s[i]) || (s[i] == '_' && IsDigit(s[i - 1]))
  }

  function Ungrouped(s: string): string {
    if s == "" then "" else Ungrouped(s[..|s| - 1]) + (if s[|s| - 1] == '_' then "" else [s[|s| - 1]])
  }

  /** `int(s)` of a text without spaces, if it does not raise */
  function IntOf(s: string): Option<int> {
    var signed := StartsWith(s, "-") || StartsWith(s, "+");
    var size := if signed then s[1..] else s;
    if !Grouped(size) then None
    else if StartsWith(s, "-") then Some(0 - (Decimal(Ungrouped(size)) as int))
    else Some(Decimal(Ungrouped(size)))
  }

  function Integers(pieces: seq<string>): Option<seq<int>> {
    if pieces == [] then Some([])
    else match (IntOf(pieces[0]), Integers(pieces[1..]))
      case (Some(n), Some(ns)) => Some([n] + ns)
      case _ => None
  }

  function NumbersOf(text: string): Option<seq<int>> {
    Integers(Pieces(Strip(text)))
  }

  /** The routes of a well-formed value, `None` of another one */
  function ParsedText(text: string): Option<seq<Route>> {
    match NumbersOf(text)
    case None => None
    case Some(ns) => Parsed(ns)
  }

  method ParseClasslessRoutes(text: string) returns (routes: seq<Route>)
    ensures routes == match ParsedText(text) { case Some(rs) => rs case None => [] }
  {
    hide Parsed, NumbersOf;
    var numbers := NumbersOf(text);
    if numbers.None? {
      return [];
    }
    routes := ClasslessRoutes.ParseNumbers(numbers.value);
  }

  // ----- round trip -----

  lemma {:induction false} PiecesSplit(a: string, c: char, b: string, cur: string)
    requires IsSeparator(c)
    ensures PiecesFrom(a + [c] + b, cur) == PiecesFrom(a, cur) + Pieces(b)
    decreases |a|
  {
    var text := a + [c] + b;
    if a == "" {
      assert text[0] == c && text[1..] == b;
    } else {
      assert text[0] == a[0] && text[1..] == a[1..] + [c] + b;
      PiecesSplit(a[1..], c, b, if IsSeparator(a[0]) then "" else cur + [a[0]]);
    }
  }

  /** Spaces around the text make no difference. */
  lemma {:induction false} StripKeepsPieces(s: string)
    ensures Pieces(Strip(s)) == Pieces(s)
    decreases |s|
  {
    if s != "" && IsSpace(s[0]) {
      StripKeepsPieces(s[1..]);
      PiecesSplit("", s[0], s[1..], "");
      assert "" + [s[0]] + s[1..] == s;
    } else if s != "" && IsSpace(s[|s| - 1]) {
      StripKeepsPieces(s[..|s| - 1]);
      PiecesSplit(s[..|s| - 1], s[|s| - 1], "", "");
      assert s[..|s| - 1] + [s[|s| - 1]] + "" == s;
      assert Pieces(s[..|s| - 1]) + [] == Pieces(s[..|s| - 1]);
    }
  }

  lemma {:induction false} OnePiece(s: string, cur: string)
    requires forall i :: 0 <= i < |s| ==> !IsSeparator(s[i])
    ensures PiecesFrom(s, cur) == Whole(cur + s)
    decreases |s|
  {
    if s == "" {
      assert cur + s == cur;
    } else {
      OnePiece(s[1..], cur + [s[0]]);
      assert cur + [s[0]] + s[1..] == cur + s;
    }
  }

  lemma DigitsDoNotSeparate(s: string)
    requires IsDigits(s)
    ensures forall i :: 0 <= i < |s| ==> !IsSeparator(s[i])
  {
  }

  lemma DigitsAreOnePiece(n: nat)
    ensures Pieces(Digits(n)) == [Digits(n)]
  {
    DecimalOfDigits(n);
    DigitsDoNotSeparate(Digits(n));
    OnePiece(Digits(n), "");
    hide Digits, Decimal, IsDigits, PiecesFrom, IsSeparator;
    assert "" + Digits(n) == Digits(n);
  }

  /** The pieces of every part, one part after the other */
  function PiecesOfAll(parts: seq<string>): seq<string> {
    if parts == [] then [] else Pieces(parts[0]) + PiecesOfAll(parts[1..])
  }

  lemma {:induction false} PiecesOfJoined(separator: string, parts: seq<string>)
    requires separator == "," || separator == ", "
    ensures Pieces(JoinWith(separator, parts)) == PiecesOfAll(parts)
  {
    if |parts| == 1 {
      assert PiecesOfAll(parts) == Pieces(parts[0]) + PiecesOfAll(parts[1..]);
      assert Pieces(parts[0]) + [] == Pieces(parts[0]);
    } else if parts != [] {
      var rest := JoinWith(separator, parts[1..]);
      PiecesOfJoined(separator, parts[1..]);
      PiecesSplit(parts[0], ',', separator[1..] + rest, "");
      assert parts[0] + separator + rest == parts[0] + [','] + (separator[1..] + rest);
      if separator == "," {
        assert separator[1..] + rest == rest;
      } else {
        PiecesSplit("", ' ', rest, "");
        assert separator[1..] + rest == "" + [' '] + rest;
      }
    }
  }

  lemma {:induction false} PiecesOfDecimals(ns: seq<nat>)
    ensures PiecesOfAll(Decimals(ns)) == Decimals(ns)
  {
    if ns != [] {
      DigitsAreOnePiece(ns[0]);
      PiecesOfDecimals(ns[1..]);
      hide Digits, Pieces;
      assert Decimals(ns)[1..] == Decimals(ns[1..]) && Decimals(ns) == [Digits(ns[0])] + Decimals(ns[1..]);
    }
  }

  lemma PiecesOfCommas(b: Bytes)
    ensures Pieces(Commas(b)) == Decimals(b)
  {
    PiecesOfJoined(",", Decimals(b));
    PiecesOfDecimals(b);
  }

  lemma {:induction false} PiecesAppend(a: seq<string>, b: seq<string>)
    ensures PiecesOfAll(a + b) == PiecesOfAll(a) + PiecesOfAll(b)
  {
    hide Pieces;
    if a == [] {
      assert a + b == b;
      Regroup([], [], PiecesOfAll(b));
    } else {
      PiecesAppend(a[1..], b);
      assert (a + b)[0] == a[0] && (a + b)[1..] == a[1..] + b;
      Regroup(Pieces(a[0]), PiecesOfAll(a[1..]), PiecesOfAll(b));
    }
  }

  lemma PiecesOfPart(s: string)
    ensures PiecesOfAll([s]) == Pieces(s)
  {
    assert PiecesOfAll([s]) == Pieces(s) + PiecesOfAll([s][1..]);
  }

  lemma NoPieces()
    ensures PiecesOfAll([]) == [] && Decimals([]) == []
  {
  }

  lemma DecimalsAppend(a: seq<nat>, b: seq<nat>)
    ensures Decimals(a + b) == Decimals(a) + Decimals(b)
  {
  }

  lemma PiecesOfParts(len: nat, b: Bytes, h: Bytes)
    ensures PiecesOfAll([Digits(len)] + (if b == [] then [] else [Commas(b)]) + [Commas(h)]) == Decimals([len] + b + h)
  {
    DigitsAreOnePiece(len);
    PiecesOfCommas(b);
    PiecesOfCommas(h);
    PiecesOfPart(Digits(len));
    PiecesOfPart(Commas(b));
    PiecesOfPart(Commas(h));
    var middle := if b == [] then [] else [Commas(b)];
    NoPieces();
    hide Commas, Pieces, Digits, PiecesOfAll;
    PiecesAppend([Digits(len)], middle);
    PiecesAppend([Digits(len)] + middle, [Commas(h)]);
    DecimalsAppend([len], b);
    DecimalsAppend([len] + b, h);
  }

  /** The pieces of a route are its numbers, also when no byte of its destination is significant. */
  lemma PiecesOfRoute(r: Route)
    requires Is4(r)
    ensures PiecesOfAll(RouteParts(r)) == Decimals(RenderedRoute(r))
  {
    hide Pieces, Digits, Commas, Put32, Is4;
    RenderedIs(r);
    hide RenderedRoute;
    PiecesOfParts(r.net.len, Significant(r), Router(r));
  }

  lemma {:induction false} PiecesOfRoutes(routes: seq<Route>)
    requires forall r :: r in routes ==> Is4(r)
    ensures PiecesOfAll(Parts(routes)) == Decimals(Rendered(routes))
  {
    if routes != [] {
      var r := routes[0];
      assert Is4(r);
      hide Is4, RouteParts, RenderedRoute, PiecesOfAll, Digits;
      PiecesOfRoute(r);
      PiecesOfRoutes(routes[1..]);
      PiecesAppend(RouteParts(r), Parts(routes[1..]));
      DecimalsAppend(RenderedRoute(r), Rendered(routes[1..]));
      hide Decimals;
    }
  }

  lemma {:induction false} NothingGrouped(s: string)
    requires forall i :: 0 <= i < |s| ==> IsDigit(s[i])
    ensures Ungrouped(s) == s
  {
    if s != "" {
      NothingGrouped(s[..|s| - 1]);
      assert s[..|s| - 1] + [s[|s| - 1]] == s;
    }
  }

  lemma DigitsAreRead(n: nat)
    ensures IntOf(Digits(n)) == Some(n)
  {
    hide Digits, Decimal, Ungrouped;
    DecimalOfDigits(n);
    var s := Digits(n);
    NothingGrouped(s);
    assert IsDigit(s[0]);
    assert !StartsWith(s, "-") && !StartsWith(s, "+");
  }

  lemma {:induction false} UngroupedBoth(a: string, b: string)
    ensures Ungrouped(a + b) == Ungrouped(a) + Ungrouped(b)
  {
    if b == "" {
      assert a + b == a && Ungrouped(a) + "" == Ungrouped(a);
    } else {
      assert (a + b)[..|a + b| - 1] == a + b[..|b| - 1];
      UngroupedBoth(a, b[..|b| - 1]);
    }
  }

  /** Integers may have a sign, and single underscores between their digits. */
  lemma IntIs(a: string, b: string)
    requires IsDigits(a) && IsDigits(b)
    ensures IntOf(a) == Some(Decimal(a)) && IntOf("+" + a) == Some(Decimal(a)) && IntOf("-" + a) == Some(0 - (Decimal(a) as int))
    ensures IntOf(a + "_" + b) == Some(Decimal(a + b))
    ensures IntOf(a + "__" + b).None? && IntOf("_" + a).None? && IntOf(a + "_").None? && IntOf("").None?
  {
    hide *;
    SignedIs(a);
    Plainly(a);
    Signed(a);
    UnderscoreIs(a, b);
    NoNumbers(a, b);
  }

  lemma UnderscoreIs(a: string, b: string)
    requires IsDigits(a) && IsDigits(b)
    ensures IntOf(a + "_" + b) == Some(Decimal(a + b))
  {
    hide *;
    GroupedIs(a, b);
    UngroupedParts(a, b);
    Unsigned(a, "_" + b);
    assert a + ("_" + b) == a + "_" + b;
    Plainly(a + "_" + b);
  }

  lemma NoNumbers(a: string, b: string)
    requires IsDigits(a) && IsDigits(b)
    ensures IntOf(a + "__" + b).None? && IntOf("_" + a).None? && IntOf(a + "_").None? && IntOf("").None?
  {
    assert !StartsWith("", "-") && !StartsWith("", "+");
    assert !StartsWith("_" + a, "-") && !StartsWith("_" + a, "+") by {
      assert ("_" + a)[..1] == "_";
    }
    hide *;
    NotGrouped(a, b);
    Unsigned(a, "__" + b);
    Unsigned(a, "_");
    assert a + ("__" + b) == a + "__" + b;
    Plainly(a + "__" + b);
    Plainly("_" + a);
    Plainly(a + "_");
    Plainly("");
  }

  /** The first character of a number decides whether it has a sign. */
  lemma Unsigned(a: string, rest: string)
    requires IsDigits(a)
    ensures !StartsWith(a + rest, "-") && !StartsWith(a + rest, "+")
  {
    assert (a + rest)[..1] == [a[0]];
  }

  lemma Plainly(s: string)
    requires !StartsWith(s, "-") && !StartsWith(s, "+")
    ensures IntOf(s) == if Grouped(s) then Some(Decimal(Ungrouped(s))) else None
  {
    hide Decimal, Ungrouped, Grouped;
  }

  lemma Signed(a: string)
    requires Grouped(a) && ("+" + a)[1..] == a && ("-" + a)[1..] == a && ("+" + a)[..1] == "+" && ("-" + a)[..1] == "-"
    ensures IntOf("+" + a) == Some(Decimal(Ungrouped(a))) && IntOf("-" + a) == Some(0 - (Decimal(Ungrouped(a)) as int))
  {
    hide Decimal, Ungrouped, Grouped;
  }

  lemma SignedIs(a: string)
    requires IsDigits(a)
    ensures Grouped(a) && Ungrouped(a) == a && !StartsWith(a, "-") && !StartsWith(a, "+")
    ensures ("+" + a)[1..] == a && ("-" + a)[1..] == a && ("+" + a)[..1] == "+" && ("-" + a)[..1] == "-"
  {
    NothingGrouped(a);
    Unsigned(a, "");
    assert a + "" == a;
    hide Ungrouped, StartsWith;
  }

  lemma UngroupedParts(a: string, b: string)
    requires IsDigits(a) && IsDigits(b)
    ensures Ungrouped(a + "_" + b) == a + b
  {
    NothingGrouped(a);
    NothingGrouped(b);
    assert "_"[..0] == "" && Ungrouped("") == "";
    assert Ungrouped("_") == "";
    hide Ungrouped, IsDigits;
    UngroupedBoth(a, "_");
    UngroupedBoth(a + "_", b);
    assert a + "" == a;
  }

  lemma GroupedIs(a: string, b: string)
    requires IsDigits(a) && IsDigits(b)
    ensures Grouped(a + "_" + b)
  {
    var s := a + "_" + b;
    assert s[0] == a[0] && s[|s| - 1] == b[|b| - 1];
    forall i | 0 < i < |s|
      ensures IsDigit(s[i]) || (s[i] == '_' && IsDigit(s[i - 1]))
    {
      if i < |a| {
        assert s[i] == a[i];
      } else if i == |a| {
        assert s[i] == '_' && s[i - 1] == a[|a| - 1];
      } else {
        assert s[i] == b[i - |a| - 1];
      }
    }
  }

  lemma NotGrouped(a: string, b: string)
    requires IsDigits(a) && IsDigits(b)
    ensures !Grouped(a + "__" + b) && !Grouped("_" + a) && !Grouped(a + "_") && !Grouped("")
  {
    var s := a + "__" + b;
    assert s[|a|] == '_' && s[|a| + 1] == '_';
    assert (a + "_")[|a|] == '_';
  }

  lemma {:induction false} DecimalsAreRead(ns: seq<nat>)
    ensures Integers(Decimals(ns)) == Some(ns)
  {
    if ns != [] {
      hide IntOf, Digits;
      DigitsAreRead(ns[0]);
      DecimalsAreRead(ns[1..]);
      assert Decimals(ns)[0] == Digits(ns[0]) && Decimals(ns)[1..] == Decimals(ns[1..]) && ns == [ns[0]] + ns[1..];
    }
  }

  lemma {:induction false} SeparatorsAround(before: string, s: string, after: string)
    requires forall i :: 0 <= i < |before| ==> IsSeparator(before[i])
    requires forall i :: 0 <= i < |after| ==> IsSeparator(after[i])
    ensures Pieces(before + s + after) == Pieces(s)
    decreases |before| + |after|
  {
    if before != "" {
      SeparatorsAround(before[1..], s, after);
      PiecesSplit("", before[0], before[1..] + s + after, "");
      assert before + s + after == "" + [before[0]] + (before[1..] + s + after);
    } else if after != "" {
      SeparatorsAround("", s, after[..|after| - 1]);
      PiecesSplit(s + after[..|after| - 1], after[|after| - 1], "", "");
      assert before + s + after == (s + after[..|after| - 1]) + [after[|after| - 1]] + "";
      assert "" + s + after[..|after| - 1] == s + after[..|after| - 1];
      assert Pieces(s) + [] == Pieces(s);
    } else {
      assert before + s + after == s;
    }
  }

  /** Parsing the rendered text of any list of routes returns that list, also between spaces or commas. */
  lemma ParseRendered(routes: seq<Route>, before: string, after: string)
    requires forall r :: r in routes ==> Is4(r)
    requires forall i :: 0 <= i < |before| ==> IsSeparator(before[i])
    requires forall i :: 0 <= i < |after| ==> IsSeparator(after[i])
    ensures ParsedText(before + Text(routes) + after) == Some(routes)
  {
    hide Is4, Parts, Rendered, Parsed, Integers, Strip, Pieces, JoinWith, IsSeparator;
    StripKeepsPieces(before + JoinWith(", ", Parts(routes)) + after);
    SeparatorsAround(before, JoinWith(", ", Parts(routes)), after);
    PiecesOfJoined(", ", Parts(routes));
    PiecesOfRoutes(routes);
    DecimalsAreRead(Rendered(routes));
    ClasslessRoutes.ParseRendered(routes);
  }

  /** A text is accepted exactly when its numbers are those of rendered routes, and then as these. */
  lemma AcceptedIsRendered(text: string, routes: seq<Route>)
    ensures ParsedText(text) == Some(routes) <==>
            (forall r :: r in routes ==> Is4(r)) && NumbersOf(text) == Some(Rendered(routes))
  {
    if NumbersOf(text).Some? {
      ClasslessRoutes.AcceptedIsRendered(NumbersOf(text).value, routes);
    }
    hide Is4, Rendered, Parsed, NumbersOf;
  }
}
