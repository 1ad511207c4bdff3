/**
 The text of LDIF: what a rendered entry looks like, and what a reader meets besides rendered entries, which
 is folded lines, comments, `version` lines and the trailer of `ldapsearch`.
 */
module LdifText {
  import opened Wrappers
  import opened Texts
  import opened Ldif
  import opened LdifRoundTrip
  import Utf8
  import Base64

  // ----- the text of an entry -----

  /** A value is written as it is when it consists of printable ASCII characters, does not start with a space, a
      colon or a less-than sign, and does not end with a space (RFC 2849). */
  lemma LineIs(name: string, value: string)
    ensures LdifLine(name, value) ==
            if && (forall c :: c in value ==> 32 <= c as int <= 126)
               && (value != "" ==> value[0] as int != 32 && value[0] as int != 58 && value[0] as int != 60)
               && (value != "" ==> value[|value| - 1] as int != 32)
            then name + ": " + value
            else name + ":: " + Base64.Encode(Utf8.Encode(value))
  {
    hide Base64.Encode, Utf8.Encode;
    CharactersOf(value);
  }

  lemma CharactersOf(s: string)
    ensures (forall i :: 0 <= i < |s| ==> Printable(s[i])) <==> (forall c :: c in s ==> 32 <= c as int <= 126)
  {
    if forall c :: c in s ==> 32 <= c as int <= 126 {
      forall i | 0 <= i < |s|
        ensures Printable(s[i])
      {
        assert s[i] in s;
      }
    }
  }

  /** All values with their names, in order */
  function Pairs(attrs: seq<Attribute>): seq<(string, string)> {
    if attrs == [] then [] else Named(attrs[0].name, attrs[0].values) + Pairs(attrs[1..])
  }

  function Named(name: string, values: seq<string>): (r: seq<(string, string)>)
    ensures |r| == |values| && forall i :: 0 <= i < |values| ==> r[i] == (name, values[i])
  {
    seq(|values|, i requires 0 <= i < |values| => (name, values[i]))
  }

  function LinesOf(pairs: seq<(string, string)>): (r: seq<string>)
    ensures |r| == |pairs| && forall i :: 0 <= i < |pairs| ==> r[i] == LdifLine(pairs[i].0, pairs[i].1)
  {
    seq(|pairs|, i requires 0 <= i < |pairs| => LdifLine(pairs[i].0, pairs[i].1))
  }

  lemma {:induction false} AttributeLinesAre(a: Attribute, k: nat)
    requires k <= |a.values|
    ensures AttributeLines(a, k) == LinesOf(Named(a.name, a.values))[..k]
  {
    hide LdifLine;
    if k > 0 {
      AttributeLinesAre(a, k - 1);
    }
  }

  lemma {:induction false} PairsAppend(attrs: seq<Attribute>, a: Attribute)
    ensures Pairs(attrs + [a]) == Pairs(attrs) + Named(a.name, a.values)
  {
    if attrs == [] {
      assert attrs + [a] == [a] && [a][1..] == [];
      assert Pairs([]) == [];
      assert Pairs([a]) == Named(a.name, a.values) + [];
    } else {
      PairsAppend(attrs[1..], a);
      assert (attrs + [a])[0] == attrs[0] && (attrs + [a])[1..] == attrs[1..] + [a];
    }
  }

  /** An entry is its DN, then a line for each value, in the order given. */
  lemma {:induction false} EntryIs(dn: string, attrs: seq<Attribute>)
    ensures EntryLines(dn, attrs) == ["dn: " + dn] + LinesOf(Pairs(attrs))
  {
    hide LdifLine;
    if attrs != [] {
      var front, last := attrs[..|attrs| - 1], attrs[|attrs| - 1];
      EntryIs(dn, front);
      PairsAppend(front, last);
      assert attrs == front + [last];
      AttributeLinesAre(last, |last.values|);
      hide Pairs;
      var named := Named(last.name, last.values);
      assert LinesOf(Pairs(front) + named) == LinesOf(Pairs(front)) + LinesOf(named);
    }
  }

  // ----- folded lines and comments -----

  /** A logical line in several pieces, or a comment */
  datatype Written = Folded(first: string, more: seq<string>) | Comment(text: string)

  function Continuations(more: seq<string>): (r: seq<string>)
    ensures |r| == |more| && forall i :: 0 <= i < |more| ==> r[i] == " " + more[i]
  {
    seq(|more|, i requires 0 <= i < |more| => " " + more[i])
  }

  /** The lines of a file */
  function Physical(ws: seq<Written>): seq<string> {
    if ws == [] then []
    else
      Physical(ws[..|ws| - 1])
      + match ws[|ws| - 1]
        case Folded(first, more) => [first] + Continuations(more)
        case Comment(text) => ["#" + text]
  }

  function Concat(parts: seq<string>): string {
    if parts == [] then "" else Concat(parts[..|parts| - 1]) + parts[|parts| - 1]
  }

  /** The lines that they mean */
  function Logical(ws: seq<Written>): seq<string> {
    if ws == [] then []
    else
      Logical(ws[..|ws| - 1])
      + match ws[|ws| - 1]
        case Folded(first, more) => [first + Concat(more)]
        case Comment(_) => []
  }

  /** A piece that starts a line does not look like a continuation or a comment. */
  predicate Foldable(ws: seq<Written>) {
    forall w :: w in ws && w.Folded? ==> w.first == "" || (w.first[0] != ' ' && w.first[0] != '#')
  }

  lemma UnfoldLast(lines: seq<string>, raw: string)
    ensures Unfold(lines + [raw]) ==
            if StartsWith(raw, " ") && Unfold(lines) != [] then
              Unfold(lines)[..|Unfold(lines)| - 1] + [Unfold(lines)[|Unfold(lines)| - 1] + raw[1..]]
            else if StartsWith(raw, "#") then Unfold(lines)
            else Unfold(lines) + [raw]
  {
    assert (lines + [raw])[..|lines|] == lines;
  }

  lemma {:induction false} ContinuationsJoin(lines: seq<string>, first: string, more: seq<string>)
    requires Unfold(lines + [first]) == Unfold(lines) + [first]
    ensures Unfold(lines + ([first] + Continuations(more))) == Unfold(lines) + [first + Concat(more)]
  {
    hide Unfold;
    if more == [] {
      assert [first] + Continuations(more) == [first] && first + "" == first;
    } else {
      var front, last := more[..|more| - 1], more[|more| - 1];
      ContinuationsJoin(lines, first, front);
      assert lines + ([first] + Continuations(more)) == lines + ([first] + Continuations(front)) + [" " + last];
      UnfoldLast(lines + ([first] + Continuations(front)), " " + last);
      assert (" " + last)[1..] == last;
      assert first + Concat(front) + last == first + Concat(more);
    }
  }

  /** Folding a line anywhere and putting comments between lines makes no difference. */
  lemma {:induction false} UnfoldIs(ws: seq<Written>)
    requires Foldable(ws)
    ensures Unfold(Physical(ws)) == Logical(ws)
  {
    if ws != [] {
      var front, w := ws[..|ws| - 1], ws[|ws| - 1];
      UnfoldIs(front);
      match w {
        case Folded(first, more) =>
          assert w in ws;
          UnfoldLast(Physical(front), first);
          hide Unfold;
          ContinuationsJoin(Physical(front), first, more);
        case Comment(text) =>
          UnfoldLast(Physical(front), "#" + text);
          assert ("#" + text)[..1] == "#";
          assert Logical(front) + [] == Logical(front);
      }
    }
  }

  // ----- what is not an entry -----

  /** A line whose name before the first colon, if it has one, is not that of a DN */
  predicate NoDn(line: string) {
    match Find(line, ':')
    case None => true
    case Some(i) => Lower(Strip(line[..i])) != "dn"
  }

  lemma {:induction false} NoDnInBlock(lines: seq<string>, replace: Replacement)
    requires forall l :: l in lines ==> NoDn(l)
    ensures BlockOf(lines, replace).dn.None?
  {
    if lines != [] {
      assert lines[|lines| - 1] in lines;
      NoDnInBlock(lines[..|lines| - 1], replace);
      hide BlockOf, Lower, Strip, ValueOf;
    }
  }

  /** Lines without a DN are not an entry, such as the trailer of `ldapsearch`. */
  lemma BlockWithoutDn(lines: seq<string>, rest: seq<string>, replace: Replacement)
    requires forall l :: l in lines ==> GoodLine(l) && NoDn(l)
    ensures ParseLines(lines + [""] + rest, [], replace) == ParseLines(rest, [], replace)
  {
    hide BlockOf, ParseLines, GoodLine, NoDn;
    BlockEnds(lines, [], rest, replace);
    NoDnInBlock(lines, replace);
    assert [] + lines == lines;
    assert [] + ParseLines(rest, [], replace) == ParseLines(rest, [], replace);
  }

  /** A `version` line says nothing about an entry, a line without a colon neither, and only the first DN is one. */
  lemma OtherLines(b: Block, name: string, rest: string, replace: Replacement)
    requires Trimmed(name) && forall i :: 0 <= i < |name| ==> name[i] != ':'
    ensures WithLine(b, name, replace) == b
    ensures Lower(name) == "version" ==> WithLine(b, name + [':'] + rest, replace) == b
    ensures Lower(name) == "dn" && b.dn.Some? ==>
              WithLine(b, name + [':'] + rest, replace) == b.(attrs := Added(b.attrs, name, ValueOf(rest, replace)))
  {
    StripSpace(name);
    hide ValueOf, Strip, Trimmed, Added;
    FindFirst(name, ':', rest);
    var line := name + [':'] + rest;
    assert line[..|name|] == name && line[|name| + 1..] == rest;
  }

  // ----- a whole text -----

  /** Reading a text that holds rendered entries, its lines folded and commented in any way, before blocks of
      lines that are no entries: the entries come back. */
  lemma FoldedIsParsed(es: seq<Source>, trailer: seq<string>, ws: seq<Written>, replace: Replacement)
    requires forall e :: e in es ==> Legal(e)
    requires forall l :: l in trailer ==> GoodLine(l) && NoDn(l)
    requires Foldable(ws) && Logical(ws) == AllLines(es) + (trailer + [""])
    requires forall l :: l in Physical(ws) ==> SingleLine(l)
    ensures Parsed(Joined(Physical(ws)), replace) == Entries(es)
  {
    hide Legal, GoodLine, NoDn, Unfold, ParseLines, EntriesOf;
    SplitJoined(Physical(ws));
    UnfoldIs(ws);
    TrailerIsIgnored(es, trailer, replace);
  }

  lemma {:induction false} TrailerIsIgnored(es: seq<Source>, trailer: seq<string>, replace: Replacement)
    requires forall e :: e in es ==> Legal(e)
    requires forall l :: l in trailer ==> GoodLine(l) && NoDn(l)
    ensures ParseLines(AllLines(es) + (trailer + [""]), [], replace) == Entries(es)
  {
    hide GoodLine, NoDn, ParseLines, EntriesOf, Legal;
    if es == [] {
      BlockWithoutDn(trailer, [], replace);
      assert AllLines(es) + (trailer + [""]) == trailer + [""] + [];
      NothingParsed(replace);
    } else {
      var e := es[0];
      assert e in es;
      var lines, rest := EntryLines(e.0, e.1), AllLines(es[1..]) + (trailer + [""]);
      TrailerIsIgnored(es[1..], trailer, replace);
      EntryIsGood(e.0, e.1);
      EntryIsRead(e.0, e.1, replace);
      BlockEnds(lines, [], rest, replace);
      assert AllLines(es) + (trailer + [""]) == lines + [""] + rest;
      assert [] + lines == lines;
      OneEntry(lines, e, replace);
    }
  }

  lemma OneEntry(lines: seq<string>, e: Source, replace: Replacement)
    requires lines != [] && BlockOf(lines, replace) == Block(Some(e.0), Grouped(e.1))
    ensures EntriesOf(lines, replace) == [Entry(e.0, Grouped(e.1))]
  {
  }

  lemma NothingParsed(replace: Replacement)
    ensures ParseLines([], [], replace) == []
  {
  }
}
