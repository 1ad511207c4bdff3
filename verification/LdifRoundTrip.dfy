/**
 Rendered entries are parsed back, whatever Unicode text their values hold.
 */
module LdifRoundTrip {
  import opened Wrappers
  import opened Dicts
  import opened Texts
  import opened Ldif
  import Utf8
  import Base64

  /** An attribute name that stands at the start of a line and is not a keyword of the format */
  predicate LegalName(name: string) {
    && name != "" && Trimmed(name) && SingleLine(name) && name[0] != '#'
    && (forall i :: 0 <= i < |name| ==> name[i] != ':')
    && Lower(name) != "dn" && Lower(name) != "version"
  }

  predicate LegalDn(dn: string) {
    Trimmed(dn) && SingleLine(dn)
  }

  // ----- one line -----

  lemma {:induction false} PlainIsTrimmed(value: string)
    requires Plain(value)
    ensures Trimmed(value) && SingleLine(value)
  {
  }

  lemma EncodedIsTrimmed(value: string)
    ensures var s := Base64.Encode(Utf8.Encode(value)); Trimmed(s) && SingleLine(s)
  {
    Base64.EncodedIsPlain(Utf8.Encode(value));
  }

  lemma ValueIsRead(value: string, replace: Replacement)
    ensures Plain(value) ==> ValueOf(" " + value, replace) == value
    ensures ValueOf(": " + Base64.Encode(Utf8.Encode(value)), replace) == value
  {
    if Plain(value) {
      PlainIsTrimmed(value);
      StripSpace(value);
    }
    EncodedIsTrimmed(value);
    var s := Base64.Encode(Utf8.Encode(value));
    StripSpace(s);
    Base64.DecodeEncoded(Utf8.Encode(value));
    Utf8.DecodeEncoded(value);
    hide Base64.Encode, Base64.Decode, Utf8.Encode, Utf8.Decode, Strip;
    var rest := ": " + s;
    assert rest[1..] == " " + s;
  }

  /** The line of a value is read back as its name and the value, written plain or in base64. */
  lemma LineIsRead(b: Block, name: string, value: string, replace: Replacement)
    requires LegalName(name)
    ensures WithLine(b, LdifLine(name, value), replace) == b.(attrs := Added(b.attrs, name, value))
  {
    ValueIsRead(value, replace);
    hide Base64.Encode, Utf8.Encode, ValueOf, Plain, LegalName, WithLine, Added;
    if Plain(value) {
      assert LdifLine(name, value) == name + [':'] + (" " + value);
      PartsAreRead(b, name, " " + value, value, replace);
    } else {
      var rest := ": " + Base64.Encode(Utf8.Encode(value));
      assert LdifLine(name, value) == name + [':'] + rest;
      PartsAreRead(b, name, rest, value, replace);
    }
  }

  lemma PartsAreRead(b: Block, name: string, rest: string, value: string, replace: Replacement)
    requires LegalName(name) && ValueOf(rest, replace) == value
    ensures WithLine(b, name + [':'] + rest, replace) == b.(attrs := Added(b.attrs, name, value))
  {
    StripSpace(name);
    hide ValueOf, Strip, Trimmed, SingleLine, Added;
    FindFirst(name, ':', rest);
    var line := name + [':'] + rest;
    assert line[..|name|] == name && line[|name| + 1..] == rest;
  }

  lemma DnIsRead(dn: string, replace: Replacement)
    requires LegalDn(dn)
    ensures WithLine(Block(None, EmptyDict()), "dn: " + dn, replace) == Block(Some(dn), EmptyDict())
  {
    StripSpace(dn);
    StripSpace("dn");
    hide Strip, Trimmed, SingleLine;
    var line := "dn" + [':'] + (" " + dn);
    assert "dn: " + dn == line;
    FindFirst("dn", ':', " " + dn);
    assert line[..2] == "dn" && line[3..] == " " + dn;
    assert Lower("dn") == "dn";
    assert !StartsWith(" " + dn, ":");
  }

  /** Every line starts like a line of its own, holds no line break, and is not blank. */
  predicate GoodLine(line: string) {
    line != "" && !IsSpace(line[0]) && line[0] != '#' && SingleLine(line)
  }

  lemma LineIsGood(name: string, value: string)
    requires LegalName(name)
    ensures GoodLine(LdifLine(name, value))
  {
    if Plain(value) {
      PlainIsTrimmed(value);
    }
    EncodedIsTrimmed(value);
    hide Base64.Encode, Utf8.Encode, Plain, Lower;
    var s := if Plain(value) then value else Base64.Encode(Utf8.Encode(value));
    var sep := if Plain(value) then ": " else ":: ";
    assert LdifLine(name, value) == name + sep + s;
    assert SingleLine(sep);
    assert (name + sep + s)[0] == name[0];
    SingleLineAppend(name, sep);
    SingleLineAppend(name + sep, s);
  }

  lemma SingleLineAppend(a: string, b: string)
    requires SingleLine(a) && SingleLine(b)
    ensures SingleLine(a + b)
  {
  }

  lemma {:induction false} GoodIsNotBlank(line: string)
    requires line != "" && !IsSpace(line[0])
    ensures Strip(line) != ""
    decreases |line|
  {
    hide IsSpace;
    if IsSpace(line[|line| - 1]) {
      GoodIsNotBlank(line[..|line| - 1]);
    }
  }

  // ----- one entry -----

  /** The values in the order of their attributes */
  function Grouped(attrs: seq<Attribute>): Dict<string, seq<string>> {
    if attrs == [] then EmptyDict()
    else
      var last := attrs[|attrs| - 1];
      GroupedValues(Grouped(attrs[..|attrs| - 1]), last, |last.values|)
  }

  function GroupedValues(d: Dict<string, seq<string>>, a: Attribute, k: nat): Dict<string, seq<string>>
    requires k <= |a.values|
  {
    if k == 0 then d else Added(GroupedValues(d, a, k - 1), a.name, a.values[k - 1])
  }

  ghost predicate Legal(e: (string, seq<Attribute>)) {
    LegalDn(e.0) && forall a :: a in e.1 ==> LegalName(a.name)
  }

  lemma BlockAppend(lines: seq<string>, line: string, replace: Replacement)
    ensures BlockOf(lines + [line], replace) == WithLine(BlockOf(lines, replace), line, replace)
  {
    assert (lines + [line])[..|lines|] == lines;
  }

  lemma {:induction false} AttributeIsRead(before: seq<string>, dn: string, d: Dict<string, seq<string>>, a: Attribute, k: nat,
                                           replace: Replacement)
    requires LegalName(a.name) && k <= |a.values| && BlockOf(before, replace) == Block(Some(dn), d)
    ensures BlockOf(before + AttributeLines(a, k), replace) == Block(Some(dn), GroupedValues(d, a, k))
  {
    hide WithLine, LdifLine, LegalName, BlockOf, Added;
    if k == 0 {
      assert before + [] == before;
    } else {
      AttributeIsRead(before, dn, d, a, k - 1, replace);
      LineIsRead(Block(Some(dn), GroupedValues(d, a, k - 1)), a.name, a.values[k - 1], replace);
      BlockAppend(before + AttributeLines(a, k - 1), LdifLine(a.name, a.values[k - 1]), replace);
      assert before + AttributeLines(a, k) == before + AttributeLines(a, k - 1) + [LdifLine(a.name, a.values[k - 1])];
    }
  }

  lemma {:induction false} EntryIsRead(dn: string, attrs: seq<Attribute>, replace: Replacement)
    requires Legal((dn, attrs))
    ensures BlockOf(EntryLines(dn, attrs), replace) == Block(Some(dn), Grouped(attrs))
  {
    if attrs == [] {
      DnIsRead(dn, replace);
      hide WithLine;
      BlockAppend([], "dn: " + dn, replace);
      assert [] + ["dn: " + dn] == ["dn: " + dn];
    } else {
      var front, last := attrs[..|attrs| - 1], attrs[|attrs| - 1];
      EntryIsRead(dn, front, replace);
      assert last in attrs;
      AttributeIsRead(EntryLines(dn, front), dn, Grouped(front), last, |last.values|, replace);
    }
  }

  lemma {:induction false} AttributeIsGood(a: Attribute, k: nat)
    requires LegalName(a.name) && k <= |a.values|
    ensures forall l :: l in AttributeLines(a, k) ==> GoodLine(l)
  {
    if k > 0 {
      AttributeIsGood(a, k - 1);
      LineIsGood(a.name, a.values[k - 1]);
    }
  }

  lemma {:induction false} EntryIsGood(dn: string, attrs: seq<Attribute>)
    requires Legal((dn, attrs))
    ensures forall l :: l in EntryLines(dn, attrs) ==> GoodLine(l)
    ensures EntryLines(dn, attrs) != []
  {
    if attrs == [] {
      assert SingleLine("dn: ");
      SingleLineAppend("dn: ", dn);
    } else {
      EntryIsGood(dn, attrs[..|attrs| - 1]);
      assert attrs[|attrs| - 1] in attrs;
      AttributeIsGood(attrs[|attrs| - 1], |attrs[|attrs| - 1].values|);
    }
  }

  // ----- a whole text -----

  type Source = (string, seq<Attribute>)

  /** The lines of several entries, each with the blank line after it */
  function AllLines(es: seq<Source>): seq<string> {
    if es == [] then [] else EntryLines(es[0].0, es[0].1) + [""] + AllLines(es[1..])
  }

  /** The texts of `render_entry_ldif`, one after the other */
  function Rendered(es: seq<Source>): string {
    if es == [] then "" else Joined(EntryLines(es[0].0, es[0].1) + [""]) + Rendered(es[1..])
  }

  function Entries(es: seq<Source>): seq<Entry> {
    if es == [] then [] else [Entry(es[0].0, Grouped(es[0].1))] + Entries(es[1..])
  }

  lemma {:induction false} RenderedLines(es: seq<Source>)
    ensures Rendered(es) == Joined(AllLines(es))
  {
    if es != [] {
      RenderedLines(es[1..]);
      JoinedAppend(EntryLines(es[0].0, es[0].1) + [""], AllLines(es[1..]));
    }
  }

  lemma {:induction false} BlockEnds(lines: seq<string>, block: seq<string>, rest: seq<string>, replace: Replacement)
    requires forall l :: l in lines ==> GoodLine(l)
    ensures ParseLines(lines + [""] + rest, block, replace) == EntriesOf(block + lines, replace) + ParseLines(rest, [], replace)
    decreases |lines|
  {
    hide EntriesOf;
    var all := lines + [""] + rest;
    if lines == [] {
      assert all[0] == "" && all[1..] == rest && block + lines == block;
    } else {
      assert all[0] == lines[0] && all[1..] == lines[1..] + [""] + rest;
      assert lines[0] in lines;
      GoodIsNotBlank(lines[0]);
      BlockEnds(lines[1..], block + [lines[0]], rest, replace);
      assert block + [lines[0]] + lines[1..] == block + lines;
    }
  }

  lemma {:induction false} ParseAll(es: seq<Source>, replace: Replacement)
    requires forall e :: e in es ==> Legal(e)
    ensures ParseLines(AllLines(es), [], replace) == Entries(es)
    ensures forall l :: l in AllLines(es) ==> l == "" || GoodLine(l)
  {
    if es == [] {
      assert EntriesOf([], replace) == [];
    } else {
      var e := es[0];
      assert e in es;
      var lines := EntryLines(e.0, e.1);
      ParseAll(es[1..], replace);
      EntryIsGood(e.0, e.1);
      EntryIsRead(e.0, e.1, replace);
      BlockEnds(lines, [], AllLines(es[1..]), replace);
      assert [] + lines == lines;
    }
  }

  lemma GoodStart(line: string)
    requires line == "" || GoodLine(line)
    ensures !StartsWith(line, " ") && !StartsWith(line, "#")
  {
    if line != "" {
      assert line[..1] == [line[0]];
    }
  }

  lemma {:induction false} UnfoldGood(lines: seq<string>)
    requires forall l :: l in lines ==> l == "" || GoodLine(l)
    ensures Unfold(lines) == lines
  {
    if lines != [] {
      var front, last := lines[..|lines| - 1], lines[|lines| - 1];
      UnfoldGood(front);
      assert last in lines;
      GoodStart(last);
      hide StartsWith, GoodLine;
      assert lines == front + [last];
    }
  }

  /** Parsing the concatenation of rendered entries gives these entries, with their values grouped by
      attribute name in order. */
  lemma ParseRendered(es: seq<Source>, replace: Replacement)
    requires forall e :: e in es ==> Legal(e)
    ensures Parsed(Rendered(es), replace) == Entries(es)
  {
    hide Legal;
    ParseAll(es, replace);
    RenderedLines(es);
    var lines := AllLines(es);
    forall l | l in lines
      ensures SingleLine(l)
    {
      assert l == "" || GoodLine(l);
    }
    SplitJoined(lines);
    UnfoldGood(lines);
  }

  // ----- what grouping means -----

  /** The values given for a name, in order */
  function ValuesFor(attrs: seq<Attribute>, name: string): seq<string> {
    if attrs == [] then []
    else
      var last := attrs[|attrs| - 1];
      ValuesFor(attrs[..|attrs| - 1], name) + (if last.name == name then last.values else [])
  }

  lemma {:induction false} GroupedValuesAre(d: Dict<string, seq<string>>, a: Attribute, k: nat, name: string)
    requires d.Valid() && k <= |a.values|
    ensures GroupedValues(d, a, k).Valid()
    ensures GroupedValues(d, a, k).GetOr(name, []) == d.GetOr(name, []) + (if a.name == name then a.values[..k] else [])
    ensures name in GroupedValues(d, a, k).vals <==> name in d.vals || (a.name == name && k > 0)
  {
    hide Added, Dict.Valid, Dict.GetOr;
    if k > 0 {
      GroupedValuesAre(d, a, k - 1, name);
      AddedIs(GroupedValues(d, a, k - 1), a.name, a.values[k - 1], name);
      assert a.values[..k] == a.values[..k - 1] + [a.values[k - 1]];
    }
  }

  lemma AddedIs(d: Dict<string, seq<string>>, name: string, value: string, other: string)
    requires d.Valid()
    ensures Added(d, name, value).Valid()
    ensures Added(d, name, value).GetOr(other, []) == d.GetOr(other, []) + (if name == other then [value] else [])
    ensures other in Added(d, name, value).vals <==> other in d.vals || name == other
  {
    PutKeepsValid(d, name, d.GetOr(name, []) + [value]);
  }

  /** Each name of the parsed entry has exactly the values given for it. */
  lemma {:induction false} GroupedIs(attrs: seq<Attribute>, name: string)
    ensures Grouped(attrs).Valid()
    ensures Grouped(attrs).GetOr(name, []) == ValuesFor(attrs, name)
    ensures name in Grouped(attrs).vals <==> ValuesFor(attrs, name) != []
  {
    if attrs != [] {
      var last := attrs[|attrs| - 1];
      GroupedIs(attrs[..|attrs| - 1], name);
      GroupedValuesAre(Grouped(attrs[..|attrs| - 1]), last, |last.values|, name);
      assert last.values[..|last.values|] == last.values;
    }
  }
}
