/**
 LDIF text: `render_entry_ldif` writes it, `parse_ldif` reads it.
 */
module Ldif {
  import opened Wrappers
  import opened Bytes
  import opened Dicts
  import opened Texts
  import Utf8
  import Base64

  datatype Entry = Entry(dn: string, attrs: Dict<string, seq<string>>)

  /** What Python puts in place of bytes that are not UTF-8 */
  type Replacement = Bytes -> string

  // ----- _unfold -----

  function Unfold(raws: seq<string>): seq<string> {
    if raws == [] then []
    else
      var lines, raw := Unfold(raws[..|raws| - 1]), raws[|raws| - 1];
      if StartsWith(raw, " ") && lines != [] then
        lines[..|lines| - 1] + [lines[|lines| - 1] + raw[1..]]
      else if StartsWith(raw, "#") then lines
      else lines + [raw]
  }

  method UnfoldLines(text: string) returns (lines: seq<string>)
    ensures lines == Unfold(SplitLines(text))
  {
    var raws := SplitLines(text);
    lines := [];
    for i := 0 to |raws|
      invariant lines == Unfold(raws[..i])
    {
      assert raws[..i + 1][..i] == raws[..i];
      var raw := raws[i];
      if StartsWith(raw, " ") && lines != [] {
        lines := lines[|lines| - 1 := lines[|lines| - 1] + raw[1..]];
      } else if !StartsWith(raw, "#") {
        lines := lines + [raw];
      }
    }
    assert raws[..|raws|] == raws;
  }

  // ----- parse_ldif -----

  /** The part of a line after its first colon */
  function ValueOf(rest: string, replace: Replacement): string {
    if StartsWith(rest, ":") then
      var raw := Strip(rest[1..]);
      match Base64.Decode(raw)
      case None => raw
      case Some(b) =>
        match Utf8.Decode(b)
        case None => replace(b)
        case Some(s) => s
    else Strip(rest)
  }

  datatype Block = Block(dn: Option<string>, attrs: Dict<string, seq<string>>)

  function Added(attrs: Dict<string, seq<string>>, name: string, value: string): Dict<string, seq<string>> {
    attrs.Put(name, attrs.GetOr(name, []) + [value])
  }

  function WithLine(b: Block, line: string, replace: Replacement): Block {
    match Find(line, ':')
    case None => b
    case Some(i) =>
      var name, value := Strip(line[..i]), ValueOf(line[i + 1..], replace);
      if Lower(name) == "dn" && b.dn.None? then b.(dn := Some(value))
      else if Lower(name) == "version" then b
      else b.(attrs := Added(b.attrs, name, value))
  }

  function BlockOf(lines: seq<string>, replace: Replacement): Block {
    if lines == [] then Block(None, EmptyDict())
    else WithLine(BlockOf(lines[..|lines| - 1], replace), lines[|lines| - 1], replace)
  }

  /** The entry of a block, if it has a DN */
  function EntriesOf(block: seq<string>, replace: Replacement): seq<Entry> {
    var b := BlockOf(block, replace);
    if block == [] || b.dn.None? then [] else [Entry(b.dn.value, b.attrs)]
  }

  function ParseLines(lines: seq<string>, block: seq<string>, replace: Replacement): seq<Entry> {
    if lines == [] then EntriesOf(block, replace)
    else if Strip(lines[0]) == "" then EntriesOf(block, replace) + ParseLines(lines[1..], [], replace)
    else ParseLines(lines[1..], block + [lines[0]], replace)
  }

  function Parsed(text: string, replace: Replacement): seq<Entry> {
    ParseLines(Unfold(SplitLines(text)), [], replace)
  }

  method Flush(block: seq<string>, replace: Replacement) returns (r: seq<Entry>)
    ensures r == EntriesOf(block, replace)
  {
    if block == [] {
      return [];
    }
    var dn: Option<string> := None;
    var attrs: Dict<string, seq<string>> := EmptyDict();
    for k := 0 to |block|
      invariant BlockOf(block[..k], replace) == Block(dn, attrs)
    {
      assert block[..k + 1][..k] == block[..k];
      var i := Find(block[k], ':');
      if i.Some? {
        var name, value := Strip(block[k][..i.value]), ValueOf(block[k][i.value + 1..], replace);
        if Lower(name) == "dn" && dn.None? {
          dn := Some(value);
        } else if Lower(name) != "version" {
          attrs := attrs.Put(name, attrs.GetOr(name, []) + [value]);
        }
      }
    }
    assert block[..|block|] == block;
    r := if dn.Some? then [Entry(dn.value, attrs)] else [];
  }

  method ParseLdif(text: string, replace: Replacement) returns (entries: seq<Entry>)
    ensures entries == Parsed(text, replace)
  {
    hide EntriesOf;
    entries := [];
    var block: seq<string> := [];
    var lines := UnfoldLines(text);
    assert lines[0..] == lines;
    for i := 0 to |lines|
      invariant entries + ParseLines(lines[i..], block, replace) == Parsed(text, replace)
    {
      assert lines[i..][1..] == lines[i + 1..];
      if Strip(lines[i]) == "" {
        var more := Flush(block, replace);
        entries := entries + more;
        block := [];
      } else {
        block := block + [lines[i]];
      }
    }
    var more := Flush(block, replace);
    entries := entries + more;
  }

  // ----- render_entry_ldif -----

  predicate Printable(c: char) {
    ' ' <= c <= '~'
  }

  /** A value that may be written as it is */
  predicate Plain(value: string) {
    && (forall i :: 0 <= i < |value| ==> Printable(value[i]))
    && (value == "" || (value[0] !in " :<" && value[|value| - 1] != ' '))
  }

  /** `_ldif_value` */
  function LdifLine(name: string, value: string): string {
    if Plain(value) then name + ": " + value
    else name + ":: " + Base64.Encode(Utf8.Encode(value))
  }

  datatype Attribute = Attribute(name: string, values: seq<string>)

  function AttributeLines(a: Attribute, k: nat): seq<string>
    requires k <= |a.values|
  {
    if k == 0 then [] else AttributeLines(a, k - 1) + [LdifLine(a.name, a.values[k - 1])]
  }

  function EntryLines(dn: string, attrs: seq<Attribute>): seq<string> {
    if attrs == [] then ["dn: " + dn]
    else
      var last := attrs[|attrs| - 1];
      EntryLines(dn, attrs[..|attrs| - 1]) + AttributeLines(last, |last.values|)
  }

  method RenderEntryLdif(dn: string, attrs: seq<Attribute>) returns (text: string)
    ensures text == Joined(EntryLines(dn, attrs) + [""])
  {
    var lines := ["dn: " + dn];
    for i := 0 to |attrs|
      invariant lines == EntryLines(dn, attrs[..i]) && lines != []
    {
      assert attrs[..i + 1][..i] == attrs[..i];
      ghost var before := lines;
      for k := 0 to |attrs[i].values|
        invariant lines == before + AttributeLines(attrs[i], k)
      {
        lines := lines + [LdifLine(attrs[i].name, attrs[i].values[k])];
      }
    }
    assert attrs[..|attrs|] == attrs;
    text := JoinWith(lines) + "\n\n";
    JoinedBlank(lines);
  }

  /** `"\n".join(lines)` */
  function JoinWith(lines: seq<string>): string {
    if lines == [] then "" else if |lines| == 1 then lines[0] else lines[0] + "\n" + JoinWith(lines[1..])
  }

  lemma {:induction false} JoinedBlank(lines: seq<string>)
    requires lines != []
    ensures Joined(lines + [""]) == JoinWith(lines) + "\n\n"
  {
    if |lines| == 1 {
      assert (lines + [""])[1..] == [""];
      assert Joined([""]) == "\n" by {
        assert Joined([""][1..]) == "";
      }
      assert lines[0] + "\n" + "\n" == lines[0] + "\n\n";
    } else {
      JoinedBlank(lines[1..]);
      assert (lines + [""])[1..] == lines[1..] + [""];
    }
  }
}
