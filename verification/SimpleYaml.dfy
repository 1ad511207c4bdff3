/**
 The parser of indented text that reads `stubby.yml`: five functions that call each other, each moving
 forward or handing the same lines to a simpler one.
 */
module SimpleYaml {
  import opened Wrappers
  import opened Texts

  datatype Line = Line(indent: nat, content: string)

  datatype Yaml = Null | Text(text: string) | Number(value: int) | Truth(flag: bool)
                | Items(items: seq<Yaml>) | Entries(entries: map<string, Yaml>)

  // ----- scalars -----

  predicate IsInteger(s: string) {
    if StartsWith(s, "-") then IsDigits(s[1..]) else IsDigits(s)
  }

  function IntegerOf(s: string): int {
    if StartsWith(s, "-") then 0 - (Decimal(s[1..]) as int) else Decimal(s)
  }

  predicate Quoted(s: string) {
    |s| >= 2 && (s[0] == '"' || s[0] == '\'') && s[|s| - 1] == s[0]
  }

  /** `_yaml_scalar` */
  function Scalar(value: string): Yaml {
    var s := Strip(value);
    if s == "" then Null
    else if Quoted(s) then Text(s[1..|s| - 1])
    else if IsInteger(s) then Number(IntegerOf(s))
    else if Lower(s) in {"true", "yes", "on"} then Truth(true)
    else if Lower(s) in {"false", "no", "off"} then Truth(false)
    else Text(s)
  }

  // ----- lines -----

  /** The part of a line before its comment; quotes are respected. */
  function Uncommented(raw: string, i: nat, quote: Option<char>): string
    requires i <= |raw|
    decreases |raw| - i
  {
    if i == |raw| then ""
    else if quote.Some? then [raw[i]] + Uncommented(raw, i + 1, if raw[i] == quote.value then None else quote)
    else if raw[i] == '"' || raw[i] == '\'' then [raw[i]] + Uncommented(raw, i + 1, Some(raw[i]))
    else if raw[i] == '#' && (i == 0 || IsSpace(raw[i - 1])) then ""
    else [raw[i]] + Uncommented(raw, i + 1, None)
  }

  /** `_yaml_strip_comment`, without the final strip of white space that the caller repeats */
  function WithoutComment(raw: string): string {
    if StartsWith(StripLeft(raw), "#") then "" else Uncommented(raw, 0, None)
  }

  function StripLeft(s: string): string {
    if s != "" && IsSpace(s[0]) then StripLeft(s[1..]) else s
  }

  function Indent(raw: string): nat {
    if raw != "" && raw[0] == ' ' then 1 + Indent(raw[1..]) else 0
  }

  function LinesOf(raws: seq<string>): seq<Line> {
    if raws == [] then []
    else
      var raw := raws[|raws| - 1];
      var content := Strip(WithoutComment(raw));
      LinesOf(raws[..|raws| - 1]) + (if content == "" then [] else [Line(Indent(raw), content)])
  }

  predicate IsItem(l: Line) {
    StartsWith(l.content, "- ")
  }

  function ItemText(l: Line): string {
    if IsItem(l) then Strip(l.content[2..]) else ""
  }

  predicate Letter(c: char) {
    'A' <= c <= 'Z' || 'a' <= c <= 'z' || c == '_'
  }

  predicate WordChar(c: char) {
    Letter(c) || '0' <= c <= '9' || c == '.' || c == '-'
  }

  /** The first place from `i` on without a character of the kind */
  function Past(s: string, i: nat, kind: char -> bool): (j: nat)
    requires i <= |s|
    ensures i <= j <= |s|
    decreases |s| - i
  {
    if i < |s| && kind(s[i]) then Past(s, i + 1, kind) else i
  }

  /** A word, a colon, then white space or the end */
  predicate IsKey(s: string) {
    && s != "" && Letter(s[0])
    && var colon := Past(s, Past(s, 0, WordChar), IsSpace);
    && colon < |s| && s[colon] == ':' && (colon + 1 == |s| || IsSpace(s[colon + 1]))
  }

  function KeyName(s: string): string {
    match Find(s, ':') case Some(i) => Strip(s[..i]) case None => ""
  }

  function ValueText(s: string): string {
    match Find(s, ':') case Some(i) => s[i + 1..] case None => ""
  }

  // ----- the parser, on the lines left -----

  function AfterKey(ls: seq<Line>, parent: int): (r: (Yaml, seq<Line>))
    ensures |r.1| <= |ls|
    decreases |ls|, 3
  {
    if ls != [] && (ls[0].indent > parent || (ls[0].indent == parent && IsItem(ls[0])))
    then Block(ls, ls[0].indent) else (Null, ls)
  }

  function Block(ls: seq<Line>, indent: int): (r: (Yaml, seq<Line>))
    ensures |r.1| <= |ls|
    decreases |ls|, 2
  {
    if ls != [] && IsItem(ls[0]) then
      var (items, rest) := Sequence(ls, indent, []);
      (Items(items), rest)
    else
      var (entries, rest) := Mapping(ls, indent, map[]);
      (Entries(entries), rest)
  }

  function Sequence(ls: seq<Line>, indent: int, before: seq<Yaml>): (r: (seq<Yaml>, seq<Line>))
    ensures |r.1| <= |ls|
    decreases |ls|, 1
  {
    if ls == [] || ls[0].indent != indent || !IsItem(ls[0]) then (before, ls)
    else if IsKey(ItemText(ls[0])) then
      var (entries, rest) := MappingFromItem(ls, indent, ItemText(ls[0]));
      Sequence(rest, indent, before + [Entries(entries)])
    else Sequence(ls[1..], indent, before + [Scalar(ItemText(ls[0]))])
  }

  function MappingFromItem(ls: seq<Line>, indent: int, item: string): (r: (map<string, Yaml>, seq<Line>))
    requires ls != []
    ensures |r.1| < |ls|
    decreases |ls|, 0
  {
    if Strip(ValueText(item)) != "" then
      var (more, rest) := Mapping(ls[1..], indent + 2, map[]);
      (map[KeyName(item) := Scalar(ValueText(item))] + more, rest)
    else
      var (value, left) := AfterKey(ls[1..], indent + 2);
      var (more, rest) := Mapping(left, indent + 2, map[]);
      (map[KeyName(item) := value] + more, rest)
  }

  function Mapping(ls: seq<Line>, indent: int, before: map<string, Yaml>): (r: (map<string, Yaml>, seq<Line>))
    ensures |r.1| <= |ls|
    decreases |ls|, 1
  {
    if ls == [] || ls[0].indent < indent then (before, ls)
    else if ls[0].indent == indent && IsItem(ls[0]) then (before, ls)
    else if ls[0].indent != indent || !IsKey(ls[0].content) then Mapping(ls[1..], indent, before)
    else
      var key, value := KeyName(ls[0].content), ValueText(ls[0].content);
      if Strip(value) != "" then Mapping(ls[1..], indent, before[key := Scalar(value)])
      else
        var (nested, rest) := AfterKey(ls[1..], indent);
        Mapping(rest, indent, before[key := nested])
  }

  /** `parse_simple_yaml` */
  function Parsed(text: string): Yaml {
    var ls := LinesOf(SplitLines(text));
    if ls == [] then Entries(map[]) else Block(ls, ls[0].indent).0
  }

  // ----- the same with an index, as the program does -----

  method ParseValueAfterKey(lines: seq<Line>, index: nat, parent: int) returns (value: Yaml, next: nat)
    requires index <= |lines|
    ensures index <= next <= |lines| && (value, lines[next..]) == AfterKey(lines[index..], parent)
    decreases |lines| - index, 3
  {
    if index < |lines| && (lines[index].indent > parent || (lines[index].indent == parent && IsItem(lines[index]))) {
      value, next := ParseBlock(lines, index, lines[index].indent);
    } else {
      value, next := Null, index;
    }
  }

  method ParseBlock(lines: seq<Line>, index: nat, indent: int) returns (value: Yaml, next: nat)
    requires index <= |lines|
    ensures index <= next <= |lines| && (value, lines[next..]) == Block(lines[index..], indent)
    decreases |lines| - index, 2
  {
    if index < |lines| && IsItem(lines[index]) {
      var items;
      items, next := ParseSequence(lines, index, indent);
      value := Items(items);
    } else {
      var entries;
      entries, next := ParseMapping(lines, index, indent);
      value := Entries(entries);
    }
  }

  method ParseSequence(lines: seq<Line>, index: nat, indent: int) returns (items: seq<Yaml>, next: nat)
    requires index <= |lines|
    ensures index <= next <= |lines| && (items, lines[next..]) == Sequence(lines[index..], indent, [])
    decreases |lines| - index, 1
  {
    hide IsKey, Scalar, MappingFromItem, IsItem;
    items, next := [], index;
    while next < |lines| && lines[next].indent == indent && IsItem(lines[next])
      invariant index <= next <= |lines|
      invariant Sequence(lines[next..], indent, items) == Sequence(lines[index..], indent, [])
      decreases |lines| - next
    {
      var item := ItemText(lines[next]);
      assert lines[next..][1..] == lines[next + 1..];
      if IsKey(item) {
        var entries;
        entries, next := ParseMappingFromItem(lines, next, indent, item);
        items := items + [Entries(entries)];
      } else {
        items := items + [Scalar(item)];
        next := next + 1;
      }
    }
  }

  method ParseMappingFromItem(lines: seq<Line>, index: nat, indent: int, item: string)
    returns (entries: map<string, Yaml>, next: nat)
    requires index < |lines|
    ensures index < next <= |lines| && (entries, lines[next..]) == MappingFromItem(lines[index..], indent, item)
    decreases |lines| - index, 0
  {
    assert lines[index..][1..] == lines[index + 1..];
    var key, text := KeyName(item), ValueText(item);
    next := index + 1;
    if Strip(text) != "" {
      entries := map[key := Scalar(text)];
    } else {
      var value;
      value, next := ParseValueAfterKey(lines, next, indent + 2);
      entries := map[key := value];
    }
    var rest;
    rest, next := ParseMapping(lines, next, indent + 2);
    entries := entries + rest;
  }

  method ParseMapping(lines: seq<Line>, index: nat, indent: int) returns (entries: map<string, Yaml>, next: nat)
    requires index <= |lines|
    ensures index <= next <= |lines| && (entries, lines[next..]) == Mapping(lines[index..], indent, map[])
    decreases |lines| - index, 1
  {
    entries, next := map[], index;
    while next < |lines| && lines[next].indent >= indent
      invariant index <= next <= |lines|
      invariant Mapping(lines[next..], indent, entries) == Mapping(lines[index..], indent, map[])
      decreases |lines| - next
    {
      var l := lines[next];
      assert lines[next..][1..] == lines[next + 1..];
      if l.indent != indent || IsItem(l) || !IsKey(l.content) {
        if l.indent == indent && IsItem(l) {
          break;
        }
        next := next + 1;
      } else {
        var key, text := KeyName(l.content), ValueText(l.content);
        next := next + 1;
        if Strip(text) != "" {
          entries := entries[key := Scalar(text)];
        } else {
          var value;
          value, next := ParseValueAfterKey(lines, next, indent);
          entries := entries[key := value];
        }
      }
    }
  }

  method ParseSimpleYaml(text: string) returns (value: Yaml)
    ensures value == Parsed(text)
  {
    var raws := SplitLines(text);
    var lines: seq<Line> := [];
    for i := 0 to |raws|
      invariant lines == LinesOf(raws[..i])
    {
      assert raws[..i + 1][..i] == raws[..i];
      var content := Strip(WithoutComment(raws[i]));
      if content != "" {
        lines := lines + [Line(Indent(raws[i]), content)];
      }
    }
    assert raws[..|raws|] == raws;
    if lines == [] {
      return Entries(map[]);
    }
    assert lines[0..] == lines;
    var next;
    value, next := ParseBlock(lines, 0, lines[0].indent);
  }
}
