/**
 Any document of nested mappings and sequences is parsed into the value it stands for, whatever the steps of
 its indentation.
 */
module YamlRoundTrip {
  import opened Texts
  import opened SimpleYaml
  import opened YamlLines

  // ----- documents -----

  /** A scalar as it is written, a key without a value, or a block whose lines are indented by `step` more than
      the key before it */
  datatype Node = Leaf(text: string) | NoValue | List(step: nat, nodes: Nodes) | Dict(step: nat, pairs: Pairs)

  datatype Nodes = NoNodes | More(node: Node, others: Nodes)

  datatype Pairs = NoPairs | Pair(key: string, value: Node, others: Pairs)

  /** What may stand after a key */
  predicate GoodValue(v: Node) {
    match v
    case Leaf(s) => s != "" && Trimmed(s)
    case NoValue => true
    case List(_, nodes) => nodes.More? && GoodNodes(nodes)
    case Dict(step, pairs) => step > 0 && pairs.Pair? && GoodPairs(pairs)
  }

  predicate GoodPairs(pairs: Pairs) {
    match pairs
    case NoPairs => true
    case Pair(key, value, others) => IsName(key) && GoodValue(value) && GoodPairs(others)
  }

  /** Items are scalars that are no keys, or mappings. */
  predicate GoodNodes(nodes: Nodes) {
    match nodes
    case NoNodes => true
    case More(Leaf(s), others) => s != "" && Trimmed(s) && !IsKey(s) && GoodNodes(others)
    case More(Dict(_, pairs), others) => pairs.Pair? && GoodPairs(pairs) && GoodNodes(others)
    case _ => false
  }

  // ----- how they are written -----

  /** The line of a key */
  function Head(key: string, v: Node): string {
    if v.Leaf? then key + ": " + v.text else key + ":"
  }

  /** The lines of a value after the line of its key */
  function Nested(v: Node, indent: nat): seq<Line> {
    match v
    case List(step, nodes) => ItemLines(nodes, indent + step)
    case Dict(step, pairs) => PairLines(pairs, indent + step)
    case _ => []
  }

  function PairLines(pairs: Pairs, indent: nat): seq<Line> {
    match pairs
    case NoPairs => []
    case Pair(key, value, others) => [Line(indent, Head(key, value))] + (Nested(value, indent) + PairLines(others, indent))
  }

  /** The first key of a mapping stands on the line of its dash, the others below it. */
  function ItemLines(nodes: Nodes, indent: nat): seq<Line> {
    match nodes
    case More(Leaf(s), others) => [Line(indent, "- " + s)] + ItemLines(others, indent)
    case More(Dict(_, Pair(key, value, pairs)), others) =>
      [Line(indent, "- " + Head(key, value))] + (Nested(value, indent + 2) + (PairLines(pairs, indent + 2) + ItemLines(others, indent)))
    case _ => []
  }

  // ----- what they stand for -----

  function Meaning(v: Node): Yaml {
    match v
    case Leaf(s) => Scalar(s)
    case NoValue => Null
    case List(_, nodes) => Items(Meanings(nodes))
    case Dict(_, pairs) => Entries(MapOf(pairs, map[]))
  }

  function Meanings(nodes: Nodes): seq<Yaml> {
    match nodes
    case NoNodes => []
    case More(node, others) => [Meaning(node)] + Meanings(others)
  }

  /** The last value of a key counts. */
  function MapOf(pairs: Pairs, before: map<string, Yaml>): map<string, Yaml> {
    match pairs
    case NoPairs => before
    case Pair(key, value, others) => MapOf(others, before[key := Meaning(value)])
  }

  lemma {:induction false} MapOfAfter(pairs: Pairs, before: map<string, Yaml>)
    ensures MapOf(pairs, before) == before + MapOf(pairs, map[])
  {
    match pairs {
      case NoPairs =>
      case Pair(key, value, others) =>
        MapOfAfter(others, before[key := Meaning(value)]);
        MapOfAfter(others, map[][key := Meaning(value)]);
        hide Meaning;
        assert before[key := Meaning(value)] == before + map[key := Meaning(value)];
    }
  }

  // ----- the parser on them -----

  /** The lines after a value belong to something further out, or go on with another key. */
  predicate Resumes(ls: seq<Line>, indent: int) {
    ls == [] || ls[0].indent < indent || (ls[0].indent == indent && !IsItem(ls[0]))
  }

  lemma HeadIs(key: string, v: Node)
    requires IsName(key) && GoodValue(v)
    ensures var s := Head(key, v);
      && IsKey(s) && KeyName(s) == key && !StartsWith(s, "- ")
      && (v.Leaf? ==> Strip(ValueText(s)) != "" && Scalar(ValueText(s)) == Scalar(v.text))
      && (!v.Leaf? ==> Strip(ValueText(s)) == "")
  {
    if v.Leaf? {
      assert key + ":" + (" " + v.text) == key + ": " + v.text;
      KeyIs(key, " " + v.text);
      SpaceFirst(v.text);
      StripSpace(v.text);
    } else {
      assert key + ":" + "" == key + ":";
      KeyIs(key, "");
    }
  }

  lemma HeadIsTrimmed(key: string, v: Node)
    requires IsName(key) && GoodValue(v)
    ensures Trimmed(Head(key, v)) && Head(key, v) != ""
  {
    NameIsTrimmed(key);
    var s := Head(key, v);
    assert s[0] == key[0];
    hide WordChar, Letter;
    if v.Leaf? {
      assert s[|s| - 1] == v.text[|v.text| - 1];
    } else {
      assert s[|s| - 1] == ':';
    }
  }

  lemma DashIs(indent: nat, s: string)
    requires Trimmed(s) && s != ""
    ensures var l := Line(indent, "- " + s); IsItem(l) && ItemText(l) == s
  {
    ItemIs(indent, s);
  }

  /** A line of a mapping, and the lines of its value */
  lemma PairStep(key: string, v: Node, indent: nat, rest: seq<Line>, before: map<string, Yaml>)
    requires IsName(key) && GoodValue(v) && Resumes(rest, indent)
    requires !v.Leaf? ==> AfterKey(Nested(v, indent) + rest, indent) == (Meaning(v), rest)
    ensures Mapping([Line(indent, Head(key, v))] + (Nested(v, indent) + rest), indent, before)
         == Mapping(rest, indent, before[key := Meaning(v)])
  {
    HeadIs(key, v);
    var ls := [Line(indent, Head(key, v))] + (Nested(v, indent) + rest);
    assert ls[1..] == Nested(v, indent) + rest;
    if v.Leaf? {
      assert Nested(v, indent) + rest == rest;
    }
    hide Head, IsKey, KeyName, ValueText, Scalar, Strip, AfterKey, Nested, GoodValue, IsName;
  }

  /** A mapping that starts on the line of an item */
  lemma FromItem(key: string, v: Node, l: Line, ls: seq<Line>, indent: nat, more: seq<Line>, m: map<string, Yaml>, rest: seq<Line>)
    requires IsName(key) && GoodValue(v) && |rest| <= |more| <= |ls|
    requires if v.Leaf? then ls == more else AfterKey(ls, indent + 2) == (Meaning(v), more)
    requires Mapping(more, indent + 2, map[]) == (m, rest)
    ensures MappingFromItem([l] + ls, indent, Head(key, v)) == (map[key := Meaning(v)] + m, rest)
  {
    HeadIs(key, v);
    hide Head, IsKey, KeyName, ValueText, Scalar, Strip, AfterKey, Mapping, GoodValue, IsName;
    assert ([l] + ls)[1..] == ls;
  }

  lemma ItemStep(key: string, v: Node, pairs: Pairs, indent: nat, rest: seq<Line>, before: seq<Yaml>)
    requires IsName(key) && GoodValue(v)
    requires var more := PairLines(pairs, indent + 2) + rest;
      && (!v.Leaf? ==> AfterKey(Nested(v, indent + 2) + more, indent + 2) == (Meaning(v), more))
      && Mapping(more, indent + 2, map[]) == (MapOf(pairs, map[]), rest)
    ensures Sequence([Line(indent, "- " + Head(key, v))] + (Nested(v, indent + 2) + (PairLines(pairs, indent + 2) + rest)), indent, before)
         == Sequence(rest, indent, before + [Entries(MapOf(Pair(key, v, pairs), map[]))])
  {
    hide *;
    HeadIs(key, v);
    HeadIsTrimmed(key, v);
    DashIs(indent, Head(key, v));
    FirstEntry(key, v, pairs);
    var more := PairLines(pairs, indent + 2) + rest;
    var l := Line(indent, "- " + Head(key, v));
    if v.Leaf? {
      NoLinesNested(v, indent + 2);
      assert [] + more == more;
    }
    FromItem(key, v, l, Nested(v, indent + 2) + more, indent, more, MapOf(pairs, map[]), rest);
    SequenceKey(l, Nested(v, indent + 2) + more, indent, before, map[key := Meaning(v)] + MapOf(pairs, map[]), rest);
  }

  lemma SequenceKey(l: Line, ls: seq<Line>, indent: nat, before: seq<Yaml>, entries: map<string, Yaml>, rest: seq<Line>)
    requires l.indent == indent && IsItem(l) && IsKey(ItemText(l))
    requires MappingFromItem([l] + ls, indent, ItemText(l)) == (entries, rest)
    ensures Sequence([l] + ls, indent, before) == Sequence(rest, indent, before + [Entries(entries)])
  {
    hide IsItem, IsKey, ItemText, MappingFromItem, Scalar;
  }

  lemma FirstEntry(key: string, v: Node, pairs: Pairs)
    ensures MapOf(Pair(key, v, pairs), map[]) == map[key := Meaning(v)] + MapOf(pairs, map[])
  {
    MapOfAfter(pairs, map[][key := Meaning(v)]);
    hide Meaning;
    assert map[][key := Meaning(v)] == map[key := Meaning(v)];
  }

  lemma NoLinesNested(v: Node, indent: nat)
    requires v.Leaf? || v.NoValue?
    ensures Nested(v, indent) == []
  {
  }

  lemma KeyResumes(pairs: Pairs, indent: nat, rest: seq<Line>)
    requires GoodPairs(pairs) && Stops(rest, indent)
    ensures Resumes(PairLines(pairs, indent) + rest, indent)
  {
    if pairs.Pair? {
      HeadIs(pairs.key, pairs.value);
      hide Head, IsKey, KeyName, ValueText, Scalar, Strip;
      assert (PairLines(pairs, indent) + rest)[0] == Line(indent, Head(pairs.key, pairs.value));
    } else {
      assert PairLines(pairs, indent) + rest == rest;
    }
  }

  lemma ItemStops(nodes: Nodes, indent: nat, rest: seq<Line>)
    requires GoodNodes(nodes) && Resumes(rest, indent)
    ensures Stops(ItemLines(nodes, indent) + rest, indent + 1)
  {
    hide Head;
  }

  lemma {:induction false} PairsAreParsed(pairs: Pairs, indent: nat, rest: seq<Line>, before: map<string, Yaml>)
    requires GoodPairs(pairs) && Stops(rest, indent)
    ensures Mapping(PairLines(pairs, indent) + rest, indent, before) == (MapOf(pairs, before), rest)
    decreases pairs, 0
  {
    PairLinesAre(pairs, indent, rest);
    PairMeans(pairs, before);
    hide Mapping, MapOf, Meaning, Nested, AfterKey, Head, IsName, GoodValue, PairLines, Stops, Resumes;
    match pairs {
      case NoPairs =>
        StopsMapping(rest, indent, before);
      case Pair(key, value, others) =>
        var more := PairLines(others, indent) + rest;
        KeyResumes(others, indent, rest);
        ValueIsParsed(value, indent, more);
        PairStep(key, value, indent, more, before);
        PairsAreParsed(others, indent, rest, before[key := Meaning(value)]);
    }
  }

  lemma PairMeans(pairs: Pairs, before: map<string, Yaml>)
    ensures MapOf(pairs, before) == if pairs.NoPairs? then before else MapOf(pairs.others, before[pairs.key := Meaning(pairs.value)])
  {
  }

  lemma PairLinesAre(pairs: Pairs, indent: nat, rest: seq<Line>)
    ensures PairLines(pairs, indent) + rest ==
            if pairs.NoPairs? then rest
            else [Line(indent, Head(pairs.key, pairs.value))] + (Nested(pairs.value, indent) + (PairLines(pairs.others, indent) + rest))
  {
    hide Head, Nested;
  }

  lemma {:induction false} NodesAreParsed(nodes: Nodes, indent: nat, rest: seq<Line>, before: seq<Yaml>)
    requires GoodNodes(nodes) && Resumes(rest, indent)
    ensures Sequence(ItemLines(nodes, indent) + rest, indent, before) == (before + Meanings(nodes), rest)
    decreases nodes, 0
  {
    ItemLinesAre(nodes, indent, rest);
    NextMeaning(nodes, before);
    hide Sequence, Mapping, MapOf, Meanings, Nested, AfterKey, Head, GoodValue, PairLines, ItemLines, Stops, Resumes,
      Scalar, IsKey, Trimmed;
    match nodes {
      case NoNodes =>
        SequenceEnds(rest, indent, before);
      case More(Leaf(s), others) =>
        ScalarStep(s, indent, ItemLines(others, indent) + rest, before);
        NodesAreParsed(others, indent, rest, before + [Scalar(s)]);
      case More(Dict(_, Pair(key, value, pairs)), others) =>
        var more := ItemLines(others, indent) + rest;
        ItemStops(others, indent, rest);
        StopsLater(more, indent + 1, indent + 2);
        PairsAreParsed(pairs, indent + 2, more, map[]);
        KeyResumes(pairs, indent + 2, more);
        ValueIsParsed(value, indent + 2, PairLines(pairs, indent + 2) + more);
        ItemStep(key, value, pairs, indent, more, before);
        NodesAreParsed(others, indent, rest, before + [Entries(MapOf(Pair(key, value, pairs), map[]))]);
    }
  }

  lemma SequenceEnds(rest: seq<Line>, indent: nat, before: seq<Yaml>)
    requires Resumes(rest, indent)
    ensures Sequence(rest, indent, before) == (before, rest)
  {
  }

  lemma NextMeaning(nodes: Nodes, before: seq<Yaml>)
    ensures nodes.NoNodes? ==> before + Meanings(nodes) == before
    ensures nodes.More? && nodes.node.Leaf? ==> before + [Scalar(nodes.node.text)] + Meanings(nodes.others) == before + Meanings(nodes)
    ensures nodes.More? && nodes.node.Dict? ==>
              before + [Entries(MapOf(nodes.node.pairs, map[]))] + Meanings(nodes.others) == before + Meanings(nodes)
  {
    hide MapOf, Scalar;
  }

  lemma ItemLinesAre(nodes: Nodes, indent: nat, rest: seq<Line>)
    ensures nodes.NoNodes? ==> ItemLines(nodes, indent) + rest == rest
    ensures nodes.More? && nodes.node.Leaf? ==>
              ItemLines(nodes, indent) + rest == [Line(indent, "- " + nodes.node.text)] + (ItemLines(nodes.others, indent) + rest)
    ensures nodes.More? && nodes.node.Dict? && nodes.node.pairs.Pair? ==>
              var p := nodes.node.pairs;
              ItemLines(nodes, indent) + rest ==
                [Line(indent, "- " + Head(p.key, p.value))]
                + (Nested(p.value, indent + 2) + (PairLines(p.others, indent + 2) + (ItemLines(nodes.others, indent) + rest)))
  {
    hide Head, Nested, PairLines;
  }

  lemma StopsLater(ls: seq<Line>, a: int, b: int)
    requires Stops(ls, a) && a <= b
    ensures Stops(ls, b)
  {
  }

  lemma ScalarStep(s: string, indent: nat, rest: seq<Line>, before: seq<Yaml>)
    requires s != "" && Trimmed(s) && !IsKey(s)
    ensures Sequence([Line(indent, "- " + s)] + rest, indent, before) == Sequence(rest, indent, before + [Scalar(s)])
  {
    DashIs(indent, s);
    hide IsKey, Scalar, ItemText, IsItem;
    assert ([Line(indent, "- " + s)] + rest)[1..] == rest;
  }

  /** The lines after a key are parsed into its value, and the ones after them are left. */
  lemma {:induction false} ValueIsParsed(v: Node, indent: nat, rest: seq<Line>)
    requires GoodValue(v) && Resumes(rest, indent)
    ensures !v.Leaf? ==> AfterKey(Nested(v, indent) + rest, indent) == (Meaning(v), rest)
    decreases v, 1
  {
    hide Sequence, Mapping, Meanings, MapOf, ItemLines, PairLines, IsItem, GoodNodes, GoodPairs;
    match v {
      case Leaf(_) =>
      case NoValue =>
        NoLinesNested(v, indent);
        assert Nested(v, indent) + rest == rest;
        hide Block;
      case List(step, nodes) =>
        NodesAreParsed(nodes, indent + step, rest, []);
        FirstItem(nodes, indent + step, rest);
        assert [] + Meanings(nodes) == Meanings(nodes);
      case Dict(step, pairs) =>
        PairsAreParsed(pairs, indent + step, rest, map[]);
        FirstKey(pairs, indent + step, rest);
    }
  }

  lemma FirstItem(nodes: Nodes, indent: nat, rest: seq<Line>)
    requires nodes.More? && GoodNodes(nodes)
    ensures var ls := ItemLines(nodes, indent) + rest; ls != [] && ls[0].indent == indent && IsItem(ls[0])
  {
    match nodes {
      case More(Leaf(s), others) => DashIs(indent, s);
      case More(Dict(_, Pair(key, value, pairs)), others) =>
        HeadIsTrimmed(key, value);
        DashIs(indent, Head(key, value));
    }
    hide Head, IsKey, Trimmed, IsItem;
  }

  lemma FirstKey(pairs: Pairs, indent: nat, rest: seq<Line>)
    requires pairs.Pair? && GoodPairs(pairs)
    ensures var ls := PairLines(pairs, indent) + rest; ls != [] && ls[0].indent == indent && !IsItem(ls[0])
  {
    HeadIs(pairs.key, pairs.value);
    hide Head, IsKey, KeyName, ValueText, Scalar, Strip;
  }

  /** Lines of a mapping that are deeper than it or no keys are skipped. */
  lemma MalformedIsSkipped(l: Line, rest: seq<Line>, indent: nat, before: map<string, Yaml>)
    requires l.indent > indent || (l.indent == indent && !IsItem(l) && !IsKey(l.content))
    ensures Mapping([l] + rest, indent, before) == Mapping(rest, indent, before)
  {
    hide IsItem, IsKey;
    assert ([l] + rest)[1..] == rest;
  }

  // ----- documents as text -----

  /** Every scalar is without line breaks and hash signs. */
  predicate ReadableValue(v: Node) {
    match v
    case Leaf(s) => SingleLine(s) && NoHash(s)
    case NoValue => true
    case List(_, nodes) => ReadableNodes(nodes)
    case Dict(_, pairs) => ReadablePairs(pairs)
  }

  predicate ReadablePairs(pairs: Pairs) {
    pairs.Pair? ==> ReadableValue(pairs.value) && ReadablePairs(pairs.others)
  }

  predicate ReadableNodes(nodes: Nodes) {
    nodes.More? ==> ReadableValue(nodes.node) && ReadableNodes(nodes.others)
  }

  ghost predicate AllReadable(ls: seq<Line>) {
    forall l :: l in ls ==> Readable(l.content)
  }

  lemma ReadableHead(key: string, v: Node)
    requires IsName(key) && GoodValue(v) && ReadableValue(v)
    ensures Readable(Head(key, v)) && Readable("- " + Head(key, v))
  {
    HeadIsTrimmed(key, v);
    NameIsTrimmed(key);
    Separators();
    Joins(key, ": ");
    Joins(key, ":");
    if v.Leaf? {
      Joins(key + ": ", v.text);
    }
    hide SingleLine, NoHash;
    Dashed(Head(key, v));
  }

  lemma Separators()
    ensures SingleLine(": ") && NoHash(": ") && SingleLine(":") && NoHash(":")
  {
  }

  lemma Dashed(s: string)
    requires Readable(s)
    ensures Readable("- " + s)
  {
    assert SingleLine("- ") && NoHash("- ");
    Joins("- ", s);
    var t := "- " + s;
    assert t[0] == '-' && t[|t| - 1] == s[|s| - 1];
    hide SingleLine, NoHash;
  }

  lemma AllJoined(a: seq<Line>, b: seq<Line>)
    ensures AllReadable(a + b) <==> AllReadable(a) && AllReadable(b)
  {
    hide Readable;
    assert forall l :: l in a ==> l in a + b;
    assert forall l :: l in b ==> l in a + b;
  }

  lemma {:induction false} NestedIsReadable(v: Node, indent: nat)
    requires GoodValue(v) && ReadableValue(v)
    ensures AllReadable(Nested(v, indent))
    decreases v, 1
  {
    match v {
      case List(step, nodes) => NodesAreReadable(nodes, indent + step);
      case Dict(step, pairs) => PairsAreReadable(pairs, indent + step);
      case _ =>
    }
  }

  lemma {:induction false} PairsAreReadable(pairs: Pairs, indent: nat)
    requires GoodPairs(pairs) && ReadablePairs(pairs)
    ensures AllReadable(PairLines(pairs, indent))
    decreases pairs, 0
  {
    match pairs {
      case NoPairs =>
      case Pair(key, value, others) =>
        ReadableHead(key, value);
        NestedIsReadable(value, indent);
        PairsAreReadable(others, indent);
        hide Readable, Head, Nested;
        AllJoined(Nested(value, indent), PairLines(others, indent));
        AllJoined([Line(indent, Head(key, value))], Nested(value, indent) + PairLines(others, indent));
    }
  }

  lemma {:induction false} NodesAreReadable(nodes: Nodes, indent: nat)
    requires GoodNodes(nodes) && ReadableNodes(nodes)
    ensures AllReadable(ItemLines(nodes, indent))
    decreases nodes, 0
  {
    match nodes {
      case NoNodes =>
      case More(Leaf(s), others) =>
        Dashed(s);
        NodesAreReadable(others, indent);
        hide Readable;
        AllJoined([Line(indent, "- " + s)], ItemLines(others, indent));
      case More(Dict(_, Pair(key, value, pairs)), others) =>
        assert ReadableValue(nodes.node) && ReadablePairs(nodes.node.pairs);
        ReadableHead(key, value);
        NestedIsReadable(value, indent + 2);
        PairsAreReadable(pairs, indent + 2);
        NodesAreReadable(others, indent);
        hide Readable, Head, Nested, PairLines;
        AllJoined(PairLines(pairs, indent + 2), ItemLines(others, indent));
        AllJoined(Nested(value, indent + 2), PairLines(pairs, indent + 2) + ItemLines(others, indent));
        AllJoined([Line(indent, "- " + Head(key, value))],
                  Nested(value, indent + 2) + (PairLines(pairs, indent + 2) + ItemLines(others, indent)));
    }
  }

  /** A text that says the lines of a mapping, with comments and empty lines anywhere, is parsed into it. */
  lemma DocumentIsParsed(ps: seq<Physical>, pairs: Pairs, indent: nat)
    requires (forall p :: p in ps ==> Legible(p)) && Said(ps) == PairLines(pairs, indent)
    requires pairs.Pair? && GoodPairs(pairs)
    ensures Parsed(Joined(PhysicalTexts(ps))) == Entries(MapOf(pairs, map[]))
  {
    TextIsRead(ps);
    LinesAreParsed(pairs, indent);
    hide Legible, PhysicalTexts, SplitLines, LinesOf, Joined, Said, GoodPairs, PairLines, MapOf, Block;
  }

  lemma LinesAreParsed(pairs: Pairs, indent: nat)
    requires pairs.Pair? && GoodPairs(pairs)
    ensures var ls := PairLines(pairs, indent); ls != [] && ls[0].indent == indent && Block(ls, indent).0 == Entries(MapOf(pairs, map[]))
  {
    hide Mapping, MapOf, PairLines, IsItem, GoodPairs;
    FirstKey(pairs, indent, []);
    PairsAreParsed(pairs, indent, [], map[]);
    assert PairLines(pairs, indent) + [] == PairLines(pairs, indent);
  }

  /** The same for a list at the top. */
  lemma ListIsParsed(ps: seq<Physical>, nodes: Nodes, indent: nat)
    requires (forall p :: p in ps ==> Legible(p)) && Said(ps) == ItemLines(nodes, indent)
    requires nodes.More? && GoodNodes(nodes)
    ensures Parsed(Joined(PhysicalTexts(ps))) == Items(Meanings(nodes))
  {
    TextIsRead(ps);
    ItemsArePut(nodes, indent);
    hide Legible, PhysicalTexts, SplitLines, LinesOf, Joined, Said, GoodNodes, ItemLines, Meanings, Block;
  }

  lemma ItemsArePut(nodes: Nodes, indent: nat)
    requires nodes.More? && GoodNodes(nodes)
    ensures var ls := ItemLines(nodes, indent); ls != [] && ls[0].indent == indent && Block(ls, indent).0 == Items(Meanings(nodes))
  {
    hide Sequence, Meanings, ItemLines, IsItem, GoodNodes;
    FirstItem(nodes, indent, []);
    NodesAreParsed(nodes, indent, [], []);
    assert ItemLines(nodes, indent) + [] == ItemLines(nodes, indent) && [] + Meanings(nodes) == Meanings(nodes);
  }

  /** Lines as they are, without comments */
  lemma PlainDocument(pairs: Pairs)
    requires pairs.Pair? && GoodPairs(pairs) && ReadablePairs(pairs)
    ensures Parsed(Joined(LineTexts(PairLines(pairs, 0)))) == Entries(MapOf(pairs, map[]))
  {
    PairsAreReadable(pairs, 0);
    PlainTextIsRead(PairLines(pairs, 0));
    LinesAreParsed(pairs, 0);
    hide GoodPairs, ReadablePairs, SplitLines, LinesOf, Joined, LineTexts, PairLines, MapOf, Block;
  }
}
