/**
 One line of indented text: how it is read, with its comment or without one, and what its key is.
 */
module YamlLines {
  import opened Wrappers
  import opened Texts
  import opened SimpleYaml

  // ----- lines of text -----

  function Spaces(n: nat): string {
    if n == 0 then "" else " " + Spaces(n - 1)
  }

  function LineText(l: Line): string {
    Spaces(l.indent) + l.content
  }

  function LineTexts(ls: seq<Line>): (r: seq<string>)
    ensures |r| == |ls| && forall i :: 0 <= i < |ls| ==> r[i] == LineText(ls[i])
  {
    seq(|ls|, i requires 0 <= i < |ls| => LineText(ls[i]))
  }

  predicate NoHash(s: string) {
    forall i :: 0 <= i < |s| ==> s[i] != '#'
  }

  /** The content of a line that is read as it was written */
  predicate Readable(content: string) {
    content != "" && Trimmed(content) && SingleLine(content) && NoHash(content)
  }

  /** The quote that is open after one character, and after a text */
  function Open(c: char, quote: Option<char>): Option<char> {
    if quote.Some? then (if c == quote.value then None else quote)
    else if c == '"' || c == '\'' then Some(c)
    else None
  }

  function QuoteAfter(s: string, quote: Option<char>): Option<char>
    decreases |s|
  {
    if s == "" then quote else QuoteAfter(s[1..], Open(s[0], quote))
  }

  /** A line with what it says, or one that says nothing; both may end in spaces and a comment. */
  datatype Physical = Full(line: Line, spaces: nat, comment: Option<string>) | Hollow(spaces: nat, comment: Option<string>)

  function CommentText(comment: Option<string>): string {
    if comment.Some? then "#" + comment.value else ""
  }

  function PhysicalText(p: Physical): string {
    match p
    case Full(line, spaces, comment) => Spaces(line.indent) + line.content + (Spaces(spaces) + CommentText(comment))
    case Hollow(spaces, comment) => Spaces(spaces) + CommentText(comment)
  }

  /** Before a comment there is a space, and no quote is open. */
  predicate Legible(p: Physical) {
    && (p.comment.Some? ==> SingleLine(p.comment.value))
    && (p.Full? ==> Readable(p.line.content) && (p.comment.Some? ==> p.spaces > 0 && QuoteAfter(p.line.content, None).None?))
  }

  function PhysicalTexts(ps: seq<Physical>): (r: seq<string>)
    ensures |r| == |ps| && forall i :: 0 <= i < |ps| ==> r[i] == PhysicalText(ps[i])
  {
    seq(|ps|, i requires 0 <= i < |ps| => PhysicalText(ps[i]))
  }

  function Said(ps: seq<Physical>): seq<Line> {
    if ps == [] then [] else Said(ps[..|ps| - 1]) + (if ps[|ps| - 1].Full? then [ps[|ps| - 1].line] else [])
  }

  lemma {:induction false} StripLeftKeepsNoHash(raw: string)
    requires NoHash(raw)
    ensures !StartsWith(StripLeft(raw), "#")
  {
    if raw != "" && IsSpace(raw[0]) {
      StripLeftKeepsNoHash(raw[1..]);
    } else if raw != "" {
      assert raw[..1] == [raw[0]];
    }
  }

  lemma {:induction false} SpacesAre(n: nat)
    ensures |Spaces(n)| == n && forall i :: 0 <= i < n ==> Spaces(n)[i] == ' '
  {
    if n > 0 {
      SpacesAre(n - 1);
    }
  }

  lemma {:induction false} QuoteAfterBoth(a: string, b: string, quote: Option<char>)
    ensures QuoteAfter(a + b, quote) == QuoteAfter(b, QuoteAfter(a, quote))
    decreases |a|
  {
    if a == "" {
      assert a + b == b;
    } else {
      assert (a + b)[0] == a[0] && (a + b)[1..] == a[1..] + b;
      QuoteAfterBoth(a[1..], b, Open(a[0], quote));
    }
  }

  lemma {:induction false} QuoteAfterSpaces(n: nat, quote: Option<char>)
    requires quote != Some(' ')
    ensures QuoteAfter(Spaces(n), quote) == quote
  {
    if n > 0 {
      QuoteAfterSpaces(n - 1, quote);
      assert Spaces(n)[1..] == Spaces(n - 1);
    }
  }

  lemma UncommentedStep(raw: string, i: nat, quote: Option<char>)
    requires i < |raw| && raw[i] != '#'
    ensures Uncommented(raw, i, quote) == [raw[i]] + Uncommented(raw, i + 1, Open(raw[i], quote))
  {
    hide IsSpace;
  }

  /** What comes before the first hash sign is kept. */
  lemma {:induction false} UncommentedTo(raw: string, i: nat, k: nat, quote: Option<char>)
    requires i <= k <= |raw| && NoHash(raw[i..k])
    ensures Uncommented(raw, i, quote) == raw[i..k] + Uncommented(raw, k, QuoteAfter(raw[i..k], quote))
    decreases k - i
  {
    hide Uncommented, Open;
    var s := raw[i..k];
    if i == k {
      assert s + Uncommented(raw, k, quote) == Uncommented(raw, k, quote);
    } else {
      assert s[0] == raw[i] && s[1..] == raw[i + 1..k];
      UncommentedStep(raw, i, quote);
      UncommentedTo(raw, i + 1, k, Open(raw[i], quote));
      assert s == [raw[i]] + raw[i + 1..k];
    }
  }

  lemma StripStep(s: string)
    ensures Strip(" " + s) == Strip(s)
    ensures s != "" && !IsSpace(s[0]) ==> Strip(s + " ") == Strip(s)
  {
    assert (" " + s)[1..] == s;
    assert (s + " ")[..|s|] == s;
    assert IsSpace(' ');
    hide IsSpace;
  }

  lemma {:induction false} StripAround(n: nat, content: string, m: nat)
    requires content != "" && Trimmed(content)
    ensures Strip(Spaces(n) + content + Spaces(m)) == content
    decreases n + m
  {
    hide Strip, IsSpace;
    if n > 0 {
      StripAround(n - 1, content, m);
      StripStep(Spaces(n - 1) + content + Spaces(m));
      assert Spaces(n) + content + Spaces(m) == " " + (Spaces(n - 1) + content + Spaces(m));
    } else if m > 0 {
      StripAround(0, content, m - 1);
      LastSpace(m);
      var s := Spaces(0) + content + Spaces(m - 1);
      assert s[0] == content[0];
      StripStep(s);
      assert Spaces(0) + content + Spaces(m) == s + " ";
    } else {
      StripSpace(content);
      assert Spaces(0) + content + Spaces(0) == content;
    }
  }

  lemma {:induction false} LastSpace(m: nat)
    requires m > 0
    ensures Spaces(m) == Spaces(m - 1) + " "
  {
    if m > 1 {
      LastSpace(m - 1);
    }
  }

  lemma {:induction false} IndentOf(n: nat, s: string)
    requires s == "" || s[0] != ' '
    ensures Indent(Spaces(n) + s) == n
  {
    if n == 0 {
      assert Spaces(0) + s == s;
    } else {
      IndentOf(n - 1, s);
      assert (Spaces(n) + s)[1..] == Spaces(n - 1) + s;
    }
  }

  lemma {:induction false} StripLeftIs(n: nat, s: string)
    requires s == "" || !IsSpace(s[0])
    ensures StripLeft(Spaces(n) + s) == s
  {
    if n == 0 {
      assert Spaces(0) + s == s;
    } else {
      StripLeftIs(n - 1, s);
      assert (Spaces(n) + s)[1..] == Spaces(n - 1) + s;
    }
  }

  lemma {:induction false} OnlySpaces(n: nat)
    ensures Strip(Spaces(n)) == ""
  {
    if n > 0 {
      OnlySpaces(n - 1);
      assert Spaces(n)[1..] == Spaces(n - 1);
    }
  }

  lemma SpacesAreNoHash(n: nat)
    ensures NoHash(Spaces(n)) && SingleLine(Spaces(n))
  {
    SpacesAre(n);
  }

  lemma Joins(a: string, b: string)
    ensures NoHash(a) && NoHash(b) ==> NoHash(a + b)
    ensures SingleLine(a) && SingleLine(b) ==> SingleLine(a + b)
  {
  }

  /** What a line says, with the spaces around it */
  function Before(p: Physical): string
    requires p.Full?
  {
    Spaces(p.line.indent) + p.line.content + Spaces(p.spaces)
  }

  lemma BeforeIs(p: Physical)
    requires p.Full? && Legible(p)
    ensures PhysicalText(p) == Before(p) + CommentText(p.comment)
    ensures NoHash(Before(p)) && SingleLine(Before(p)) && Strip(Before(p)) == p.line.content
  {
    var n, content, m := p.line.indent, p.line.content, p.spaces;
    SpacesAreNoHash(n);
    SpacesAreNoHash(m);
    StripAround(n, content, m);
    hide Strip, Spaces, NoHash, SingleLine, IsSpace, QuoteAfter;
    Joins(Spaces(n), content);
    Joins(Spaces(n) + content, Spaces(m));
  }

  lemma StartIs(p: Physical)
    requires p.Full? && Legible(p)
    ensures Indent(PhysicalText(p)) == p.line.indent && !StartsWith(StripLeft(PhysicalText(p)), "#")
  {
    var n, content := p.line.indent, p.line.content;
    var rest := Spaces(p.spaces) + CommentText(p.comment);
    assert PhysicalText(p) == Spaces(n) + (content + rest);
    assert !IsSpace(content[0]) && content[0] != '#' && IsSpace(' ');
    assert (content + rest)[0] == content[0];
    hide Spaces, Strip, NoHash, SingleLine, IsSpace, QuoteAfter, Indent, StripLeft, CommentText;
    StripLeftIs(n, content + rest);
    IndentOf(n, content + rest);
    NotAHash(content, rest);
  }

  /** A line is read as what it says. */
  lemma FullIsRead(p: Physical)
    requires p.Full? && Legible(p)
    ensures var raw := PhysicalText(p);
      && Strip(WithoutComment(raw)) == p.line.content && Indent(raw) == p.line.indent && SingleLine(raw)
  {
    var raw, said := PhysicalText(p), Before(p);
    CommentIsSingle(p.comment);
    BeforeIs(p);
    StartIs(p);
    BeforeComment(p);
    hide Strip, Uncommented, QuoteAfter, Indent, NoHash, SingleLine, StripLeft, CommentText, Legible, PhysicalText, Before, StartsWith;
    Joins(said, CommentText(p.comment));
    assert raw[0..|said|] == said;
    UncommentedTo(raw, 0, |said|, None);
    assert said + "" == said;
  }

  lemma NotAHash(content: string, rest: string)
    requires content != "" && content[0] != '#'
    ensures !StartsWith(content + rest, "#")
  {
    assert (content + rest)[0] == content[0];
    assert (content + rest)[..1] == [content[0]];
  }

  lemma CommentIsSingle(comment: Option<string>)
    requires comment.Some? ==> SingleLine(comment.value)
    ensures SingleLine(CommentText(comment))
  {
    if comment.Some? {
      assert SingleLine("#");
      Joins("#", comment.value);
    }
  }

  /** After what a line says there is nothing, or a comment. */
  lemma BeforeComment(p: Physical)
    requires p.Full? && Legible(p)
    ensures var raw, k := PhysicalText(p), |Before(p)|; k <= |raw| && Uncommented(raw, k, QuoteAfter(Before(p), None)) == ""
  {
    var n, content, m := p.line.indent, p.line.content, p.spaces;
    var raw, k := PhysicalText(p), |Before(p)|;
    BeforeIs(p);
    if p.comment.Some? {
      QuoteAfterSpaces(n, None);
      QuoteAfterSpaces(m, None);
      QuoteAfterBoth(Spaces(n) + content, Spaces(m), None);
      QuoteAfterBoth(Spaces(n), content, None);
      LastSpace(m);
      assert IsSpace(' ');
      hide Spaces, Strip, NoHash, SingleLine, IsSpace, QuoteAfter, Legible;
      assert raw[k] == '#' && raw[k - 1] == ' ';
    }
  }

  /** A line without a content says nothing. */
  lemma HollowIsRead(p: Physical)
    requires p.Hollow? && Legible(p)
    ensures Strip(WithoutComment(PhysicalText(p))) == "" && SingleLine(PhysicalText(p))
  {
    var raw, m := PhysicalText(p), p.spaces;
    CommentIsSingle(p.comment);
    SpacesAreNoHash(m);
    Joins(Spaces(m), CommentText(p.comment));
    if p.comment.Some? {
      assert !IsSpace('#');
      StripLeftIs(m, CommentText(p.comment));
      assert StartsWith(CommentText(p.comment), "#");
      assert Strip("") == "";
    } else {
      assert raw == Spaces(m);
      OnlySpaces(m);
      StripLeftKeepsNoHash(raw);
      assert raw[0..] == raw && raw[0..|raw|] == raw && raw + "" == raw;
      UncommentedTo(raw, 0, |raw|, None);
    }
  }

  lemma {:induction false} LinesAreRead(ps: seq<Physical>)
    requires forall p :: p in ps ==> Legible(p)
    ensures LinesOf(PhysicalTexts(ps)) == Said(ps)
    ensures forall t :: t in PhysicalTexts(ps) ==> SingleLine(t)
  {
    hide Legible, WithoutComment, Indent, PhysicalText, SingleLine, Strip;
    if ps != [] {
      var front, last := ps[..|ps| - 1], ps[|ps| - 1];
      assert last in ps;
      LinesAreRead(front);
      if last.Full? {
        FullIsRead(last);
        ContentIsThere(last);
      } else {
        HollowIsRead(last);
      }
      assert PhysicalTexts(ps)[..|ps| - 1] == PhysicalTexts(front);
      assert PhysicalTexts(ps) == PhysicalTexts(front) + [PhysicalText(last)];
    }
  }

  lemma ContentIsThere(p: Physical)
    requires p.Full? && Legible(p)
    ensures p.line.content != ""
  {
  }

  /** From any text its lines are read as what they say, without comments and lines that say nothing. */
  lemma TextIsRead(ps: seq<Physical>)
    requires forall p :: p in ps ==> Legible(p)
    ensures LinesOf(SplitLines(Joined(PhysicalTexts(ps)))) == Said(ps)
  {
    hide Legible, PhysicalText, SingleLine, LinesOf, SplitLines;
    LinesAreRead(ps);
    SplitJoined(PhysicalTexts(ps));
  }

  /** Lines without comments */
  lemma {:induction false} PlainTextIsRead(ls: seq<Line>)
    requires forall l :: l in ls ==> Readable(l.content)
    ensures LinesOf(SplitLines(Joined(LineTexts(ls)))) == ls
  {
    var ps := Plain(ls);
    forall p | p in ps
      ensures Legible(p)
    {
      var i :| 0 <= i < |ps| && ps[i] == p;
      assert ls[i] in ls;
    }
    TextIsRead(ps);
    SaidPlain(ls);
    forall i | 0 <= i < |ls|
      ensures PhysicalTexts(ps)[i] == LineTexts(ls)[i]
    {
      assert Spaces(0) + CommentText(None) == "";
    }
    assert PhysicalTexts(ps) == LineTexts(ls);
  }

  function Plain(ls: seq<Line>): (r: seq<Physical>)
    ensures |r| == |ls| && forall i :: 0 <= i < |ls| ==> r[i] == Full(ls[i], 0, None)
  {
    seq(|ls|, i requires 0 <= i < |ls| => Full(ls[i], 0, None))
  }

  lemma {:induction false} SaidPlain(ls: seq<Line>)
    ensures Said(Plain(ls)) == ls
  {
    if ls != [] {
      SaidPlain(ls[..|ls| - 1]);
      assert Plain(ls)[..|ls| - 1] == Plain(ls[..|ls| - 1]);
      assert ls == ls[..|ls| - 1] + [ls[|ls| - 1]];
    }
  }

  // ----- keys and items -----

  predicate IsName(name: string) {
    name != "" && Letter(name[0]) && forall i :: 0 <= i < |name| ==> WordChar(name[i])
  }

  lemma {:induction false} PastName(name: string, rest: string, i: nat)
    requires i <= |name| && forall k :: 0 <= k < |name| ==> WordChar(name[k])
    requires rest != "" && rest[0] == ':'
    ensures Past(name + rest, i, WordChar) == |name|
    decreases |name| - i
  {
    if i < |name| {
      PastName(name, rest, i + 1);
    }
  }

  lemma KeyShape(name: string, rest: string)
    requires IsName(name) && (rest == "" || rest[0] == ' ')
    ensures IsKey(name + ":" + rest)
  {
    var s := name + ":" + rest;
    assert s == name + (":" + rest);
    PastName(name, ":" + rest, 0);
    assert s[0] == name[0] && s[|name|] == ':' && !IsSpace(':');
    assert Past(s, |name|, IsSpace) == |name|;
    assert |name| + 1 < |s| ==> s[|name| + 1] == rest[0];
    assert IsSpace(' ');
    hide Past, IsSpace, WordChar;
  }

  /** `name:` and `name: value` are keys. */
  lemma KeyIs(name: string, rest: string)
    requires IsName(name) && (rest == "" || rest[0] == ' ')
    ensures var s := name + ":" + rest;
      IsKey(s) && KeyName(s) == name && ValueText(s) == rest && !StartsWith(s, "- ")
  {
    hide IsKey, Strip, Trimmed, NoHash, SingleLine;
    var s := name + ":" + rest;
    KeyShape(name, rest);
    NameIsTrimmed(name);
    FindFirst(name, ':', rest);
    StripSpace(name);
    assert s == name + [':'] + rest;
    assert s[..|name|] == name && s[|name| + 1..] == rest;
    assert s[0] == name[0] && |s| >= 2 ==> s[..2][0] == s[0];
  }

  lemma NameIsTrimmed(name: string)
    requires IsName(name)
    ensures Trimmed(name) && NoHash(name) && SingleLine(name) && forall i :: 0 <= i < |name| ==> name[i] != ':'
  {
  }

  lemma SpaceFirst(value: string)
    ensures Strip(" " + value) == Strip(value) && Scalar(" " + value) == Scalar(value)
  {
    assert (" " + value)[1..] == value;
    assert Strip(" " + value) == Strip(value);
    hide Strip;
  }

  lemma ItemIs(indent: nat, item: string)
    requires Trimmed(item) && item != ""
    ensures var l := Line(indent, "- " + item); IsItem(l) && ItemText(l) == item
  {
    var l := Line(indent, "- " + item);
    assert l.content[..2] == "- " && l.content[2..] == item;
    StripSpace(item);
  }

  /** Words for truth values in any case, integers, texts in quotes, and other texts */
  lemma ScalarIs(s: string)
    requires s != "" && Trimmed(s)
    ensures Lower(s) == "true" || Lower(s) == "yes" || Lower(s) == "on" ==> Scalar(s) == Truth(true)
    ensures Lower(s) == "false" || Lower(s) == "no" || Lower(s) == "off" ==> Scalar(s) == Truth(false)
    ensures IsDigits(s) ==> Scalar(s) == Number(Decimal(s))
    ensures Scalar(s) == Text(s) ==> !IsDigits(s) && Lower(s) !in {"true", "yes", "on", "false", "no", "off"}
    ensures !Quoted(s) && !IsInteger(s) && Lower(s) !in {"true", "yes", "on", "false", "no", "off"} ==> Scalar(s) == Text(s)
  {
    StripSpace(s);
    assert Lower(s)[0] == LowerChar(s[0]);
    assert s[..1] == [s[0]];
    hide Strip, Decimal;
  }

  lemma TextInQuotes(s: string)
    ensures Scalar("\"" + s + "\"") == Text(s) && Scalar("'" + s + "'") == Text(s)
  {
    var double, single := "\"" + s + "\"", "'" + s + "'";
    StripSpace(double);
    StripSpace(single);
    assert double[1..|double| - 1] == s && single[1..|single| - 1] == s;
    hide Strip;
  }

  lemma NegativeIs(n: nat)
    ensures Scalar("-" + Digits(n)) == Number(0 - (n as int))
  {
    DecimalOfDigits(n);
    var s := "-" + Digits(n);
    StripSpace(s);
    assert s[1..] == Digits(n) && s[..1] == "-";
    hide Strip, Digits, Decimal;
  }

  // ----- where a block ends -----

  /** The lines left do not go on with the mapping at an indentation. */
  predicate Stops(ls: seq<Line>, indent: int) {
    ls == [] || ls[0].indent < indent
  }

  lemma StopsMapping(ls: seq<Line>, indent: int, before: map<string, Yaml>)
    requires Stops(ls, indent)
    ensures Mapping(ls, indent, before) == (before, ls)
  {
  }
}
