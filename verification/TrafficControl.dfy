/**
 `render_device`: the `tc` commands that recreate the traffic-control tree of a device, at the level
 of words.
 */
module TrafficControl {
  import opened Wrappers
  import opened Sorting

  type Word = string

  type Command = seq<Word>

  /** Entries of the parsed model. The parameter words of a qdisc are the ones to be rendered, those of a
      filter what follows its parent. */
  datatype Qdisc = Qdisc(kind: Word, handle: Word, parent: Option<Word>, params: seq<Word>)
  datatype Class = Class(kind: Word, id: Word, parent: Option<Word>, tokens: seq<Word>)
  datatype Filter = Filter(kind: Word, parent: Option<Word>, body: seq<Word>)

  datatype Device = Device(qdiscs: seq<Qdisc>, classes: seq<Class>, filters: seq<Filter>)

  // ----- words -----

  predicate SafeChar(c: char) {
    'A' <= c <= 'Z' || 'a' <= c <= 'z' || '0' <= c <= '9' || c in "_.:/%+-"
  }

  /** The words that may reach the shell */
  predicate Safe(w: Word) {
    w != [] && forall i :: 0 <= i < |w| ==> SafeChar(w[i])
  }

  /** `_safe_tokens` */
  function SafeTokens(words: seq<Word>): seq<Word> {
    if words == [] then []
    else SafeTokens(words[..|words| - 1]) + (if Safe(words[|words| - 1]) then [words[|words| - 1]] else [])
  }

  method KeepSafe(words: seq<Word>) returns (r: seq<Word>)
    ensures r == SafeTokens(words)
  {
    r := [];
    for i := 0 to |words|
      invariant r == SafeTokens(words[..i])
    {
      assert words[..i + 1][..i] == words[..i];
      if Safe(words[i]) {
        r := r + [words[i]];
      }
    }
    assert words[..|words|] == words;
  }

  lemma {:induction false} SafeTokensAppend(a: seq<Word>, b: seq<Word>)
    ensures SafeTokens(a + b) == SafeTokens(a) + SafeTokens(b)
  {
    if b == [] {
      assert a + b == a;
    } else {
      assert (a + b)[..|a + b| - 1] == a + b[..|b| - 1];
      SafeTokensAppend(a, b[..|b| - 1]);
    }
  }

  /** Exactly the safe words are kept, in order. */
  lemma {:induction false} SafeTokensKeep(a: seq<Word>)
    ensures forall w :: w in SafeTokens(a) <==> w in a && Safe(w)
    ensures (forall w :: w in a ==> Safe(w)) ==> SafeTokens(a) == a
  {
    if a != [] {
      SafeTokensKeep(a[..|a| - 1]);
      assert a == a[..|a| - 1] + [a[|a| - 1]];
    }
  }

  /** The part of an identifier before its colon, and the colon: the handle of the owning qdisc */
  function Major(id: Word): Option<Word> {
    if id == [] then None
    else if id[0] == ':' then Some(":")
    else match Major(id[1..])
      case Some(m) => Some([id[0]] + m)
      case None => None
  }

  /** How Python formats an optional value */
  function Text(w: Option<Word>): Word {
    if w.Some? then w.value else "None"
  }

  // ----- depth of a class -----

  function ById(classes: seq<Class>): map<Word, Class> {
    if classes == [] then map[]
    else ById(classes[..|classes| - 1])[classes[|classes| - 1].id := classes[|classes| - 1]]
  }

  predicate Rooted(parent: Option<Word>) {
    parent == None || parent == Some("root")
  }

  /** The number of steps up from a class, at most `fuel` */
  function Steps(ids: map<Word, Class>, c: Class, fuel: nat): (n: nat)
    ensures n <= fuel
    decreases fuel
  {
    if fuel == 0 || Rooted(c.parent) || c.parent.value !in ids then 0
    else 1 + Steps(ids, ids[c.parent.value], fuel - 1)
  }

  function ClassDepth(classes: seq<Class>, c: Class): nat {
    Steps(ById(classes), c, 32)
  }

  method MeasureDepth(classes: seq<Class>, c: Class) returns (depth: nat)
    ensures depth == ClassDepth(classes, c)
  {
    var ids: map<Word, Class> := map[];
    for i := 0 to |classes|
      invariant ids == ById(classes[..i])
    {
      assert classes[..i + 1][..i] == classes[..i];
      ids := ids[classes[i].id := classes[i]];
    }
    assert classes[..|classes|] == classes;
    depth := 0;
    var cur := c;
    while !Rooted(cur.parent) && cur.parent.value in ids && depth < 32
      invariant depth <= 32 && ClassDepth(classes, c) == depth + Steps(ids, cur, 32 - depth)
    {
      cur := ids[cur.parent.value];
      depth := depth + 1;
    }
  }

  /** `f(x)` of the elements that are kept, in order */
  function Select<T>(xs: seq<T>, keep: T -> bool): seq<T> {
    if xs == [] then []
    else Select(xs[..|xs| - 1], keep) + (if keep(xs[|xs| - 1]) then [xs[|xs| - 1]] else [])
  }

  lemma {:induction false} SelectIs<T>(xs: seq<T>, keep: T -> bool, x: T)
    ensures x in Select(xs, keep) <==> x in xs && keep(x)
    ensures multiset(Select(xs, keep))[x] <= multiset(xs)[x]
  {
    if xs != [] {
      SelectIs(xs[..|xs| - 1], keep, x);
      assert xs == xs[..|xs| - 1] + [xs[|xs| - 1]];
    }
  }

  // ----- rendering -----

  const RenderedQdiscs: seq<Word> :=
    ["netem", "tbf", "htb", "fq_codel", "codel", "cake", "sfq", "pfifo", "bfifo",
     "pfifo_head_drop", "pfifo_fast", "prio", "ingress", "clsact"]

  const RenderedFilters: seq<Word> := ["u32", "fw", "flower"]

  function QdiscHead(dev: Word, q: Qdisc): seq<Word> {
    ["tc", "qdisc", "add", "dev", dev]
    + (if q.parent == Some("root") then ["root"] else ["parent", Text(q.parent)])
    + ["handle", q.handle, q.kind]
  }

  /** `add_qdisc` */
  function QdiscCommands(dev: Word, q: Qdisc): seq<Command> {
    if q.kind !in RenderedQdiscs then []
    else if q.kind == "clsact" then [["tc", "qdisc", "add", "dev", dev, "clsact"]]
    else if q.kind == "ingress" then [["tc", "qdisc", "add", "dev", dev, "handle", "ffff:", "ingress"]]
    else [SafeTokens(QdiscHead(dev, q) + q.params)]
  }

  function ClassHead(dev: Word, c: Class): seq<Word> {
    var parent := if Rooted(c.parent) then Text(Major(c.id)) else c.parent.value;
    ["tc", "class", "add", "dev", dev, "parent", parent, "classid", c.id, "htb"]
  }

  function ClassCommand(dev: Word, c: Class): Command {
    SafeTokens(ClassHead(dev, c) + Select(c.tokens, t => t != "level"))
  }

  function FilterCommands(dev: Word, f: Filter, place: seq<Word>): seq<Command> {
    if f.kind !in RenderedFilters then []
    else [SafeTokens(["tc", "filter", "add", "dev", dev] + place + f.body)]
  }

  predicate StartsWith(w: Word, prefix: Word) {
    |prefix| <= |w| && w[..|prefix|] == prefix
  }

  predicate OnIngress(f: Filter) {
    f.parent.Some? && (f.parent.value == "ingress" || StartsWith(f.parent.value, "ffff:"))
  }

  predicate Truthy(w: Option<Word>) {
    w.Some? && w.value != []
  }

  function EgressPlace(root: Option<Qdisc>, f: Filter): seq<Word> {
    if Truthy(f.parent) then ["parent", f.parent.value]
    else if root.Some? && root.value.handle != [] then ["parent", root.value.handle]
    else []
  }

  function EgressCommands(dev: Word, root: Option<Qdisc>, f: Filter): seq<Command> {
    if OnIngress(f) || EgressPlace(root, f) == [] then [] else FilterCommands(dev, f, EgressPlace(root, f))
  }

  function IngressCommands(dev: Word, hooks: seq<Qdisc>, f: Filter): seq<Command> {
    if hooks == [] || !OnIngress(f) then []
    else FilterCommands(dev, f, if hooks[0].kind == "clsact" then ["ingress"] else ["parent", "ffff:"])
  }

  /** What a list of entries gives, one after the other */
  function All<T, U>(xs: seq<T>, render: T -> seq<U>): seq<U> {
    if xs == [] then [] else All(xs[..|xs| - 1], render) + render(xs[|xs| - 1])
  }

  function ClassRender(dev: Word): Class -> seq<Command> {
    c => [ClassCommand(dev, c)]
  }

  function QdiscRender(dev: Word): Qdisc -> seq<Command> {
    q => QdiscCommands(dev, q)
  }

  function EgressRender(dev: Word, root: Option<Qdisc>): Filter -> seq<Command> {
    f => EgressCommands(dev, root, f)
  }

  function IngressRender(dev: Word, hooks: seq<Qdisc>): Filter -> seq<Command> {
    f => IngressCommands(dev, hooks, f)
  }

  function RootQdisc(qdiscs: seq<Qdisc>): Option<Qdisc> {
    if qdiscs == [] then None
    else if qdiscs[0].parent == Some("root") then Some(qdiscs[0])
    else RootQdisc(qdiscs[1..])
  }

  function HtbClasses(d: Device): seq<Class> {
    Select(d.classes, (c: Class) => c.kind == "htb")
  }

  function Hooks(d: Device): seq<Qdisc> {
    Select(d.qdiscs, (q: Qdisc) => q.parent == Some("ingress"))
  }

  function Others(d: Device): seq<Qdisc> {
    Select(d.qdiscs, (q: Qdisc) => q.parent != Some("root") && q.parent != Some("ingress"))
  }

  /** The sort keys */
  function DepthOf(classes: seq<Class>): Class -> int {
    c => ClassDepth(classes, c)
  }

  function QdiscKey(classes: seq<Class>): Qdisc -> int {
    (q: Qdisc) =>
      if q.parent.Some? && q.parent.value in ById(classes)
      then ClassDepth(classes, ById(classes)[q.parent.value]) + 1 else 0
  }

  function SortedClasses(d: Device): seq<Class> {
    SortBy(HtbClasses(d), DepthOf(HtbClasses(d)))
  }

  function SortedOthers(d: Device): seq<Qdisc> {
    SortBy(Others(d), QdiscKey(HtbClasses(d)))
  }

  /** Root qdisc, classes, inner qdiscs, filters, then the hooks and their filters */
  function DeviceCommands(dev: Word, d: Device): seq<Command> {
    var root := RootQdisc(d.qdiscs);
    (if root.Some? then QdiscCommands(dev, root.value) else [])
    + All(SortedClasses(d), ClassRender(dev))
    + All(SortedOthers(d), QdiscRender(dev))
    + All(d.filters, EgressRender(dev, root))
    + All(Hooks(d), QdiscRender(dev))
    + All(d.filters, IngressRender(dev, Hooks(d)))
  }

  method FindRoot(qdiscs: seq<Qdisc>) returns (root: Option<Qdisc>)
    ensures root == RootQdisc(qdiscs)
  {
    for i := 0 to |qdiscs|
      invariant RootQdisc(qdiscs[i..]) == RootQdisc(qdiscs)
    {
      if qdiscs[i].parent == Some("root") {
        return Some(qdiscs[i]);
      }
      assert qdiscs[i..][1..] == qdiscs[i + 1..];
    }
    return None;
  }

  class RenderResult {
    var commands: seq<Command>

    constructor ()
      ensures commands == []
    {
      commands := [];
    }

    method AddQdisc(dev: Word, q: Qdisc)
      modifies this
      ensures commands == old(commands) + QdiscCommands(dev, q)
    {
      if q.kind !in RenderedQdiscs {
        return;
      }
      if q.kind == "clsact" {
        commands := commands + [["tc", "qdisc", "add", "dev", dev, "clsact"]];
        return;
      }
      if q.kind == "ingress" {
        commands := commands + [["tc", "qdisc", "add", "dev", dev, "handle", "ffff:", "ingress"]];
        return;
      }
      var place := if q.parent == Some("root") then ["root"] else ["parent", Text(q.parent)];
      var words := KeepSafe(["tc", "qdisc", "add", "dev", dev] + place + ["handle", q.handle, q.kind] + q.params);
      commands := commands + [words];
    }

    method AddFilter(dev: Word, f: Filter, place: seq<Word>)
      modifies this
      ensures commands == old(commands) + FilterCommands(dev, f, place)
    {
      if f.kind in RenderedFilters {
        var words := KeepSafe(["tc", "filter", "add", "dev", dev] + place + f.body);
        commands := commands + [words];
      }
    }

    /** What the device's entries become is appended; earlier commands stay. */
    method RenderDevice(dev: Word, d: Device)
      modifies this
      ensures commands == old(commands) + DeviceCommands(dev, d)
    {
      hide All, QdiscCommands, SortedClasses, SortedOthers, Hooks, ClassRender, QdiscRender, EgressRender, IngressRender, SortBy, Select;
      var root := FindRoot(d.qdiscs);
      var hooks := Hooks(d);
      ghost var done := [];
      if root.Some? {
        AddQdisc(dev, root.value);
        done := QdiscCommands(dev, root.value);
      }
      assert commands == old(commands) + done;
      var classes := SortedClasses(d);
      AddClasses(dev, classes);
      done := done + All(classes, ClassRender(dev));
      assert commands == old(commands) + done;
      var others := SortedOthers(d);
      AddQdiscs(dev, others);
      done := done + All(others, QdiscRender(dev));
      assert commands == old(commands) + done;
      AddEgress(dev, root, d.filters);
      done := done + All(d.filters, EgressRender(dev, root));
      assert commands == old(commands) + done;
      AddQdiscs(dev, hooks);
      done := done + All(hooks, QdiscRender(dev));
      assert commands == old(commands) + done;
      if hooks != [] {
        AddIngress(dev, hooks, d.filters);
      } else {
        NoIngress(dev, d.filters);
      }
      done := done + All(d.filters, IngressRender(dev, hooks));
      assert commands == old(commands) + done;
    }

    method AddClasses(dev: Word, classes: seq<Class>)
      modifies this
      ensures commands == old(commands) + All(classes, ClassRender(dev))
    {
      var render := ClassRender(dev);
      for i := 0 to |classes|
        invariant commands == old(commands) + All(classes[..i], render)
      {
        assert classes[..i + 1][..i] == classes[..i];
        var words := KeepSafe(ClassHead(dev, classes[i]) + Select(classes[i].tokens, t => t != "level"));
        commands := commands + [words];
      }
      assert classes[..|classes|] == classes;
    }

    method AddQdiscs(dev: Word, qdiscs: seq<Qdisc>)
      modifies this
      ensures commands == old(commands) + All(qdiscs, QdiscRender(dev))
    {
      var render := QdiscRender(dev);
      for i := 0 to |qdiscs|
        invariant commands == old(commands) + All(qdiscs[..i], render)
      {
        assert qdiscs[..i + 1][..i] == qdiscs[..i];
        AddQdisc(dev, qdiscs[i]);
      }
      assert qdiscs[..|qdiscs|] == qdiscs;
    }

    method AddEgress(dev: Word, root: Option<Qdisc>, filters: seq<Filter>)
      modifies this
      ensures commands == old(commands) + All(filters, EgressRender(dev, root))
    {
      var render := EgressRender(dev, root);
      for i := 0 to |filters|
        invariant commands == old(commands) + All(filters[..i], render)
      {
        assert filters[..i + 1][..i] == filters[..i];
        var f := filters[i];
        if !OnIngress(f) {
          var place := EgressPlace(root, f);
          if place != [] {
            AddFilter(dev, f, place);
          }
        }
      }
      assert filters[..|filters|] == filters;
    }

    method AddIngress(dev: Word, hooks: seq<Qdisc>, filters: seq<Filter>)
      requires hooks != []
      modifies this
      ensures commands == old(commands) + All(filters, IngressRender(dev, hooks))
    {
      var render := IngressRender(dev, hooks);
      var place := if hooks[0].kind == "clsact" then ["ingress"] else ["parent", "ffff:"];
      for i := 0 to |filters|
        invariant commands == old(commands) + All(filters[..i], render)
      {
        assert filters[..i + 1][..i] == filters[..i];
        if OnIngress(filters[i]) {
          AddFilter(dev, filters[i], place);
        }
      }
      assert filters[..|filters|] == filters;
    }
  }

  lemma {:induction false} NoIngress(dev: Word, filters: seq<Filter>)
    ensures All(filters, IngressRender(dev, [])) == []
  {
    if filters != [] {
      NoIngress(dev, filters[..|filters| - 1]);
    }
  }
}
