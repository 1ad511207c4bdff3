/**
 What the kernel does with the rendered `tc` commands: each is read word by word, and refused when
 what it names as its parent does not exist.
 */
module TcCommands {
  import opened Wrappers
  import opened TrafficControl

  // ----- reading a command -----

  /** The parent of a root qdisc, and the place of an ingress filter, is `None`. */
  datatype Step =
    | NewQdisc(parent: Option<Word>, handle: Word, kind: Word, params: seq<Word>)
    | NewHook(kind: Word)
    | NewClass(under: Word, id: Word, kind: Word, params: seq<Word>)
    | NewFilter(place: Option<Word>, body: seq<Word>)

  function Read(dev: Word, w: Command): Option<Step> {
    if !(|w| >= 6 && w[0] == "tc" && w[2] == "add" && w[3] == "dev" && w[4] == dev) then None
    else if w[1] == "qdisc" then ReadQdisc(w[5..])
    else if w[1] == "class" then ReadClass(w[5..])
    else if w[1] == "filter" then ReadFilter(w[5..])
    else None
  }

  function ReadQdisc(w: seq<Word>): Option<Step> {
    if w == ["clsact"] then Some(NewHook("clsact"))
    else if w == ["handle", "ffff:", "ingress"] then Some(NewHook("ingress"))
    else if |w| >= 4 && w[0] == "root" && w[1] == "handle" then Some(NewQdisc(None, w[2], w[3], w[4..]))
    else if |w| >= 5 && w[0] == "parent" && w[2] == "handle" then Some(NewQdisc(Some(w[1]), w[3], w[4], w[5..]))
    else None
  }

  function ReadClass(w: seq<Word>): Option<Step> {
    if |w| >= 5 && w[0] == "parent" && w[2] == "classid" then Some(NewClass(w[1], w[3], w[4], w[5..])) else None
  }

  function ReadFilter(w: seq<Word>): Option<Step> {
    if |w| >= 1 && w[0] == "ingress" then Some(NewFilter(None, w[1..]))
    else if |w| >= 2 && w[0] == "parent" then Some(NewFilter(Some(w[1]), w[2..]))
    else None
  }

  // ----- the state of a device -----

  datatype QdiscNode = QdiscNode(kind: Word, parent: Option<Word>, params: seq<Word>)
  datatype ClassNode = ClassNode(parent: Word, params: seq<Word>)

  datatype Kernel = Kernel(qdiscs: map<Word, QdiscNode>, classes: map<Word, ClassNode>, hook: Option<Word>,
                           filters: seq<Step>)

  const Bare: Kernel := Kernel(map[], map[], None, [])

  ghost predicate Taken(k: Kernel, parent: Option<Word>) {
    exists h :: h in k.qdiscs && k.qdiscs[h].parent == parent
  }

  /** A qdisc hangs from an htb class or from a class that another qdisc brings along. */
  predicate Attachable(k: Kernel, p: Word) {
    || p in k.classes
    || (Major(p).Some? && Major(p).value in k.qdiscs && k.qdiscs[Major(p).value].kind != "htb")
  }

  ghost function Exec(k: Kernel, s: Step): Option<Kernel> {
    match s
    case NewQdisc(parent, handle, kind, params) =>
      if handle in k.qdiscs || Taken(k, parent) || (parent.Some? && !Attachable(k, parent.value)) then None
      else Some(k.(qdiscs := k.qdiscs[handle := QdiscNode(kind, parent, params)]))
    case NewHook(kind) =>
      if k.hook.Some? then None else Some(k.(hook := Some(kind)))
    case NewClass(under, id, kind, params) =>
      if kind != "htb" || id in k.classes then None
      else if under in k.classes || (under in k.qdiscs && k.qdiscs[under].kind == "htb")
      then Some(k.(classes := k.classes[id := ClassNode(under, params)]))
      else None
    case NewFilter(place, body) =>
      if PlaceExists(k, place) then Some(k.(filters := k.filters + [s])) else None
  }

  predicate PlaceExists(k: Kernel, place: Option<Word>) {
    || (place.Some? && (place.value in k.classes || place.value in k.qdiscs))
    || ((place.None? || place.value == "ffff:") && k.hook.Some?)
  }

  ghost function Replay(dev: Word, k: Option<Kernel>, cmds: seq<Command>): Option<Kernel> {
    if cmds == [] then k
    else
      var before := Replay(dev, k, cmds[..|cmds| - 1]);
      var step := Read(dev, cmds[|cmds| - 1]);
      if before.None? || step.None? then None else Exec(before.value, step.value)
  }

  lemma {:induction false} ReplayAppend(dev: Word, k: Option<Kernel>, a: seq<Command>, b: seq<Command>)
    ensures Replay(dev, k, a + b) == Replay(dev, Replay(dev, k, a), b)
  {
    if b == [] {
      assert a + b == a;
    } else {
      assert (a + b)[..|a + b| - 1] == a + b[..|b| - 1];
      ReplayAppend(dev, k, a, b[..|b| - 1]);
    }
  }

  // ----- what the rendered commands say -----

  lemma LiteralsAreSafe()
    ensures Safe("tc") && Safe("qdisc") && Safe("class") && Safe("filter") && Safe("add") && Safe("dev")
    ensures Safe("root") && Safe("parent") && Safe("handle") && Safe("classid") && Safe("htb")
    ensures Safe("ingress") && Safe("ffff:")
  {
  }

  lemma SafeHead(head: seq<Word>, rest: seq<Word>)
    requires forall w :: w in head ==> Safe(w)
    ensures SafeTokens(head + rest) == head + SafeTokens(rest)
  {
    SafeTokensAppend(head, rest);
    SafeTokensKeep(head);
  }

  predicate SafeQdisc(q: Qdisc) {
    Safe(q.handle) && Safe(q.kind) && q.parent.Some? && Safe(q.parent.value)
  }

  predicate SafeClass(c: Class) {
    Safe(c.id) && Safe(ParentWord(c))
  }

  function ParentWord(c: Class): Word {
    if Rooted(c.parent) then Text(Major(c.id)) else c.parent.value
  }

  predicate Plain(q: Qdisc) {
    q.kind in RenderedQdiscs && q.kind != "clsact" && q.kind != "ingress"
  }

  function QdiscStep(q: Qdisc): Step {
    NewQdisc(if q.parent == Some("root") then None else q.parent, q.handle, q.kind, SafeTokens(q.params))
  }

  function ClassStep(c: Class): Step {
    NewClass(ParentWord(c), c.id, "htb", SafeTokens(Select(c.tokens, t => t != "level")))
  }

  lemma ReadInner(dev: Word, p: Word, handle: Word, kind: Word, params: seq<Word>)
    ensures Read(dev, ["tc", "qdisc", "add", "dev", dev, "parent", p, "handle", handle, kind] + params)
         == Some(NewQdisc(Some(p), handle, kind, params))
  {
    var w := ["tc", "qdisc", "add", "dev", dev, "parent", p, "handle", handle, kind] + params;
    assert w[5..] == ["parent", p, "handle", handle, kind] + params;
    assert w[5..][5..] == params;
  }

  lemma ReadRoot(dev: Word, handle: Word, kind: Word, params: seq<Word>)
    ensures Read(dev, ["tc", "qdisc", "add", "dev", dev, "root", "handle", handle, kind] + params)
         == Some(NewQdisc(None, handle, kind, params))
  {
    var w := ["tc", "qdisc", "add", "dev", dev, "root", "handle", handle, kind] + params;
    assert w[5..] == ["root", "handle", handle, kind] + params;
    assert w[5..][4..] == params;
  }

  lemma PlainCommand(dev: Word, q: Qdisc)
    requires Plain(q)
    ensures QdiscCommands(dev, q) == [SafeTokens(QdiscHead(dev, q) + q.params)]
  {
  }

  lemma ReadsQdisc(dev: Word, q: Qdisc)
    requires Safe(dev) && SafeQdisc(q) && Plain(q)
    ensures |QdiscCommands(dev, q)| == 1 && Read(dev, QdiscCommands(dev, q)[0]) == Some(QdiscStep(q))
  {
    PlainCommand(dev, q);
    LiteralsAreSafe();
    hide Safe, Read, Plain, QdiscCommands;
    var head := QdiscHead(dev, q);
    SafeHead(head, q.params);
    hide SafeTokens;
    if q.parent == Some("root") {
      assert head == ["tc", "qdisc", "add", "dev", dev, "root", "handle", q.handle, q.kind];
      ReadRoot(dev, q.handle, q.kind, SafeTokens(q.params));
    } else {
      assert head == ["tc", "qdisc", "add", "dev", dev, "parent", q.parent.value, "handle", q.handle, q.kind];
      ReadInner(dev, q.parent.value, q.handle, q.kind, SafeTokens(q.params));
    }
  }

  lemma ReadsHook(dev: Word, q: Qdisc)
    requires q.kind == "clsact" || q.kind == "ingress"
    ensures |QdiscCommands(dev, q)| == 1 && Read(dev, QdiscCommands(dev, q)[0]) == Some(NewHook(q.kind))
  {
    var w := QdiscCommands(dev, q)[0];
    assert w[5..] == if q.kind == "clsact" then ["clsact"] else ["handle", "ffff:", "ingress"];
  }

  lemma ReadNewClass(dev: Word, p: Word, id: Word, kind: Word, params: seq<Word>)
    ensures Read(dev, ["tc", "class", "add", "dev", dev, "parent", p, "classid", id, kind] + params)
         == Some(NewClass(p, id, kind, params))
  {
    var w := ["tc", "class", "add", "dev", dev, "parent", p, "classid", id, kind] + params;
    assert w[5..] == ["parent", p, "classid", id, kind] + params;
    assert w[5..][5..] == params;
  }

  lemma ReadsClass(dev: Word, c: Class)
    requires Safe(dev) && SafeClass(c)
    ensures Read(dev, ClassCommand(dev, c)) == Some(ClassStep(c))
  {
    LiteralsAreSafe();
    hide Safe, Read;
    var head := ClassHead(dev, c);
    var rest := Select(c.tokens, t => t != "level");
    SafeHead(head, rest);
    ReadNewClass(dev, ParentWord(c), c.id, "htb", SafeTokens(rest));
  }

  lemma ReadNewFilter(dev: Word, place: seq<Word>, body: seq<Word>)
    requires place == ["ingress"] || (|place| == 2 && place[0] == "parent")
    ensures Read(dev, ["tc", "filter", "add", "dev", dev] + place + body)
         == Some(NewFilter(if place == ["ingress"] then None else Some(place[1]), body))
  {
    var w := ["tc", "filter", "add", "dev", dev] + place + body;
    if place == ["ingress"] {
      assert w[5..] == ["ingress"] + body && w[5..][1..] == body;
    } else {
      assert w[5..] == ["parent", place[1]] + body && w[5..][2..] == body;
    }
  }

  /** The place of a filter: under a parent, or on the ingress hook */
  lemma ReadsFilter(dev: Word, f: Filter, place: seq<Word>)
    requires Safe(dev) && f.kind in RenderedFilters
    requires place == ["ingress"] || (|place| == 2 && place[0] == "parent" && Safe(place[1]))
    ensures |FilterCommands(dev, f, place)| == 1
    ensures Read(dev, FilterCommands(dev, f, place)[0])
         == Some(NewFilter(if place == ["ingress"] then None else Some(place[1]), SafeTokens(f.body)))
  {
    LiteralsAreSafe();
    hide Safe, Read;
    var head := ["tc", "filter", "add", "dev", dev] + place;
    SafeHead(head, f.body);
    hide SafeTokens;
    ReadNewFilter(dev, place, SafeTokens(f.body));
  }
}
