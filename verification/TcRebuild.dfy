/**
 The whole script of a device: when it can be replayed, and what the replay leaves.
 */
module TcRebuild {
  import opened Wrappers
  import opened Sorting
  import opened TrafficControl
  import opened TcCommands
  import opened TcReplay

  // ----- the rendered inner qdiscs -----

  function IsRendered(): Qdisc -> bool {
    (q: Qdisc) => q.kind in RenderedQdiscs
  }

  function RenderedOthers(d: Device): seq<Qdisc> {
    Select(Others(d), IsRendered())
  }

  function RenderedSorted(d: Device): seq<Qdisc> {
    Select(SortedOthers(d), IsRendered())
  }

  function HandleOf(): Qdisc -> Word {
    (q: Qdisc) => q.handle
  }

  function ParentOf(): Qdisc -> Word {
    (q: Qdisc) => Text(q.parent)
  }

  lemma {:induction false} SelectCount<T>(xs: seq<T>, keep: T -> bool, x: T)
    ensures multiset(Select(xs, keep))[x] == if keep(x) then multiset(xs)[x] else 0
  {
    if xs != [] {
      SelectCount(xs[..|xs| - 1], keep, x);
      assert xs == xs[..|xs| - 1] + [xs[|xs| - 1]];
    }
  }

  lemma SelectPermuted<T(!new)>(xs: seq<T>, ys: seq<T>, keep: T -> bool)
    requires multiset(xs) == multiset(ys)
    ensures multiset(Select(xs, keep)) == multiset(Select(ys, keep))
  {
    var a, b := multiset(Select(xs, keep)), multiset(Select(ys, keep));
    forall x: T
      ensures a[x] == b[x]
    {
      SelectCount(xs, keep, x);
      SelectCount(ys, keep, x);
    }
    assert a == b;
  }

  lemma {:induction false} SelectAscending<T>(xs: seq<T>, keep: T -> bool, key: T -> int)
    requires Ascending(xs, key)
    ensures Ascending(Select(xs, keep), key)
  {
    if xs != [] {
      var front := xs[..|xs| - 1];
      SelectAscending(front, keep, key);
      forall x | x in Select(front, keep)
        ensures key(x) <= key(xs[|xs| - 1])
      {
        SelectIs(front, keep, x);
      }
    }
  }

  lemma {:induction false} SkippedGiveNothing(dev: Word, qs: seq<Qdisc>)
    ensures All(qs, QdiscRender(dev)) == All(Select(qs, IsRendered()), QdiscRender(dev))
  {
    if qs != [] {
      var rest := Select(qs[..|qs| - 1], IsRendered());
      var last := qs[|qs| - 1];
      SkippedGiveNothing(dev, qs[..|qs| - 1]);
      assert (rest + [last])[..|rest|] == rest;
      if last.kind !in RenderedQdiscs {
        assert !IsRendered()(last) && Select(qs, IsRendered()) == rest;
        assert QdiscRender(dev)(last) == [];
      } else {
        hide QdiscCommands;
        assert IsRendered()(last) && Select(qs, IsRendered()) == rest + [last];
      }
    }
  }

  // ----- replaying them -----

  function QdiscNodeOf(q: Qdisc): QdiscNode {
    QdiscNode(q.kind, QdiscStep(q).parent, SafeTokens(q.params))
  }

  /** The qdiscs of a kernel are those of `base` and of a list. */
  ghost predicate HasQdiscs(k: map<Word, QdiscNode>, base: map<Word, QdiscNode>, qs: seq<Qdisc>) {
    && (forall h :: h in base ==> h in k && k[h] == base[h])
    && (forall q :: q in qs ==> q.handle in k && k[q.handle] == QdiscNodeOf(q))
    && (forall h :: h in k ==> h in base || exists q :: q in qs && q.handle == h)
  }

  /** New handles and parents, all different */
  ghost predicate Addable(k: Kernel, qs: seq<Qdisc>) {
    && DistinctKeys(qs, HandleOf()) && DistinctKeys(qs, ParentOf())
    && (forall q :: q in qs ==> SafeQdisc(q) && Plain(q) && q.parent != Some("root") && q.handle !in k.qdiscs)
    && (forall h :: h in k.qdiscs ==> k.qdiscs[h].parent == None)
  }

  lemma AddableFront(k: Kernel, qs: seq<Qdisc>)
    requires qs != [] && Addable(k, qs)
    ensures Addable(k, qs[..|qs| - 1]) && SafeQdisc(qs[|qs| - 1]) && Plain(qs[|qs| - 1])
    ensures forall q :: q in qs[..|qs| - 1] ==> q.handle != qs[|qs| - 1].handle && q.parent != qs[|qs| - 1].parent
  {
    var front, last := qs[..|qs| - 1], qs[|qs| - 1];
    assert last in qs;
    forall i | 0 <= i < |front|
      ensures front[i].handle != last.handle && front[i].parent != last.parent
    {
      assert HandleOf()(qs[i]) != HandleOf()(last) && ParentOf()(qs[i]) != ParentOf()(last);
    }
  }

  /** The qdisc at a place hangs from a class, or from a class that a qdisc brings along which is there already. */
  ghost predicate AttachesAt(k: Kernel, qs: seq<Qdisc>, i: nat)
    requires i < |qs|
  {
    && qs[i].parent.Some?
    && var p := qs[i].parent.value;
    || p in k.classes
    || (Major(p).Some? && Major(p).value in k.qdiscs && k.qdiscs[Major(p).value].kind != "htb")
    || (exists j :: 0 <= j < i && Major(p) == Some(qs[j].handle) && qs[j].kind != "htb")
  }

  ghost predicate AllAttach(k: Kernel, qs: seq<Qdisc>) {
    forall i :: 0 <= i < |qs| ==> AttachesAt(k, qs, i)
  }

  lemma AllAttachFront(k: Kernel, qs: seq<Qdisc>)
    requires qs != []
    ensures AllAttach(k, qs) <==> AllAttach(k, qs[..|qs| - 1]) && AttachesAt(k, qs, |qs| - 1)
  {
    var front := qs[..|qs| - 1];
    hide Major;
    forall i | 0 <= i < |front|
      ensures AttachesAt(k, front, i) <==> AttachesAt(k, qs, i)
    {
      assert forall j :: 0 <= j < i ==> front[j] == qs[j];
    }
  }

  /** Qdiscs are added one after the other as long as each has something to hang from. */
  lemma {:induction false} ReplayQdiscs(dev: Word, k: Kernel, qs: seq<Qdisc>)
    requires Safe(dev) && Addable(k, qs)
    ensures var r := Replay(dev, Some(k), All(qs, QdiscRender(dev)));
      && (r.Some? <==> AllAttach(k, qs))
      && (r.Some? ==> r.value == k.(qdiscs := r.value.qdiscs) && HasQdiscs(r.value.qdiscs, k.qdiscs, qs))
  {
    hide Addable, AllAttach, AttachesAt, HasQdiscs, Exec, Read, QdiscCommands, Safe, SafeQdisc, Plain;
    if qs == [] {
      NoQdiscs(k);
    } else {
      var front, q := qs[..|qs| - 1], qs[|qs| - 1];
      AddableFront(k, qs);
      AllAttachFront(k, qs);
      ReplayQdiscs(dev, k, front);
      ReadsQdisc(dev, q);
      ReplayOne(dev, Some(k), All(front, QdiscRender(dev)), QdiscCommands(dev, q)[0]);
      assert All(qs, QdiscRender(dev)) == All(front, QdiscRender(dev)) + [QdiscCommands(dev, q)[0]];
      var r := Replay(dev, Some(k), All(front, QdiscRender(dev)));
      if r.Some? {
        QdiscAdded(k, r.value, qs);
      }
    }
  }

  lemma NoQdiscs(k: Kernel)
    ensures AllAttach(k, []) && HasQdiscs(k.qdiscs, k.qdiscs, [])
  {
  }

  lemma QdiscAdded(k: Kernel, k1: Kernel, qs: seq<Qdisc>)
    requires qs != [] && Addable(k, qs) && HasQdiscs(k1.qdiscs, k.qdiscs, qs[..|qs| - 1]) && k1 == k.(qdiscs := k1.qdiscs)
    ensures var q := qs[|qs| - 1]; var k2 := Exec(k1, QdiscStep(q));
      && (k2.Some? <==> AttachesAt(k, qs, |qs| - 1))
      && (k2.Some? ==> k2.value == k1.(qdiscs := k2.value.qdiscs) && HasQdiscs(k2.value.qdiscs, k.qdiscs, qs))
  {
    var front, q := qs[..|qs| - 1], qs[|qs| - 1];
    assert qs == front + [q];
    NothingThere(k, k1, qs);
    AttachableIs(k, k1, qs);
    hide Addable, Taken, HasQdiscs, AttachesAt, Attachable, SafeTokens;
    MoreQdiscs(k1.qdiscs, k.qdiscs, front, q);
  }

  lemma AttachableIs(k: Kernel, k1: Kernel, qs: seq<Qdisc>)
    requires qs != [] && Addable(k, qs) && HasQdiscs(k1.qdiscs, k.qdiscs, qs[..|qs| - 1]) && k1.classes == k.classes
    requires qs[|qs| - 1].parent.Some?
    ensures Attachable(k1, qs[|qs| - 1].parent.value) <==> AttachesAt(k, qs, |qs| - 1)
  {
    var front, p := qs[..|qs| - 1], qs[|qs| - 1].parent.value;
    FrontIsNew(k, qs);
    hide Major, Addable, HasQdiscs, AttachesAt, Attachable;
    if Major(p).Some? {
      BringsClasses(k1.qdiscs, k.qdiscs, front, Major(p).value);
    }
    AttachableNow(k, k1, qs, Major(p));
  }

  lemma FrontIsNew(k: Kernel, qs: seq<Qdisc>)
    requires qs != [] && Addable(k, qs)
    ensures forall q :: q in qs[..|qs| - 1] ==> q.handle !in k.qdiscs
  {
    hide Plain, SafeQdisc, DistinctKeys;
    assert forall q :: q in qs[..|qs| - 1] ==> q in qs;
  }

  lemma AttachableNow(k: Kernel, k1: Kernel, qs: seq<Qdisc>, m: Option<Word>)
    requires qs != [] && k1.classes == k.classes && qs[|qs| - 1].parent.Some? && m == Major(qs[|qs| - 1].parent.value)
    requires var front := qs[..|qs| - 1];
             m.Some? ==>
               (m.value in k1.qdiscs && k1.qdiscs[m.value].kind != "htb" <==>
                 (m.value in k.qdiscs && k.qdiscs[m.value].kind != "htb")
                 || exists j :: 0 <= j < |front| && m.value == front[j].handle && front[j].kind != "htb")
    ensures Attachable(k1, qs[|qs| - 1].parent.value) <==> AttachesAt(k, qs, |qs| - 1)
  {
    hide Major;
    var front := qs[..|qs| - 1];
    assert forall j :: 0 <= j < |front| ==> front[j] == qs[j];
  }

  lemma BringsClasses(m: map<Word, QdiscNode>, base: map<Word, QdiscNode>, qs: seq<Qdisc>, h: Word)
    requires HasQdiscs(m, base, qs) && forall q :: q in qs ==> q.handle !in base
    ensures h in m && m[h].kind != "htb" <==>
            (h in base && base[h].kind != "htb") || exists j :: 0 <= j < |qs| && h == qs[j].handle && qs[j].kind != "htb"
  {
    forall q | q in qs
      ensures QdiscNodeOf(q).kind == q.kind
    {
    }
    hide QdiscNodeOf;
    if h in m && h !in base {
      var q :| q in qs && q.handle == h;
      var j :| 0 <= j < |qs| && qs[j] == q;
      assert m[h].kind == qs[j].kind;
    }
  }

  lemma MoreQdiscs(m: map<Word, QdiscNode>, base: map<Word, QdiscNode>, qs: seq<Qdisc>, q: Qdisc)
    requires HasQdiscs(m, base, qs) && q.handle !in m
    ensures HasQdiscs(m[q.handle := QdiscNodeOf(q)], base, qs + [q])
  {
    hide QdiscNodeOf;
    assert q in qs + [q] && forall o :: o in qs ==> o in qs + [q];
  }

  lemma NothingThere(k: Kernel, k1: Kernel, qs: seq<Qdisc>)
    requires qs != [] && Addable(k, qs) && HasQdiscs(k1.qdiscs, k.qdiscs, qs[..|qs| - 1])
    ensures var q := qs[|qs| - 1]; q.handle !in k1.qdiscs && !Taken(k1, q.parent) && q.parent.Some? && q.parent != Some("root")
  {
    var front, q := qs[..|qs| - 1], qs[|qs| - 1];
    AddableFront(k, qs);
    assert q in qs && forall o :: o in front ==> o in qs;
    hide Plain, SafeTokens, DistinctKeys, Safe;
    forall h | h in k1.qdiscs
      ensures k1.qdiscs[h].parent != q.parent
    {
      if h !in k.qdiscs {
        var o :| o in front && o.handle == h;
        assert k1.qdiscs[h] == QdiscNodeOf(o);
      }
    }
  }

  // ----- filters and hooks -----

  /** Every filter is skipped, or gives one command that adds it at a place that exists. */
  ghost predicate Filterable(dev: Word, k: Kernel, f: Filter, render: Filter -> seq<Command>, steps: Filter -> seq<Step>) {
    || (render(f) == [] && steps(f) == [])
    || (&& |render(f)| == 1 && |steps(f)| == 1 && steps(f)[0].NewFilter?
        && Read(dev, render(f)[0]) == Some(steps(f)[0]) && PlaceExists(k, steps(f)[0].place))
  }

  lemma {:induction false} ReplayFilters(dev: Word, k: Kernel, fs: seq<Filter>,
                                         render: Filter -> seq<Command>, steps: Filter -> seq<Step>)
    requires forall f :: f in fs ==> Filterable(dev, k, f, render, steps)
    ensures Replay(dev, Some(k), All(fs, render)) == Some(k.(filters := k.filters + All(fs, steps)))
  {
    if fs == [] {
      assert k.filters + [] == k.filters;
    } else {
      var front, f := fs[..|fs| - 1], fs[|fs| - 1];
      ReplayFilters(dev, k, front, render, steps);
      assert Filterable(dev, k, f, render, steps);
      FilterStep(dev, k, front, f, render, steps);
    }
  }

  lemma FilterStep(dev: Word, k: Kernel, front: seq<Filter>, f: Filter,
                   render: Filter -> seq<Command>, steps: Filter -> seq<Step>)
    requires Filterable(dev, k, f, render, steps)
    requires Replay(dev, Some(k), All(front, render)) == Some(k.(filters := k.filters + All(front, steps)))
    ensures Replay(dev, Some(k), All(front, render) + render(f)) == Some(k.(filters := k.filters + (All(front, steps) + steps(f))))
  {
    hide Read, All, Major;
    if render(f) == [] {
      assert All(front, render) + [] == All(front, render);
      assert All(front, steps) + [] == All(front, steps);
    } else {
      ReplayOne(dev, Some(k), All(front, render), render(f)[0]);
      assert render(f) == [render(f)[0]] && steps(f) == [steps(f)[0]];
      hide Replay;
      assert k.filters + (All(front, steps) + steps(f)) == (k.filters + All(front, steps)) + [steps(f)[0]];
    }
  }

  function EgressSteps(root: Qdisc): Filter -> seq<Step> {
    (f: Filter) =>
      var place := EgressPlace(Some(root), f);
      if f.kind !in RenderedFilters || OnIngress(f) || place == [] then []
      else [NewFilter(Some(place[1]), SafeTokens(f.body))]
  }

  function IngressSteps(hooks: seq<Qdisc>): Filter -> seq<Step> {
    (f: Filter) =>
      if f.kind !in RenderedFilters || !OnIngress(f) || hooks == [] then []
      else [NewFilter(if hooks[0].kind == "clsact" then None else Some("ffff:"), SafeTokens(f.body))]
  }

  // ----- the whole script -----

  /** Where a filter that is not on the hook hangs: a class, or the qdisc with a handle */
  predicate Known(d: Device, root: Qdisc, place: Word) {
    || (exists c :: c in HtbClasses(d) && c.id == place)
    || (exists q :: q in [root] + RenderedOthers(d) && q.handle == place)
  }

  /** Different handles and parents, at most one hook, filters at known places, and only names that may reach
      the shell */
  ghost predicate Fits(dev: Word, d: Device, root: Qdisc) {
    && Safe(dev) && RootQdisc(d.qdiscs) == Some(root)
    && (forall q :: q in RenderedOthers(d) ==> SafeQdisc(q) && Plain(q) && q.handle != root.handle)
    && DistinctKeys(RenderedOthers(d), HandleOf()) && DistinctKeys(RenderedOthers(d), ParentOf())
    && |Hooks(d)| <= 1 && (forall q :: q in Hooks(d) ==> q.kind == "clsact" || q.kind == "ingress")
    && (forall f :: f in d.filters && f.kind in RenderedFilters && !OnIngress(f) && EgressPlace(Some(root), f) != [] ==>
          Safe(EgressPlace(Some(root), f)[1]) && Known(d, root, EgressPlace(Some(root), f)[1]))
  }

  /** A device with a tree of classes under an htb */
  ghost predicate Renderable(dev: Word, d: Device, root: Qdisc) {
    ClassTree(d, root) && Fits(dev, d, root)
  }

  /** Every rendered inner qdisc is attached to an htb class. */
  ghost predicate Attached(d: Device) {
    forall q :: q in RenderedOthers(d) ==> q.parent.Some? && q.parent.value in ById(HtbClasses(d))
  }

  /** The kernel holds the htb classes, the rendered qdiscs, the hook and the filters of the device,
      and nothing else. */
  ghost predicate Rebuilt(k: Kernel, d: Device, root: Qdisc) {
    && HasClasses(k.classes, HtbClasses(d))
    && HasQdiscs(k.qdiscs, map[root.handle := QdiscNodeOf(root)], RenderedOthers(d))
    && k.hook == (if Hooks(d) == [] then None else Some(Hooks(d)[0].kind))
    && k.filters == All(d.filters, EgressSteps(root)) + All(d.filters, IngressSteps(Hooks(d)))
  }

  function TreeCommands(dev: Word, d: Device, root: Qdisc): seq<Command> {
    QdiscCommands(dev, root) + All(SortedClasses(d), ClassRender(dev))
  }

  lemma {:induction false} RootIs(qdiscs: seq<Qdisc>, root: Qdisc)
    requires RootQdisc(qdiscs) == Some(root)
    ensures root.parent == Some("root")
  {
    if qdiscs[0].parent != Some("root") {
      RootIs(qdiscs[1..], root);
    }
  }

  lemma HtbIsPlain(root: Qdisc)
    requires root.kind == "htb"
    ensures Plain(root)
  {
    assert RenderedQdiscs[2] == "htb";
  }

  /** The root and its classes always come back. */
  lemma TreeReplayed(dev: Word, d: Device, root: Qdisc) returns (k: Kernel)
    requires Safe(dev) && ClassTree(d, root)
    ensures Replay(dev, Some(Bare), TreeCommands(dev, d, root)) == Some(k)
    ensures k.qdiscs == map[root.handle := QdiscNodeOf(root)] && HasClasses(k.classes, HtbClasses(d))
    ensures QdiscNodeOf(root).parent == None && QdiscNodeOf(root).kind == "htb"
    ensures k.hook == None && k.filters == []
  {
    RootIs(d.qdiscs, root);
    HtbIsPlain(root);
    SortedOrdered(d, root);
    assert root.kind == "htb" && SafeQdisc(root);
    hide ClassTree, SafeQdisc, Safe, Plain, QdiscCommands, HtbClasses, SortedClasses, ClassesOrdered, SafeTokens;
    ReadsQdisc(dev, root);
    var cmds := QdiscCommands(dev, root);
    var k0 := Bare.(qdiscs := map[root.handle := QdiscNodeOf(root)]);
    ReplayOne(dev, Some(Bare), [], cmds[0]);
    assert [] + [cmds[0]] == cmds;
    assert Replay(dev, Some(Bare), cmds) == Some(k0);
    k := ReplayClasses(dev, k0, root.handle, SortedClasses(d));
    ReplayAppend(dev, Some(Bare), cmds, All(SortedClasses(d), ClassRender(dev)));
    SameClasses(k.classes, SortedClasses(d), HtbClasses(d));
  }

  lemma SameClasses(k: map<Word, ClassNode>, cs: seq<Class>, cs2: seq<Class>)
    requires HasClasses(k, cs) && forall c :: c in cs <==> c in cs2
    ensures HasClasses(k, cs2)
  {
    hide ClassNodeOf;
  }
}
