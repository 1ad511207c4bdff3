/**
 A rendered script rebuilds its device exactly when every rendered inner qdisc is attached to an htb
 class.
 */
module TcTheorem {
  import opened Wrappers
  import opened Sorting
  import opened TrafficControl
  import opened TcCommands
  import opened TcReplay
  import opened TcRebuild

  // ----- the qdiscs in emitted order -----

  lemma OthersAre(d: Device, q: Qdisc)
    requires q in Others(d)
    ensures q.parent != Some("root") && q.parent != Some("ingress")
  {
    SelectIs(d.qdiscs, (q: Qdisc) => q.parent != Some("root") && q.parent != Some("ingress"), q);
  }

  lemma SortedSelected(d: Device)
    ensures multiset(RenderedSorted(d)) == multiset(RenderedOthers(d))
    ensures Ascending(RenderedSorted(d), QdiscKey(HtbClasses(d)))
  {
    hide SortBy, Ascending, Select, Others;
    SortByIs(Others(d), QdiscKey(HtbClasses(d)), 0);
    SelectPermuted(SortedOthers(d), Others(d), IsRendered());
    SelectAscending(SortedOthers(d), IsRendered(), QdiscKey(HtbClasses(d)));
  }

  lemma RenderedAre(d: Device, q: Qdisc)
    requires q in RenderedOthers(d)
    ensures q.parent != Some("root")
  {
    SelectIs(Others(d), IsRendered(), q);
    OthersAre(d, q);
  }

  /** The emitted qdiscs are new to a kernel that holds the tree. */
  lemma SortedAddable(dev: Word, d: Device, root: Qdisc, k: Kernel)
    requires Fits(dev, d, root)
    requires k.qdiscs == map[root.handle := QdiscNodeOf(root)]
    requires QdiscNodeOf(root).parent == None
    ensures Addable(k, RenderedSorted(d))
    ensures forall q :: q in RenderedSorted(d) <==> q in RenderedOthers(d)
  {
    hide RenderedSorted, RenderedOthers, SafeQdisc, Plain, QdiscNodeOf, ClassTree, Hooks, OnIngress, EgressPlace, Known;
    SortedSelected(d);
    SameElements(RenderedOthers(d), RenderedSorted(d));
    DistinctPermuted(RenderedOthers(d), RenderedSorted(d), HandleOf());
    DistinctPermuted(RenderedOthers(d), RenderedSorted(d), ParentOf());
    forall q | q in RenderedSorted(d)
      ensures SafeQdisc(q) && Plain(q) && q.parent != Some("root") && q.handle !in k.qdiscs
    {
      RenderedAre(d, q);
    }
  }

  // ----- a qdisc under a qdisc comes too early -----

  /** The attached qdiscs come last. */
  ghost predicate AttachedLast(k: Kernel, qs: seq<Qdisc>) {
    forall i, j :: 0 <= i < j < |qs| && qs[i].parent.Some? && qs[j].parent.Some? && qs[i].parent.value in k.classes ==>
      qs[j].parent.value in k.classes
  }

  lemma SortedAttachedLast(d: Device, k: Kernel)
    requires HasClasses(k.classes, HtbClasses(d))
    ensures AttachedLast(k, RenderedSorted(d))
  {
    SortedSelected(d);
    var qs := RenderedSorted(d);
    var key := QdiscKey(HtbClasses(d));
    forall q: Qdisc | q.parent.Some?
      ensures q.parent.value in k.classes <==> key(q) > 0
    {
      ByIdIs(HtbClasses(d), q.parent.value);
    }
    hide QdiscKey, RenderedSorted, HasClasses, HtbClasses;
    forall i, j | 0 <= i < j < |qs| && qs[i].parent.Some? && qs[j].parent.Some? && qs[i].parent.value in k.classes
      ensures qs[j].parent.value in k.classes
    {
      assert key(qs[i]) <= key(qs[j]);
    }
  }

  /** Under an htb, qdiscs that attach hang from classes: the first one does, and the others come last. */
  lemma AttachToClasses(k: Kernel, qs: seq<Qdisc>)
    requires Addable(k, qs) && AttachedLast(k, qs) && AllAttach(k, qs)
    requires forall h :: h in k.qdiscs ==> k.qdiscs[h].kind == "htb"
    ensures forall q :: q in qs ==> q.parent.Some? && q.parent.value in k.classes
  {
    hide Major, Addable;
    if qs != [] {
      assert AttachesAt(k, qs, 0) && qs[0].parent.value in k.classes;
      forall q | q in qs
        ensures q.parent.Some? && q.parent.value in k.classes
      {
        var i :| 0 <= i < |qs| && qs[i] == q;
        assert AttachesAt(k, qs, i);
      }
    }
  }

  // ----- hooks and filters -----

  lemma EgressFilterable(dev: Word, d: Device, root: Qdisc, k: Kernel, f: Filter)
    requires Fits(dev, d, root) && f in d.filters
    requires HasClasses(k.classes, HtbClasses(d))
    requires HasQdiscs(k.qdiscs, map[root.handle := QdiscNodeOf(root)], RenderedOthers(d))
    ensures Filterable(dev, k, f, EgressRender(dev, Some(root)), EgressSteps(root))
  {
    hide SafeTokens, Safe, ClassTree, Plain, SafeQdisc, DistinctKeys, RenderedOthers, Hooks, Read, HtbClasses, StartsWith;
    var place := EgressPlace(Some(root), f);
    if f.kind in RenderedFilters && !OnIngress(f) && place != [] {
      ReadsFilter(dev, f, place);
      hide FilterCommands, RenderedFilters;
      assert Known(d, root, place[1]);
      KnownExists(d, root, k, place[1]);
      assert place != ["ingress"];
    }
  }

  lemma KnownExists(d: Device, root: Qdisc, k: Kernel, place: Word)
    requires Known(d, root, place) && HasClasses(k.classes, HtbClasses(d))
    requires HasQdiscs(k.qdiscs, map[root.handle := QdiscNodeOf(root)], RenderedOthers(d))
    ensures place in k.classes || place in k.qdiscs
  {
    hide QdiscNodeOf, ClassNodeOf, RenderedOthers, HtbClasses;
    if c :| c in HtbClasses(d) && c.id == place {
    } else {
      var q :| q in [root] + RenderedOthers(d) && q.handle == place;
      if q != root {
        assert q in RenderedOthers(d);
      }
    }
  }

  lemma IngressFilterable(dev: Word, hooks: seq<Qdisc>, k: Kernel, f: Filter)
    requires Safe(dev) && (hooks != [] ==> k.hook.Some?)
    ensures Filterable(dev, k, f, IngressRender(dev, hooks), IngressSteps(hooks))
  {
    if f.kind in RenderedFilters && OnIngress(f) && hooks != [] {
      LiteralsAreSafe();
      hide Safe, SafeTokens, Read;
      ReadsFilter(dev, f, if hooks[0].kind == "clsact" then ["ingress"] else ["parent", "ffff:"]);
    }
  }

  lemma ReplayHooks(dev: Word, k: Kernel, hooks: seq<Qdisc>)
    requires |hooks| <= 1 && k.hook == None && forall q :: q in hooks ==> q.kind == "clsact" || q.kind == "ingress"
    ensures Replay(dev, Some(k), All(hooks, QdiscRender(dev)))
         == Some(k.(hook := if hooks == [] then None else Some(hooks[0].kind)))
  {
    if hooks == [] {
      assert k.(hook := None) == k;
    } else {
      ReadsHook(dev, hooks[0]);
      assert hooks[..0] == [];
      assert All(hooks, QdiscRender(dev)) == [] + [QdiscCommands(dev, hooks[0])[0]];
      ReplayOne(dev, Some(k), [], QdiscCommands(dev, hooks[0])[0]);
    }
  }

  // ----- the theorem -----

  function Script(dev: Word, d: Device, root: Qdisc): seq<seq<Command>> {
    [TreeCommands(dev, d, root), All(SortedOthers(d), QdiscRender(dev)), All(d.filters, EgressRender(dev, Some(root))),
     All(Hooks(d), QdiscRender(dev)), All(d.filters, IngressRender(dev, Hooks(d)))]
  }

  lemma ScriptIs(dev: Word, d: Device, root: Qdisc)
    requires RootQdisc(d.qdiscs) == Some(root)
    ensures var s := Script(dev, d, root);
            DeviceCommands(dev, d) == s[0] + s[1] + s[2] + s[3] + s[4]
  {
  }

  lemma ReplayNothing(dev: Word, a: seq<Command>, b: seq<Command>)
    requires Replay(dev, Some(Bare), a).None?
    ensures Replay(dev, Some(Bare), a + b).None?
  {
    ReplayAppend(dev, Some(Bare), a, b);
    NoneStays(dev, b);
  }

  lemma {:induction false} NoneStays(dev: Word, cmds: seq<Command>)
    ensures Replay(dev, None, cmds).None?
  {
    if cmds != [] {
      NoneStays(dev, cmds[..|cmds| - 1]);
    }
  }

  /** When all are attached: no command names a parent that does not exist yet, and the result is the
      device. */
  lemma RebuildsAttached(dev: Word, d: Device, root: Qdisc) returns (k: Kernel)
    requires Renderable(dev, d, root) && Attached(d)
    ensures Replay(dev, Some(Bare), DeviceCommands(dev, d)) == Some(k) && Rebuilt(k, d, root)
  {
    ScriptIs(dev, d, root);
    var s := Script(dev, d, root);
    var k1 := TreeReplayed(dev, d, root);
    var k2 := OthersReplayed(dev, d, root, k1);
    var k4 := FiltersReplayed(dev, d, root, k2, k1);
    hide Renderable, Fits, Attached, Script, HasClasses, HasQdiscs, Rebuilt, Replay;
    k := k4;
    ReplayAppend(dev, Some(Bare), s[0], s[1]);
    ReplayAppend(dev, Some(Bare), s[0] + s[1], s[2]);
    ReplayAppend(dev, Some(Bare), s[0] + s[1] + s[2], s[3]);
    ReplayAppend(dev, Some(Bare), s[0] + s[1] + s[2] + s[3], s[4]);
  }

  lemma OthersReplayed(dev: Word, d: Device, root: Qdisc, k: Kernel) returns (k2: Kernel)
    requires Renderable(dev, d, root) && Attached(d)
    requires k.qdiscs == map[root.handle := QdiscNodeOf(root)] && HasClasses(k.classes, HtbClasses(d))
    requires QdiscNodeOf(root).parent == None && QdiscNodeOf(root).kind == "htb"
    ensures Replay(dev, Some(k), All(SortedOthers(d), QdiscRender(dev))) == Some(k2)
    ensures k2 == k.(qdiscs := k2.qdiscs) && HasQdiscs(k2.qdiscs, k.qdiscs, RenderedOthers(d))
  {
    SortedAddable(dev, d, root, k);
    assert Safe(dev);
    hide Renderable, Fits, Addable, HasQdiscs, QdiscNodeOf, Replay, Major;
    SkippedGiveNothing(dev, SortedOthers(d));
    forall i | 0 <= i < |RenderedSorted(d)|
      ensures AttachesAt(k, RenderedSorted(d), i)
    {
      var q := RenderedSorted(d)[i];
      assert q in RenderedOthers(d);
      ByIdIs(HtbClasses(d), q.parent.value);
    }
    ReplayQdiscs(dev, k, RenderedSorted(d));
    k2 := Replay(dev, Some(k), All(RenderedSorted(d), QdiscRender(dev))).value;
    SameQdiscs(k2.qdiscs, k.qdiscs, RenderedSorted(d), RenderedOthers(d));
  }

  lemma SameQdiscs(k: map<Word, QdiscNode>, base: map<Word, QdiscNode>, qs: seq<Qdisc>, qs2: seq<Qdisc>)
    requires HasQdiscs(k, base, qs) && forall q :: q in qs <==> q in qs2
    ensures HasQdiscs(k, base, qs2)
  {
    hide QdiscNodeOf;
  }

  lemma {:induction false} FiltersReplayed(dev: Word, d: Device, root: Qdisc, k: Kernel, tree: Kernel) returns (k2: Kernel)
    requires Fits(dev, d, root)
    requires k == tree.(qdiscs := k.qdiscs) && tree.hook == None && tree.filters == []
    requires HasClasses(tree.classes, HtbClasses(d))
    requires HasQdiscs(k.qdiscs, map[root.handle := QdiscNodeOf(root)], RenderedOthers(d))
    ensures var k3 := Replay(dev, Some(k), All(d.filters, EgressRender(dev, Some(root))));
            var k4 := Replay(dev, k3, All(Hooks(d), QdiscRender(dev)));
            Replay(dev, k4, All(d.filters, IngressRender(dev, Hooks(d)))) == Some(k2)
    ensures Rebuilt(k2, d, root)
  {
    FitFacts(dev, d, root);
    EgressReplayed(dev, d, root, k);
    hide Renderable, Fits, HasClasses, HasQdiscs, Filterable, Replay, Safe, EgressRender, EgressSteps, IngressRender, IngressSteps,
         Hooks, All;
    var egress := All(d.filters, EgressSteps(root));
    assert [] + egress == egress;
    var k3 := k.(filters := egress);
    ReplayHooks(dev, k3, Hooks(d));
    var k4 := k3.(hook := if Hooks(d) == [] then None else Some(Hooks(d)[0].kind));
    IngressReplayed(dev, Hooks(d), k4, d.filters);
    k2 := k4.(filters := egress + All(d.filters, IngressSteps(Hooks(d))));
  }

  lemma EgressReplayed(dev: Word, d: Device, root: Qdisc, k: Kernel)
    requires Fits(dev, d, root)
    requires HasClasses(k.classes, HtbClasses(d))
    requires HasQdiscs(k.qdiscs, map[root.handle := QdiscNodeOf(root)], RenderedOthers(d))
    ensures Replay(dev, Some(k), All(d.filters, EgressRender(dev, Some(root))))
         == Some(k.(filters := k.filters + All(d.filters, EgressSteps(root))))
  {
    hide Renderable, Fits, HasClasses, HasQdiscs, Filterable, Replay, EgressRender, EgressSteps;
    forall f | f in d.filters
      ensures Filterable(dev, k, f, EgressRender(dev, Some(root)), EgressSteps(root))
    {
      EgressFilterable(dev, d, root, k, f);
    }
    ReplayFilters(dev, k, d.filters, EgressRender(dev, Some(root)), EgressSteps(root));
  }

  lemma IngressReplayed(dev: Word, hooks: seq<Qdisc>, k: Kernel, fs: seq<Filter>)
    requires Safe(dev) && (hooks != [] ==> k.hook.Some?)
    ensures Replay(dev, Some(k), All(fs, IngressRender(dev, hooks)))
         == Some(k.(filters := k.filters + All(fs, IngressSteps(hooks))))
  {
    hide Safe, Filterable, Replay, IngressRender, IngressSteps;
    forall f | f in fs
      ensures Filterable(dev, k, f, IngressRender(dev, hooks), IngressSteps(hooks))
    {
      IngressFilterable(dev, hooks, k, f);
    }
    ReplayFilters(dev, k, fs, IngressRender(dev, hooks), IngressSteps(hooks));
  }

  lemma FitFacts(dev: Word, d: Device, root: Qdisc)
    requires Fits(dev, d, root)
    ensures Safe(dev) && |Hooks(d)| <= 1 && forall q :: q in Hooks(d) ==> q.kind == "clsact" || q.kind == "ingress"
    ensures RootQdisc(d.qdiscs) == Some(root)
    ensures forall q :: q in RenderedOthers(d) ==> SafeQdisc(q) && q.parent.Some?
  {
  }

  /** The replay of the script succeeds exactly when all are attached. */
  lemma RebuildsExactly(dev: Word, d: Device, root: Qdisc)
    requires Renderable(dev, d, root)
    ensures Replay(dev, Some(Bare), DeviceCommands(dev, d)).Some? <==> Attached(d)
  {
    if Attached(d) {
      var k := RebuildsAttached(dev, d, root);
    } else {
      NotRebuilt(dev, d, root);
    }
  }

  lemma NotRebuilt(dev: Word, d: Device, root: Qdisc)
    requires Renderable(dev, d, root) && !Attached(d)
    ensures Replay(dev, Some(Bare), DeviceCommands(dev, d)).None?
  {
    FitFacts(dev, d, root);
    hide Renderable, Fits, Attached, Replay, Safe, ClassTree, RootQdisc;
    ScriptIs(dev, d, root);
    var k := TreeReplayed(dev, d, root);
    SortedAddable(dev, d, root, k);
    SortedAttachedLast(d, k);
    SkippedGiveNothing(dev, SortedOthers(d));
    ReplayQdiscs(dev, k, RenderedSorted(d));
    if Replay(dev, Some(k), All(SortedOthers(d), QdiscRender(dev))).Some? {
      AttachToClasses(k, RenderedSorted(d));
      NowAttached(d, k);
    }
    var s := Script(dev, d, root);
    hide Script;
    ReplayAppend(dev, Some(Bare), s[0], s[1]);
    ReplayNothing(dev, s[0] + s[1], s[2]);
    ReplayNothing(dev, s[0] + s[1] + s[2], s[3]);
    ReplayNothing(dev, s[0] + s[1] + s[2] + s[3], s[4]);
  }

  lemma NowAttached(d: Device, k: Kernel)
    requires HasClasses(k.classes, HtbClasses(d))
    requires forall q :: q in RenderedOthers(d) ==> q.parent.Some? && q.parent.value in k.classes
    ensures Attached(d)
  {
    forall q | q in RenderedOthers(d)
      ensures q.parent.value in ById(HtbClasses(d))
    {
      ByIdIs(HtbClasses(d), q.parent.value);
    }
  }

  // ----- a device of each kind -----

  /** An htb with one class, a prio under the class, and, when `nested`, an sfq under the prio */
  function SmallDevice(nested: bool): Device {
    Device([SmallRoot, SmallPrio] + (if nested then [SmallSfq] else []), [SmallClass], [])
  }

  const SmallRoot: Qdisc := Qdisc("htb", "1:", Some("root"), [])
  const SmallClass: Class := Class("htb", "1:10", Some("1:"), [])
  const SmallPrio: Qdisc := Qdisc("prio", "2:", Some("1:10"), [])
  const SmallSfq: Qdisc := Qdisc("sfq", "3:", Some("2:1"), [])

  lemma SelectNext<T>(xs: seq<T>, x: T, keep: T -> bool)
    ensures Select(xs + [x], keep) == Select(xs, keep) + (if keep(x) then [x] else [])
  {
    assert (xs + [x])[..|xs|] == xs;
  }

  lemma SelectThree<T>(a: T, b: T, c: seq<T>, keep: T -> bool)
    requires |c| <= 1
    ensures Select([a, b] + c, keep)
         == (if keep(a) then [a] else []) + (if keep(b) then [b] else []) + (if c != [] && keep(c[0]) then c else [])
  {
    SelectNext([], a, keep);
    SelectNext([a], b, keep);
    assert [] + [a] == [a] && [a] + [b] == [a, b] && [a, b] + [] == [a, b];
    if c != [] {
      SelectNext([a, b], c[0], keep);
      assert c == [c[0]];
    }
  }

  lemma SmallParts(nested: bool)
    ensures var d := SmallDevice(nested);
      && HtbClasses(d) == [SmallClass] && Hooks(d) == [] && RootQdisc(d.qdiscs) == Some(SmallRoot)
      && RenderedOthers(d) == [SmallPrio] + (if nested then [SmallSfq] else [])
  {
    var rest := if nested then [SmallSfq] else [];
    var other := (q: Qdisc) => q.parent != Some("root") && q.parent != Some("ingress");
    SelectNext([], SmallClass, (c: Class) => c.kind == "htb");
    assert [] + [SmallClass] == [SmallClass];
    SelectThree(SmallRoot, SmallPrio, rest, (q: Qdisc) => q.parent == Some("ingress"));
    SelectThree(SmallRoot, SmallPrio, rest, other);
    assert Others(SmallDevice(nested)) == [SmallPrio] + rest;
    SelectNext([], SmallPrio, IsRendered());
    if nested {
      SelectNext([SmallPrio], SmallSfq, IsRendered());
    }
    assert [] + [SmallPrio] == [SmallPrio] && [SmallPrio] + [] == [SmallPrio];
  }

  lemma SmallWords()
    ensures SafeQdisc(SmallRoot) && SafeQdisc(SmallPrio) && SafeQdisc(SmallSfq) && Plain(SmallPrio) && Plain(SmallSfq)
    ensures SafeClass(SmallClass) && ParentWord(SmallClass) == SmallRoot.handle
  {
  }

  lemma SmallTree(nested: bool)
    ensures ClassTree(SmallDevice(nested), SmallRoot)
    ensures ById([SmallClass]) == map["1:10" := SmallClass]
  {
    SmallParts(nested);
    SmallWords();
    assert [SmallClass][..0] == [];
    hide HtbClasses, RootQdisc, SafeClass, SafeQdisc, ParentWord;
    assert Steps(ById([SmallClass]), SmallClass, 32) == 0;
  }

  /** The device satisfies the assumptions of the theorems; its script can be replayed exactly when
      nothing hangs from the prio. */
  lemma SmallRebuilds(nested: bool)
    ensures Renderable("eth0", SmallDevice(nested), SmallRoot)
    ensures Replay("eth0", Some(Bare), DeviceCommands("eth0", SmallDevice(nested))).Some? <==> !nested
  {
    var d := SmallDevice(nested);
    SmallParts(nested);
    SmallWords();
    SmallTree(nested);
    hide SafeQdisc, Plain, ClassTree, HtbClasses, Hooks, RenderedOthers, RootQdisc, ById, Replay, DeviceCommands;
    assert Renderable("eth0", d, SmallRoot);
    RebuildsExactly("eth0", d, SmallRoot);
    if nested {
      assert SmallSfq in RenderedOthers(d) && SmallSfq.parent.value !in ById(HtbClasses(d));
    }
  }
}
