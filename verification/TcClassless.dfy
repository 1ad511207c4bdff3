/**
 Devices without classes: the root is a netem, a tbf or another qdisc that is no htb, and inner qdiscs hang from
 the classes that such qdiscs bring along.
 */
module TcClassless {
  import opened Wrappers
  import opened Sorting
  import opened TrafficControl
  import opened TcCommands
  import opened TcReplay
  import opened TcRebuild
  import opened TcTheorem
  import opened TcOutcome

  /** The inner qdisc at a place of the list hangs from the root, or from one before it that is no htb. */
  ghost predicate HangsAt(qdiscs: seq<Qdisc>, root: Qdisc, i: nat) {
    && i < |qdiscs| && qdiscs[i].parent.Some?
    && (|| Owns(root.handle, qdiscs[i].parent.value)
        || exists j :: && 0 <= j < i && IsInner(qdiscs[j]) && Owns(qdiscs[j].handle, qdiscs[i].parent.value)
                       && qdiscs[j].kind != "htb")
  }

  /** Every inner qdisc of the device does. */
  ghost predicate AllHang(qdiscs: seq<Qdisc>, root: Qdisc) {
    forall i :: 0 <= i < |qdiscs| && IsInner(qdiscs[i]) ==> HangsAt(qdiscs, root, i)
  }

  // ----- nothing is sorted -----

  lemma {:induction false} AllWithKey<T>(xs: seq<T>, key: T -> int)
    requires forall x :: x in xs ==> key(x) == 0
    ensures WithKey(xs, key, 0) == xs
  {
    if xs != [] {
      AllWithKey(xs[..|xs| - 1], key);
      assert xs == xs[..|xs| - 1] + [xs[|xs| - 1]];
    }
  }

  lemma NothingSorted<T(!new)>(xs: seq<T>, key: T -> int)
    requires forall x :: key(x) == 0
    ensures SortBy(xs, key) == xs
  {
    SortByIs(xs, key, 0);
    AllWithKey(xs, key);
    AllWithKey(SortBy(xs, key), key);
  }

  lemma OrderIsKept(d: Device)
    requires HtbClasses(d) == []
    ensures SortedOthers(d) == Others(d) && SortedClasses(d) == []
  {
    assert ById([]) == map[];
    hide SortBy, Others;
    NothingSorted(Others(d), QdiscKey([]));
    NoSorting(DepthOf([]));
  }

  lemma NoSorting<T>(key: T -> int)
    ensures SortBy([], key) == []
  {
  }

  // ----- what hangs where -----

  lemma {:induction false} OwnsIs(h: Word, id: Word)
    ensures Owns(h, id) <==> Major(id) == Some(h)
  {
    if Owns(h, id) {
      var k :| 0 <= k < |id| && id[k] == ':' && h == id[..k + 1] && forall j :: 0 <= j < k ==> id[j] != ':';
      MajorIs(id, k);
    } else if Major(id) == Some(h) {
      var k := ColonIn(id);
      MajorIs(id, k);
    }
  }

  lemma {:induction false} ColonIn(id: Word) returns (k: nat)
    requires Major(id).Some?
    ensures k < |id| && id[k] == ':' && forall j :: 0 <= j < k ==> id[j] != ':'
  {
    if id[0] == ':' {
      k := 0;
    } else {
      k := ColonIn(id[1..]);
      k := k + 1;
    }
  }

  /** The kernel with the root alone */
  function RootOnly(root: Qdisc): Kernel {
    Bare.(qdiscs := map[root.handle := QdiscNodeOf(root)])
  }

  /** Hanging in the list of all qdiscs, and in that of the inner ones */
  lemma {:induction false} HangIs(qdiscs: seq<Qdisc>, root: Qdisc)
    requires root.kind != "htb"
    ensures AllAttach(RootOnly(root), Select(qdiscs, IsInner)) <==> AllHang(qdiscs, root)
  {
    hide AllAttach, AllHang, AttachesAt, HangsAt, IsInner, Owns;
    if qdiscs == [] {
      NoneHang(root);
    } else {
      var front, q := qdiscs[..|qdiscs| - 1], qdiscs[|qdiscs| - 1];
      HangIs(front, root);
      AllHangFront(qdiscs, root);
      if IsInner(q) {
        var inner := Select(front, IsInner);
        assert Select(qdiscs, IsInner) == inner + [q];
        assert (inner + [q])[..|inner|] == inner;
        AllAttachFront(RootOnly(root), inner + [q]);
        LastHangs(qdiscs, root);
      } else {
        assert Select(qdiscs, IsInner) == Select(front, IsInner) + [];
        assert Select(qdiscs, IsInner) == Select(front, IsInner);
      }
    }
  }

  lemma NoneHang(root: Qdisc)
    ensures AllAttach(RootOnly(root), []) && AllHang([], root)
  {
  }

  lemma AllHangFront(qdiscs: seq<Qdisc>, root: Qdisc)
    requires qdiscs != []
    ensures AllHang(qdiscs, root) <==>
            AllHang(qdiscs[..|qdiscs| - 1], root) && (IsInner(qdiscs[|qdiscs| - 1]) ==> HangsAt(qdiscs, root, |qdiscs| - 1))
  {
    var front := qdiscs[..|qdiscs| - 1];
    hide IsInner, Owns;
    forall i | 0 <= i < |front|
      ensures HangsAt(front, root, i) <==> HangsAt(qdiscs, root, i)
    {
      assert forall j :: 0 <= j < i ==> front[j] == qdiscs[j];
    }
  }

  lemma LastHangs(qdiscs: seq<Qdisc>, root: Qdisc)
    requires qdiscs != [] && root.kind != "htb"
    ensures var inner := Select(qdiscs[..|qdiscs| - 1], IsInner);
            AttachesAt(RootOnly(root), inner + [qdiscs[|qdiscs| - 1]], |inner|) <==> HangsAt(qdiscs, root, |qdiscs| - 1)
  {
    var front, q := qdiscs[..|qdiscs| - 1], qdiscs[|qdiscs| - 1];
    var inner := Select(front, IsInner);
    forall h, id
      ensures Owns(h, id) <==> Major(id) == Some(h)
    {
      OwnsIs(h, id);
    }
    forall o
      ensures o in inner <==> o in front && IsInner(o)
    {
      SelectIs(front, IsInner, o);
    }
    assert QdiscNodeOf(root).kind == root.kind;
    hide Major, Owns, IsInner, Select, QdiscNodeOf;
    if q.parent.Some? {
      SameHangers(front, inner, q.parent.value);
      LastInFront(qdiscs, root);
      LastAttached(root, inner, q);
    }
  }

  /** Something to hang from among the inner qdiscs */
  ghost predicate Hanger(qs: seq<Qdisc>, p: Word, which: Qdisc -> bool) {
    exists j :: 0 <= j < |qs| && which(qs[j]) && Major(p) == Some(qs[j].handle) && qs[j].kind != "htb"
  }

  lemma SameHangers(front: seq<Qdisc>, inner: seq<Qdisc>, p: Word)
    requires forall o :: o in inner <==> o in front && IsInner(o)
    ensures Hanger(inner, p, q => true) <==> Hanger(front, p, IsInner)
  {
    hide Major, IsInner;
    if Hanger(inner, p, q => true) {
      var j :| 0 <= j < |inner| && Major(p) == Some(inner[j].handle) && inner[j].kind != "htb";
      assert inner[j] in front && IsInner(inner[j]);
      var i :| 0 <= i < |front| && front[i] == inner[j];
    }
    if Hanger(front, p, IsInner) {
      var j :| 0 <= j < |front| && IsInner(front[j]) && Major(p) == Some(front[j].handle) && front[j].kind != "htb";
      assert front[j] in inner;
      var i :| 0 <= i < |inner| && inner[i] == front[j];
    }
  }

  lemma LastInFront(qdiscs: seq<Qdisc>, root: Qdisc)
    requires qdiscs != [] && qdiscs[|qdiscs| - 1].parent.Some?
    requires forall h, id :: Owns(h, id) <==> Major(id) == Some(h)
    ensures var front, p := qdiscs[..|qdiscs| - 1], qdiscs[|qdiscs| - 1].parent.value;
            HangsAt(qdiscs, root, |qdiscs| - 1) <==> Major(p) == Some(root.handle) || Hanger(front, p, IsInner)
  {
    hide Major, Owns, IsInner;
    var front := qdiscs[..|qdiscs| - 1];
    assert forall j :: 0 <= j < |front| ==> front[j] == qdiscs[j];
  }

  lemma LastAttached(root: Qdisc, inner: seq<Qdisc>, q: Qdisc)
    requires q.parent.Some? && root.kind != "htb" && QdiscNodeOf(root).kind == root.kind
    ensures var p := q.parent.value;
            AttachesAt(RootOnly(root), inner + [q], |inner|) <==> Major(p) == Some(root.handle) || Hanger(inner, p, q => true)
  {
    hide Major, QdiscNodeOf;
    var qs := inner + [q];
    assert qs[|inner|] == q && forall j :: 0 <= j < |inner| ==> qs[j] == inner[j];
  }

  // ----- the replay -----

  lemma RootReplayed(dev: Word, root: Qdisc)
    requires Safe(dev) && SafeQdisc(root) && Plain(root) && root.parent == Some("root")
    ensures Replay(dev, Some(Bare), QdiscCommands(dev, root)) == Some(RootOnly(root))
    ensures QdiscNodeOf(root).parent == None && QdiscNodeOf(root).kind == root.kind
  {
    ReadsQdisc(dev, root);
    var cmds := QdiscCommands(dev, root);
    hide Read, QdiscCommands, SafeTokens, Safe, Plain;
    ReplayOne(dev, Some(Bare), [], cmds[0]);
    assert [] + [cmds[0]] == cmds;
  }

  lemma ClasslessParts(dev: Word, d: Device, root: Qdisc)
    requires Classless(dev, d, root)
    ensures Fits(dev, d, root) && SafeQdisc(root) && Plain(root) && root.parent == Some("root") && root.kind != "htb"
    ensures HtbClasses(d) == [] && Safe(dev) && InnersFit(d, root)
  {
    TidyFits(dev, d, root);
    RootIsThere(d, root);
    ClassesAre(d);
    KindsAre(root.kind);
    KindIsSafe(root.kind);
    SafeIs(root.handle);
    LiteralsAreSafe();
    NoneSelected(d.classes, IsClass);
    hide Fits, RootFirst, FiltersHang, OneOf, Safe, SafeWord, RenderedQdiscs, HtbClasses, InnersFit, Select;
  }

  lemma {:induction false} NoneSelected<T>(xs: seq<T>, keep: T -> bool)
    requires forall x :: x in xs ==> !keep(x)
    ensures Select(xs, keep) == []
  {
    if xs != [] {
      NoneSelected(xs[..|xs| - 1], keep);
      assert xs[|xs| - 1] in xs;
    }
  }

  lemma InnersReplayed(dev: Word, d: Device, root: Qdisc)
    requires Classless(dev, d, root)
    ensures var k := Replay(dev, Some(RootOnly(root)), All(SortedOthers(d), QdiscRender(dev)));
      && (k.Some? <==> AllHang(d.qdiscs, root))
      && (k.Some? ==> k.value == RootOnly(root).(qdiscs := k.value.qdiscs)
                      && HasQdiscs(k.value.qdiscs, RootOnly(root).qdiscs, RenderedOthers(d)))
  {
    ClasslessParts(dev, d, root);
    RootReplayed(dev, root);
    OrderIsKept(d);
    assert RenderedSorted(d) == RenderedOthers(d);
    InnersAre(d, root);
    hide Classless, Fits, SafeQdisc, Plain, AllHang, AllAttach, HasQdiscs, Addable, Replay, Safe, InnersFit, SortedOthers, Others;
    SkippedGiveNothing(dev, SortedOthers(d));
    SortedAddable(dev, d, root, RootOnly(root));
    ReplayQdiscs(dev, RootOnly(root), RenderedOthers(d));
    HangIs(d.qdiscs, root);
  }

  /** The script of a device without classes succeeds exactly when each inner qdisc hangs from the root or from one
      listed before it, and then leaves the entries of the device and nothing else. */
  lemma ScriptLeaves(dev: Word, d: Device, root: Qdisc)
    requires Classless(dev, d, root)
    ensures var k := Replay(dev, Some(Bare), DeviceCommands(dev, d));
            (k.Some? <==> AllHang(d.qdiscs, root)) && (k.Some? ==> KernelMeant(k.value, d, root))
  {
    ClasslessParts(dev, d, root);
    RootReplayed(dev, root);
    InnersReplayed(dev, d, root);
    OrderIsKept(d);
    FitFacts(dev, d, root);
    ScriptIs(dev, d, root);
    var s := Script(dev, d, root);
    TreeIsRoot(dev, d, root);
    assert Tidy(dev, d, root);
    hide Classless, Tidy, Fits, Replay, AllHang, HasQdiscs, HasClasses, Safe, SafeQdisc, Plain, KernelMeant, Rebuilt, RootQdisc,
      Script, SortedOthers, HtbClasses, DeviceCommands, ClassesMeant;
    ReplayAppend(dev, Some(Bare), s[0], s[1]);
    ReplayAppend(dev, Some(Bare), s[0] + s[1], s[2]);
    ReplayAppend(dev, Some(Bare), s[0] + s[1] + s[2], s[3]);
    ReplayAppend(dev, Some(Bare), s[0] + s[1] + s[2] + s[3], s[4]);
    ScriptParts(dev, d, root);
    var k2 := Replay(dev, Some(RootOnly(root)), All(SortedOthers(d), QdiscRender(dev)));
    if k2.Some? {
      NoClasses(d, root);
      var k := FiltersReplayed(dev, d, root, k2.value, RootOnly(root));
      RebuiltClasses(k, d, root);
      RebuiltIsMeant(dev, d, root, k);
    } else {
      NoneStays(dev, s[2]);
      NoneStays(dev, s[3]);
      NoneStays(dev, s[4]);
    }
  }

  lemma ScriptParts(dev: Word, d: Device, root: Qdisc)
    ensures var s := Script(dev, d, root);
      && |s| == 5 && s[0] == TreeCommands(dev, d, root) && s[1] == All(SortedOthers(d), QdiscRender(dev))
      && s[2] == All(d.filters, EgressRender(dev, Some(root))) && s[3] == All(Hooks(d), QdiscRender(dev))
      && s[4] == All(d.filters, IngressRender(dev, Hooks(d)))
  {
  }

  lemma TreeIsRoot(dev: Word, d: Device, root: Qdisc)
    requires SortedClasses(d) == []
    ensures TreeCommands(dev, d, root) == QdiscCommands(dev, root)
  {
    hide QdiscCommands, SortedClasses;
    assert QdiscCommands(dev, root) + [] == QdiscCommands(dev, root);
  }

  lemma NoClasses(d: Device, root: Qdisc)
    requires HtbClasses(d) == []
    ensures HasClasses(map[], HtbClasses(d)) && RootOnly(root).classes == map[]
    ensures RootOnly(root).hook == None && RootOnly(root).filters == [] && RootOnly(root).qdiscs == map[root.handle := QdiscNodeOf(root)]
  {
  }

  lemma RebuiltClasses(k: Kernel, d: Device, root: Qdisc)
    requires Rebuilt(k, d, root) && HtbClasses(d) == []
    ensures ClassesMeant(k.classes, d, root)
  {
    ClassesAre(d);
    hide HasQdiscs, Hooks, All;
  }

  // ----- two devices -----

  const Delay: Qdisc := Qdisc("netem", "1:", Some("root"), ["delay", "10ms"])
  const Shaper: Qdisc := Qdisc("tbf", "2:", Some("1:1"), ["rate", "1mbit"])
  const Queue: Qdisc := Qdisc("sfq", "3:", Some("2:1"), [])

  /** A delay with a shaper below it and a queue below that, listed in this order or the other way round */
  function ShapedDevice(inOrder: bool): Device {
    Device([Delay] + (if inOrder then [Shaper, Queue] else [Queue, Shaper]), [], [])
  }

  lemma ShapedWords()
    ensures SafeWord("eth0") && SafeWord("1:") && SafeWord("2:") && SafeWord("3:") && SafeWord("1:1") && SafeWord("2:1")
  {
  }

  lemma ShapedOwners()
    ensures forall h :: (Owns(h, "1:1") <==> h == "1:") && (Owns(h, "2:1") <==> h == "2:")
  {
    assert "1:1"[1] == ':' && "1:1"[..2] == "1:";
    assert "2:1"[1] == ':' && "2:1"[..2] == "2:";
  }

  lemma ShapedParts(inOrder: bool)
    ensures var d := ShapedDevice(inOrder);
      && |d.qdiscs| == 3 && d.qdiscs[0] == Delay && d.classes == [] && d.filters == []
      && d.qdiscs[1] == (if inOrder then Shaper else Queue) && d.qdiscs[2] == if inOrder then Queue else Shaper
    ensures IsInner(Shaper) && IsInner(Queue) && !IsInner(Delay) && Queueing(Delay.kind) && Delay.kind != "htb"
    ensures !IsHook(Delay) && !IsHook(Shaper) && !IsHook(Queue)
  {
  }

  lemma ShapedInners(inOrder: bool)
    ensures InnersFit(ShapedDevice(inOrder), Delay) && FiltersHang(ShapedDevice(inOrder), Delay)
  {
    ShapedWords();
    ShapedParts(inOrder);
    assert Shaper.kind != "ingress" && Shaper.kind != "clsact" && Queue.kind != "ingress" && Queue.kind != "clsact";
    assert Shaper.handle != Delay.handle && Queue.handle != Delay.handle;
    hide ShapedDevice, SafeWord, IsInner, Queueing;
  }

  lemma ShapedKeys(inOrder: bool)
    ensures var qs := ShapedDevice(inOrder).qdiscs;
            OneOf(qs, IsInner, HandleOf()) && OneOf(qs, IsInner, ParentOf()) && OneOf(qs, IsHook, q => "")
  {
    ShapedParts(inOrder);
    assert HandleOf()(Shaper) != HandleOf()(Queue) && ParentOf()(Shaper) != ParentOf()(Queue);
    hide ShapedDevice, IsInner, IsHook, HandleOf, ParentOf;
  }

  lemma ShapedFits(inOrder: bool)
    ensures Classless("eth0", ShapedDevice(inOrder), Delay)
  {
    ShapedWords();
    ShapedParts(inOrder);
    ShapedInners(inOrder);
    ShapedKeys(inOrder);
    assert Delay.parent == Some("root");
    hide ShapedDevice, SafeWord, IsInner, IsHook, InnersFit, FiltersHang, OneOf;
    assert RootFirst(ShapedDevice(inOrder), Delay);
  }

  lemma ShapedHangs(inOrder: bool)
    ensures AllHang(ShapedDevice(inOrder).qdiscs, Delay) <==> inOrder
  {
    ShapedParts(inOrder);
    ShapedOwners();
    assert Shaper.parent == Some("1:1") && Queue.parent == Some("2:1") && Shaper.handle == "2:" && Shaper.kind != "htb";
    assert Delay.handle == "1:" && "1:" != "2:";
    hide ShapedDevice, Owns, IsInner;
    var qs := ShapedDevice(inOrder).qdiscs;
    if inOrder {
      assert HangsAt(qs, Delay, 1);
      assert IsInner(qs[1]) && Owns(qs[1].handle, qs[2].parent.value);
      assert HangsAt(qs, Delay, 2);
    } else {
      assert !IsInner(qs[0]) && !HangsAt(qs, Delay, 1);
    }
  }

  /** Both meet the assumptions, and only the first can be replayed: the order of the list counts. */
  lemma ShapedIsReplayed(inOrder: bool)
    ensures Classless("eth0", ShapedDevice(inOrder), Delay)
    ensures Replay("eth0", Some(Bare), DeviceCommands("eth0", ShapedDevice(inOrder))).Some? <==> inOrder
  {
    hide *;
    ShapedFits(inOrder);
    ShapedHangs(inOrder);
    ScriptLeaves("eth0", ShapedDevice(inOrder), Delay);
  }
}
