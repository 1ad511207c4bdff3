/**
 The rendered commands rebuild the tree of the device: every parent exists before its child.
 */
module TcReplay {
  import opened Wrappers
  import opened Sorting
  import opened TrafficControl
  import opened TcCommands

  // ----- lists in which every parent comes first -----

  predicate Before(cs: seq<Class>, id: Word, n: nat) {
    exists j :: 0 <= j < n && j < |cs| && cs[j].id == id
  }

  ghost predicate ClassesOrdered(cs: seq<Class>, root: Word) {
    && (forall i :: 0 <= i < |cs| ==> SafeClass(cs[i]))
    && (forall i, j :: 0 <= i < j < |cs| ==> cs[i].id != cs[j].id)
    && (forall i :: 0 <= i < |cs| ==> ParentWord(cs[i]) == root || Before(cs, ParentWord(cs[i]), i))
  }

  function ClassNodeOf(c: Class): ClassNode {
    ClassNode(ParentWord(c), SafeTokens(Select(c.tokens, t => t != "level")))
  }

  /** The classes of a kernel are those of a list. */
  ghost predicate HasClasses(k: map<Word, ClassNode>, cs: seq<Class>) {
    && (forall c :: c in cs ==> c.id in k && k[c.id] == ClassNodeOf(c))
    && (forall id :: id in k ==> exists c :: c in cs && c.id == id)
  }

  lemma {:induction false} ReplayClasses(dev: Word, k: Kernel, root: Word, cs: seq<Class>) returns (k2: Kernel)
    requires Safe(dev) && ClassesOrdered(cs, root)
    requires root in k.qdiscs && k.qdiscs[root].kind == "htb" && k.classes == map[]
    ensures Replay(dev, Some(k), All(cs, ClassRender(dev))) == Some(k2)
    ensures k2 == k.(classes := k2.classes) && HasClasses(k2.classes, cs)
  {
    if cs == [] {
      k2 := k;
    } else {
      var front, c := cs[..|cs| - 1], cs[|cs| - 1];
      OrderedFront(cs, root);
      var k1 := ReplayClasses(dev, k, root, front);
      ReadsClass(dev, c);
      k2 := k1.(classes := k1.classes[c.id := ClassNodeOf(c)]);
      ClassAdded(k1, root, cs, k2);
      ReplayOne(dev, Some(k), All(front, ClassRender(dev)), ClassCommand(dev, c));
    }
  }

  lemma ReplayOne(dev: Word, k: Option<Kernel>, cmds: seq<Command>, cmd: Command)
    ensures Replay(dev, k, cmds + [cmd]) ==
            var before := Replay(dev, k, cmds);
            if before.None? || Read(dev, cmd).None? then None else Exec(before.value, Read(dev, cmd).value)
  {
    assert (cmds + [cmd])[..|cmds|] == cmds;
  }

  lemma OrderedFront(cs: seq<Class>, root: Word)
    requires cs != [] && ClassesOrdered(cs, root)
    ensures ClassesOrdered(cs[..|cs| - 1], root)
  {
    var front := cs[..|cs| - 1];
    forall i | 0 <= i < |front|
      ensures ParentWord(front[i]) == root || Before(front, ParentWord(front[i]), i)
    {
      if ParentWord(cs[i]) != root {
        assert Before(cs, ParentWord(cs[i]), i);
        var j :| 0 <= j < i && cs[j].id == ParentWord(cs[i]);
        assert front[j].id == ParentWord(front[i]);
      }
    }
  }

  lemma ParentIsThere(k: map<Word, ClassNode>, root: Word, cs: seq<Class>)
    requires cs != [] && ClassesOrdered(cs, root) && HasClasses(k, cs[..|cs| - 1])
    ensures ParentWord(cs[|cs| - 1]) == root || ParentWord(cs[|cs| - 1]) in k
  {
    hide ClassNodeOf, ParentWord, SafeClass;
    var front, p := cs[..|cs| - 1], ParentWord(cs[|cs| - 1]);
    if p != root {
      assert Before(cs, p, |front|);
      var j :| 0 <= j < |front| && cs[j].id == p;
      assert front[j] in front;
    }
  }

  lemma ClassAdded(k: Kernel, root: Word, cs: seq<Class>, k2: Kernel)
    requires cs != [] && ClassesOrdered(cs, root) && HasClasses(k.classes, cs[..|cs| - 1])
    requires root in k.qdiscs && k.qdiscs[root].kind == "htb"
    requires var c := cs[|cs| - 1]; k2 == k.(classes := k.classes[c.id := ClassNodeOf(c)])
    ensures Exec(k, ClassStep(cs[|cs| - 1])) == Some(k2) && HasClasses(k2.classes, cs)
  {
    hide ClassNodeOf, ParentWord, SafeClass;
    var front, c := cs[..|cs| - 1], cs[|cs| - 1];
    assert cs == front + [c];
    assert c.id !in k.classes;
    ParentIsThere(k.classes, root, cs);
    hide ClassesOrdered;
    ClassStepIs(c);
  }

  lemma ClassStepIs(c: Class)
    ensures ClassStep(c) == NewClass(ParentWord(c), c.id, "htb", ClassNodeOf(c).params)
    ensures ClassNodeOf(c).parent == ParentWord(c)
  {
  }

  // ----- the sorted classes are such a list -----

  ghost predicate DistinctKeys<T>(xs: seq<T>, key: T -> Word) {
    forall i, j :: 0 <= i < j < |xs| ==> key(xs[i]) != key(xs[j])
  }

  function IdOf(): Class -> Word {
    (c: Class) => c.id
  }

  lemma {:induction false} CountOnce<T>(xs: seq<T>, key: T -> Word, x: T)
    requires DistinctKeys(xs, key)
    ensures multiset(xs)[x] <= 1
  {
    if xs != [] {
      var front, last := xs[..|xs| - 1], xs[|xs| - 1];
      assert xs == front + [last];
      CountOnce(front, key, x);
      assert forall i :: 0 <= i < |front| ==> front[i] == xs[i] && key(front[i]) != key(last);
      assert last !in front;
      assert last !in multiset(front);
    }
  }

  lemma DistinctPermuted<T>(xs: seq<T>, ys: seq<T>, key: T -> Word)
    requires DistinctKeys(xs, key) && multiset(xs) == multiset(ys)
    ensures DistinctKeys(ys, key)
  {
    forall i, j | 0 <= i < j < |ys|
      ensures key(ys[i]) != key(ys[j])
    {
      CountOnce(xs, key, ys[i]);
      assert ys == ys[..j] + ys[j..];
      assert ys[..j][i] in multiset(ys[..j]) && ys[j..][0] in multiset(ys[j..]);
      assert ys[i] in multiset(xs) && ys[j] in multiset(xs);
      assert ys[i] in xs && ys[j] in xs;
    }
  }

  lemma {:induction false} ByIdIs(cs: seq<Class>, id: Word)
    ensures id in ById(cs) <==> exists c :: c in cs && c.id == id
    ensures id in ById(cs) ==> ById(cs)[id] in cs && ById(cs)[id].id == id
  {
    if cs != [] {
      ByIdIs(cs[..|cs| - 1], id);
      assert cs == cs[..|cs| - 1] + [cs[|cs| - 1]];
    }
  }

  lemma {:induction false} MoreFuel(ids: map<Word, Class>, c: Class, fuel: nat)
    requires Steps(ids, c, fuel) < fuel
    ensures Steps(ids, c, fuel + 1) == Steps(ids, c, fuel)
    decreases fuel
  {
    if !Rooted(c.parent) && c.parent.value in ids {
      MoreFuel(ids, ids[c.parent.value], fuel - 1);
    }
  }

  /** A class is deeper than its parent. */
  lemma ParentIsShallower(cs: seq<Class>, c: Class)
    requires ClassDepth(cs, c) < 32 && !Rooted(c.parent) && c.parent.value in ById(cs)
    ensures ClassDepth(cs, ById(cs)[c.parent.value]) < ClassDepth(cs, c)
  {
    MoreFuel(ById(cs), ById(cs)[c.parent.value], 31);
  }

  /** A root htb, with the classes in chains of fewer than 32 under it */
  ghost predicate ClassTree(d: Device, root: Qdisc) {
    var cs := HtbClasses(d);
    && RootQdisc(d.qdiscs) == Some(root) && root.kind == "htb" && SafeQdisc(root)
    && DistinctKeys(cs, IdOf())
    && forall c :: c in cs ==>
         && SafeClass(c) && ClassDepth(cs, c) < 32
         && (ParentWord(c) == root.handle || (!Rooted(c.parent) && c.parent.value in ById(cs)))
  }

  lemma TreeClass(d: Device, root: Qdisc, c: Class)
    requires ClassTree(d, root) && c in HtbClasses(d)
    ensures SafeClass(c) && ClassDepth(HtbClasses(d), c) < 32
    ensures ParentWord(c) == root.handle
         || (!Rooted(c.parent) && c.parent.value in ById(HtbClasses(d)) && c.parent.value == ParentWord(c))
  {
  }

  lemma TreeSorted(d: Device, root: Qdisc)
    requires ClassTree(d, root)
    ensures multiset(SortedClasses(d)) == multiset(HtbClasses(d))
    ensures forall c :: c in SortedClasses(d) <==> c in HtbClasses(d)
    ensures Ascending(SortedClasses(d), DepthOf(HtbClasses(d)))
    ensures forall i, j :: 0 <= i < j < |SortedClasses(d)| ==> SortedClasses(d)[i].id != SortedClasses(d)[j].id
  {
    var cs := HtbClasses(d);
    assert DistinctKeys(cs, IdOf());
    hide ClassTree, SortBy, HtbClasses;
    var sorted := SortBy(cs, DepthOf(cs));
    SortByIs(cs, DepthOf(cs), 0);
    DistinctPermuted(cs, sorted, IdOf());
    SameElements(cs, sorted);
    forall i, j | 0 <= i < j < |sorted|
      ensures sorted[i].id != sorted[j].id
    {
      assert IdOf()(sorted[i]) != IdOf()(sorted[j]);
    }
  }

  lemma SortedOrdered(d: Device, root: Qdisc)
    requires ClassTree(d, root)
    ensures ClassesOrdered(SortedClasses(d), root.handle)
    ensures forall c :: c in SortedClasses(d) <==> c in HtbClasses(d)
  {
    hide ClassTree, SafeClass, ParentWord, SortedClasses, HtbClasses, Before;
    TreeSorted(d, root);
    var sorted := SortedClasses(d);
    forall i | 0 <= i < |sorted|
      ensures SafeClass(sorted[i])
      ensures ParentWord(sorted[i]) == root.handle || Before(sorted, ParentWord(sorted[i]), i)
    {
      assert sorted[i] in sorted;
      TreeClass(d, root, sorted[i]);
      ParentFirst(d, root, i);
    }
  }

  lemma SameElements<T>(xs: seq<T>, ys: seq<T>)
    requires multiset(xs) == multiset(ys)
    ensures forall x :: x in xs <==> x in ys
  {
    forall x
      ensures x in xs <==> x in ys
    {
      assert x in xs <==> x in multiset(xs);
      assert x in ys <==> x in multiset(ys);
    }
  }

  lemma ParentFirst(d: Device, root: Qdisc, i: nat)
    requires ClassTree(d, root) && i < |SortedClasses(d)|
    ensures var c := SortedClasses(d)[i];
            ParentWord(c) == root.handle || Before(SortedClasses(d), ParentWord(c), i)
  {
    hide ClassTree, SafeClass, ParentWord, SortedClasses, HtbClasses, ById, ClassDepth;
    var cs, sorted := HtbClasses(d), SortedClasses(d);
    TreeSorted(d, root);
    var c := sorted[i];
    assert c in sorted;
    TreeClass(d, root, c);
    if ParentWord(c) != root.handle {
      ByIdIs(cs, c.parent.value);
      var p := ById(cs)[c.parent.value];
      ParentIsShallower(cs, c);
      assert p in sorted;
      var j :| 0 <= j < |sorted| && sorted[j] == p;
      assert DepthOf(cs)(sorted[j]) < DepthOf(cs)(sorted[i]);
      assert j < i;
    }
  }
}
